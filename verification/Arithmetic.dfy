/** Powers of two, and the facts about products and quotients the other modules lean on. */
module Arithmetic {

  function TwoTo(n: nat): (p: nat)
    ensures p >= 1
  {
    if n == 0 then 1 else 2 * TwoTo(n - 1)
  }

  /** The value a 16-bit variable holds after an assignment. */
  function Wrap16(x: int): (r: int)
    ensures -0x8000 <= r < 0x8000 && (-0x8000 <= x < 0x8000 ==> r == x)
  {
    var low := x % 0x1_0000;
    if low > 0x7fff then low - 0x1_0000 else low
  }

  /** The value a 32-bit variable holds after an assignment. */
  function Wrap32(x: int): (r: int)
    ensures -0x8000_0000 <= r < 0x8000_0000 && (-0x8000_0000 <= x < 0x8000_0000 ==> r == x)
  {
    var low := x % 0x1_0000_0000;
    if low > 0x7fff_ffff then low - 0x1_0000_0000 else low
  }

  lemma ShiftBound(a: int, p: nat)
    requires p >= 1
    ensures 0 <= a ==> 0 <= a / p <= a
    ensures a < 0 ==> a <= a / p < 0
  {
    hide TwoTo;
    var q := a / p;
    assert a == p * q + a % p;
    if a < 0 {
      MulMonotone(p, q);
      MulMonotone(p, q + 1);
    } else {
      MulMonotone(p, q);
    }
  }

  lemma MulMonotone(p: int, q: int)
    requires p >= 1
    ensures q >= 0 ==> p * q >= q
    ensures q <= 0 ==> p * q <= q
    ensures p * (q + 1) == p * q + p
  {}

  lemma DivBound(num: int, den: int)
    requires 0 <= num <= den && 0 < den
    ensures num < den ==> 0 <= num * 0x8000 / den < 0x8000
  {}

  lemma MulNat(a: int, b: int, A: int, B: int)
    requires 0 <= a <= A && 0 <= b <= B
    ensures 0 <= a * b <= A * B
  {
    assert a * b <= A * b;
    assert A * b <= A * B;
  }

  lemma MulSigns(a: int, b: int)
    ensures (-a) * b == -(a * b) && a * (-b) == -(a * b) && (-a) * (-b) == a * b
  {}

  lemma {:induction false} PowersGrow(m: nat, n: nat)
    requires m <= n
    ensures TwoTo(m) <= TwoTo(n)
  {
    if m < n { PowersGrow(m, n - 1); }
  }

  lemma {:induction false} PowersAdd(m: nat, n: nat)
    ensures TwoTo(m) * TwoTo(n) == TwoTo(m + n)
  {
    if m > 0 {
      PowersAdd(m - 1, n);
      Twice(TwoTo(m - 1), TwoTo(n));
    }
  }

  lemma Twice(p: int, q: int)
    ensures 2 * p * q == 2 * (p * q)
  {}

  lemma Cancel(k: int, a: int, b: int)
    requires k > 0 && k * a <= k * b
    ensures a <= b
  {
    MulSigns(k, b - a);
    if a > b { MulNat(1, a - b, k, a - b); }
  }

  lemma FloorRange(x: int, M: int, P: int)
    requires -M <= x <= M && P >= 1
    ensures -(M / P) - 1 <= x / P <= M / P
    ensures P == 1 ==> -M <= x / P
    ensures 0 <= x ==> 0 <= x / P
  {
    DivMonotone(x, M, P);
    DivMonotone(-M, x, P);
    NegativeFloor(M, P);
  }

  lemma NegativeFloor(M: int, P: int)
    requires P >= 1
    ensures -M / P >= -(M / P) - 1
  {
    var a, b := M / P, -M / P;
    assert M == P * a + M % P && -M == P * b + -M % P;
    assert P * (a + b) > -2 * P by { assert P * (a + b) == P * a + P * b; }
    if a + b <= -2 { MulNat(P, -2 - (a + b), P, -2 - (a + b)); }
  }

  lemma DivMonotone(x: int, y: int, P: int)
    requires x <= y && P >= 1
    ensures x / P <= y / P
  {
    var a, b := x / P, y / P;
    assert x == P * a + x % P && y == P * b + y % P;
    if a > b { MulNat(P, a - b - 1, P, a - b - 1); }
  }

  lemma DivModStep(d: nat, p: nat)
    requires p >= 1
    ensures d % (2 * p) == (d / p % 2) * p + d % p
  {
    var q, r := d / p, d % p;
    assert d == p * q + r;
    assert q == 2 * (q / 2) + q % 2;
    var h := q / 2;
    assert p * q == 2 * p * h + p * (q % 2);
    assert d == 2 * p * h + (p * (q % 2) + r);
    assert 0 <= p * (q % 2) + r < 2 * p;
    DivUnique(d, 2 * p, h, p * (q % 2) + r);
  }

  lemma DivUnique(d: nat, m: nat, q: nat, r: nat)
    requires d == m * q + r && r < m
    ensures d / m == q && d % m == r
  {
    var q', r' := d / m, d % m;
    assert d == m * q' + r';
    assert m * (q - q') == m * q - m * q';
    if q' < q {
      MulNat(m, q - q' - 1, m, q - q' - 1);
    } else if q < q' {
      MulNat(m, q' - q - 1, m, q' - q - 1);
    }
  }
}
