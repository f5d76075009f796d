# Speech codec models

This project models the numerical and protocol core of the three speech codecs in the repository and
proves properties of the models: G.729 (`bcg729`), BroadVoice16 (`bx16_fixedp`) and the Speex bit
buffer and codebook search (`speex-1.2rc1`). `dafny verify dfyconfig.toml` checks everything.

| file | what it models |
|---|---|
| Levinson.dfy, Autocorrelation.dfy, LevinsonSignal.dfy | linear prediction of G.729: normal equations, overflow-free normalised autocorrelation, and why no signal makes the recursion fail |
| LspPolynomials.dfy | line spectral pairs to predictor coefficients, half-length and full-length |
| Sorting.dfy, LspLockstep.dfy, LspRearrange.dfy, LspPrediction.dfy, LspSpacing.dfy | the predictive LSP quantiser of G.729 on both sides, and what its steps compute |
| PulseEnergy.dfy, PulseMatrix.dfy, PulseSearch.dfy | the four-pulse search over the correlation matrix |
| FrameBits.dfy, IndexCoding.dfy, FixedVector.dfy, FrameRoundTrip.dfy | delays and pulses of a G.729 frame across its 80 bits |
| SidFrames.dfy, ComfortNoise.dfy | silence frames and comfort noise |
| Arithmetic.dfy, BasicOps.dfy, DoublePrecision.dfy, MathUtil.dfy, Logarithms.dfy | words, the ITU-T G.191 basic operators, double precision, powers and logarithms |
| Bv16Gain.dfy, Bv16GainSearch.dfy, Bv16Linear.dfy, Bv16Level.dfy | BroadVoice16: the gain quantiser on both sides, what it searches for, and the level estimator |
| StabilizeLsp.dfy, Bv16Lsp.dfy, Bv16LspTarget.dfy, Bv16LspPast.dfy, Bv16LspInstances.dfy | BroadVoice16: the LSP quantiser on both sides, what it searches for, and stabilisation |
| Bv16Bits.dfy, Plc.dfy, PlcNoise.dfy | BroadVoice16: packing and concealment |
| BitStream.dfy, SpeexBits.dfy, SpeexStreaming.dfy | the Speex bit buffer as a sequence of bits |
| VqSearch.dfy, NBestList.dfy, BeamSearch.dfy, BeamLoops.dfy, BeamFilter.dfy, BeamDistance.dfy, BeamDistinct.dfy, SplitCodebook.dfy | the Speex beam search, the error it adds up, and its indices on the wire |

The bodies of the G.191 operators are not in the repository; they follow the ITU-T Software Tool
Library: additions and left shifts saturate, right shifts floor.

Where the code does not do what its comments or its other half say, the model follows the code:

- `dtx.c` packs the two upper bits of the second-stage index with `%0x03` where `utils.c` masks. The
  index comes back if and only if it is below 12.
- The G.729 encoder lifts index 1 to the lower LSF limit under a comment about index 0; the decoder
  lifts index 0. The results agree if and only if the least LSF is not below the limit, and five
  frames of one codeword of the shipped codebooks make them differ.
- Pitch sharpening truncates in the encoder and rounds in the decoder. The vectors agree if and only
  if every repeated pulse has the same echo under the two gains.
- `speex_bits_write` restores its counters but leaves the terminator bits in the buffer, and packing
  goes over them. With r the stream length modulo 8, n bits packed afterwards are appended if and only
  if r is 0 or 7 or bits 1 to min(n, 8 - r) - 1 of them are ones; so any n bits are if and only if r is
  0 or 7 or n is at most 1.
- The header of `Div_32` calls the result Q30 in one place and Q31 in another; the code computes Q31.
- The stability test of the BroadVoice16 encoder rounds two parts where the check of the decoder rounds
  their sum. The decoder accepts if and only if the tested front stays ordered after carries of at most
  one; with the shipped tables it can reject what the encoder accepted. The two sides also add mean,
  prediction and error in different orders; the exact condition for equal sums is stated, and a run of
  the shipped tables that misses it.

## Model

| member | source | states |
|---|---|---|
| Levinson.SolvesNormalEquations | voipcodec/src/main/jni/bcg729/src/computeLP.c:72-104 | Invariant of the Levinson-Durbin recursion in exact arithmetic: as long as no residual was zero, at every order the filter solves the normal equations of section 3.2.2 of ITU-T G.729, and row 0 is the residual energy |
| Levinson.UpdateSolves | voipcodec/src/main/jni/bcg729/src/computeLP.c:91-101 | One order update keeps the normal equations and multiplies the residual by one minus the squared reflection coefficient |
| Levinson.RegularIffNonSingular | voipcodec/src/main/jni/bcg729/src/computeLP.c:72-104 | The recursion divides by zero if and only if a leading block of the Toeplitz matrix is singular |
| Levinson.RegularHasTrivialKernel | voipcodec/src/main/jni/bcg729/src/computeLP.c:72-104 | With non-zero residuals below an order, only the zero vector is mapped to zero by the leading block |
| Levinson.SolutionIsUnique | voipcodec/src/main/jni/bcg729/src/computeLP.c:72-104 | The recursion finds the only predictor that solves the normal equations |
| Levinson.FormSymmetric | voipcodec/src/main/jni/bcg729/src/computeLP.c:72-104 | The bilinear form of a Toeplitz matrix is symmetric: the fact behind reading the filter backwards |
| Levinson.PredictionError | voipcodec/src/main/jni/bcg729/src/computeLP.c:84-89 | The inner sum is the row that the next order has to clear |
| Levinson.UpdateCoefficients | voipcodec/src/main/jni/bcg729/src/computeLP.c:79-99 | The loop over a copy of the old coefficients is the order update |
| Levinson.AutoCorrelation2LP | voipcodec/src/main/jni/bcg729/src/computeLP.c:40-105 | The whole loop in place: the coefficients, reflection coefficients and residual energy solve the normal equations |
| LevinsonSignal.InnerOfShifts | voipcodec/src/main/jni/bcg729/src/computeLP.c:174-190 | The inner product of two shifted copies of a signal depends only on the distance of the shifts |
| LevinsonSignal.FilteredForm | voipcodec/src/main/jni/bcg729/src/computeLP.c:72-104 | The Toeplitz form of two filters is the inner product of the signal through the one and through the other |
| LevinsonSignal.FormIsResidual | voipcodec/src/main/jni/bcg729/src/computeLP.c:72-104 | Once the normal equations hold, the form of the filter with itself is its residual |
| LevinsonSignal.ResidualsPositive | voipcodec/src/main/jni/bcg729/src/computeLP.c:72-104 | On the correlations of any signal that is not zero every residual is positive at every order, so the recursion never divides by zero |
| LevinsonSignal.ReflectionsBelowOne | voipcodec/src/main/jni/bcg729/src/computeLP.c:72-104 | And every reflection coefficient lies strictly between -1 and 1 |
| LevinsonSignal.InnerIsCorrelation | voipcodec/src/main/jni/bcg729/src/computeLP.c:174-195 | The sum of the loop over the samples is the inner product of the signal with its shifted copy |
| LevinsonSignal.EverySignalIsRegular | voipcodec/src/main/jni/bcg729/src/computeLP.c:153-195 | Whatever the samples, silence included, the coefficients formed before normalisation and lag window give positive residuals and reflection coefficients below one in magnitude |
| Autocorrelation.SplitProductIsRounded | voipcodec/src/main/jni/bcg729/src/fixedPointMacros.h:106 | The split 16 by 32 bit multiply is the exact product, rounded once |
| Autocorrelation.SplitProductFits | voipcodec/src/main/jni/bcg729/src/fixedPointMacros.h:106 | Neither part of the split multiply leaves 32 bits for the weights of the lag window |
| Autocorrelation.PartialBound | voipcodec/src/main/jni/bcg729/src/computeLP.c:175-195 | Twice a partial sum of shifted products is bounded by the energies of the two stretches it pairs |
| Autocorrelation.PartialSumsBounded | voipcodec/src/main/jni/bcg729/src/computeLP.c:175-195 | For every lag and after every term no partial sum exceeds the energy of the whole signal |
| Autocorrelation.SumOn64 | voipcodec/src/main/jni/bcg729/src/computeLP.c:175-184 | The 64-bit loop computes the correlation and never leaves 64 bits |
| Autocorrelation.SumOn32 | voipcodec/src/main/jni/bcg729/src/computeLP.c:185-195 | The 32-bit loop computes the correlation and never leaves 32 bits when the energy fits |
| Autocorrelation.HalveUntilFits | voipcodec/src/main/jni/bcg729/src/computeLP.c:160-165 | Repeated halving is one shift, and ends in [2^30, 2^31) |
| Autocorrelation.CountLeadingZeros | voipcodec/src/main/jni/bcg729/src/utils.h:105-114 | The number of shifts that bring a positive word into [2^30, 2^31); 31 for zero |
| Autocorrelation.NormaliseFirst | voipcodec/src/main/jni/bcg729/src/computeLP.c:153-172 | The first coefficient is the energy, at least one, shifted into [2^30, 2^31); the right shift is used exactly when 32 bits do not hold it |
| Autocorrelation.CoefficientBound | voipcodec/src/main/jni/bcg729/src/computeLP.c:175-195 | No normalised coefficient is more than one further from zero than the first, and all fit 32 bits |
| Autocorrelation.WindowedBelow | voipcodec/src/main/jni/bcg729/src/computeLP.c:208-211 | Behind the lag window every other coefficient is strictly below the first in magnitude |
| Autocorrelation.Correlate | voipcodec/src/main/jni/bcg729/src/computeLP.c:153-200 | All coefficients are the correlations under the shift of the first |
| Autocorrelation.ComputeAutocorrelation | voipcodec/src/main/jni/bcg729/src/computeLP.c:153-211 | Both outputs: the coefficients before the lag window, and behind it exactly rounded and strictly below the first; the scale is the negated shift |
| GainTables.SearchOrder | voipcodec/src/main/jni/bx16_fixedp/bv16/tables.c:275-278 | The search order starts at entry 0, visits no entry twice and sorts the gain codebook |
| GainTables.CodebookRange | voipcodec/src/main/jni/bx16_fixedp/bv16/tables.c:275-278 | The range of the codebook entries the range invariant needs |
| GainTables.LimitRows | voipcodec/src/main/jni/bx16_fixedp/bv16/tables.c:32-60 | The bounds of the change-limit table the range invariant needs |
| LevelEstimation.Estimator.EstLevel | voipcodec/src/main/jni/bx16_fixedp/bv16/levelest.c:32-116 | The level estimator in place computes the new state of the specification, and the returned adaptation factor |
| GainCodec.QuantisedAbove | voipcodec/src/main/jni/bx16_fixedp/bv16/gainquan.c:59-82 | From a memory inside the range no codebook entry brings the log-gain below it |
| GainCodec.AcceptKeepsRange | voipcodec/src/main/jni/bx16_fixedp/bv16/gainquan.c:110-116 | The range of the log-gain memory is an invariant of every accepted index |
| GainCodec.HonestChoice | voipcodec/src/main/jni/bx16_fixedp/bv16/gainquan.c:84-108 | The index an honest encoder chooses never looks like a bit error to the decoder |
| GainCodec.LimiterIsMaximal | voipcodec/src/main/jni/bx16_fixedp/bv16/gainquan.c:84-105 | The change limiter gives the largest entry, in search order from the nearest one down, that keeps the change below the limit |
| GainCodec.PositionOf | voipcodec/src/main/jni/bx16_fixedp/bv16/gainquan.c:70-108 | Every index has a position in the search order, so the descending loop is well-founded |
| GainCodec.FrameInStep | voipcodec/src/main/jni/bx16_fixedp/bv16/gaindec.c:49-103 | One frame takes equal encoder and decoder states to equal states and equal gains, without the bit-error branch |
| GainCodec.RunInStep | voipcodec/src/main/jni/bx16_fixedp/bv16/gaindec.c:49-103 | Over every error-free run memories, level estimates and linear gains of both sides stay equal and the bit-error branch is never taken |
| GainCodec.ResetInStep | voipcodec/src/main/jni/bx16_fixedp/bv16/encoder.c:49-54 | The reset states are equal and inside the range, so the run result holds from reset |
| GainSearch.ReplacementIsUsed | voipcodec/src/main/jni/bx16_fixedp/bv16/gaindec.c:80-93 | A bit error repeats the log-gain, stores this tap and resets the counter |
| LevelRange.MixRange | voipcodec/src/main/jni/bx16_fixedp/bv16/levelest.c:85-112 | A running average never exceeds both of its parts and falls at most five short of the exact one |
| LevelRange.TowardRange | voipcodec/src/main/jni/bx16_fixedp/bv16/levelest.c:62-82 | Attenuation towards the mean stays between the two values, up to three on the lower side |
| LevelRange.EstimateStays | voipcodec/src/main/jni/bx16_fixedp/bv16/levelest.c:52-114 | Whatever the flags, a frame whose log-gain lies between two bounds keeps maximum, minimum, mean, average and level between them, up to a fixed slack below |
| LevelRange.FirstFrame | voipcodec/src/main/jni/bx16_fixedp/bv16/levelest.c:52-114 | The first frame after a reset replaces the two extreme start values, so the range holds from then on |
| LevelRange.RunStays | voipcodec/src/main/jni/bx16_fixedp/bv16/levelest.c:52-114 | Over any run the estimator stays in the range of the log-gains |
| LevelRange.ResetStays | voipcodec/src/main/jni/bx16_fixedp/bv16/levelest.c:52-114 | From reset, after any run of at least one frame, the estimator is in the range of the log-gains |
| LevelRange.EstimateIs | voipcodec/src/main/jni/bx16_fixedp/bv16/levelest.c:52-114 | Every value of the estimator in exact arithmetic, up to six units: which values decay, which take in the log-gain, and when the level moves |
| GainCodec.EstimateLoop | voipcodec/src/main/jni/bx16_fixedp/bv16/gainquan.c:59-64 | The prediction loop computes the estimated log-gain |
| GainCodec.SearchLoop | voipcodec/src/main/jni/bx16_fixedp/bv16/gainquan.c:69-78 | The search loop finds the first nearest codebook entry |
| GainCodec.ShiftIn | voipcodec/src/main/jni/bx16_fixedp/bv16/gainquan.c:110-116 | Both memories shift and take in the new value |
| GainCodec.GainQuan | voipcodec/src/main/jni/bx16_fixedp/bv16/gainquan.c:37-125 | gainquan in place is the specified choice, memory update and gain |
| GainCodec.GainDec | voipcodec/src/main/jni/bx16_fixedp/bv16/gaindec.c:36-104 | gaindec in place is the specified acceptance or bit-error replacement, memory update and gain |
| LinearGain.LinearOfWhole | voipcodec/src/main/jni/bx16_fixedp/bv16/gainquan.c:118-123 | The linear gain of a log-gain of 0 is 2^18, and doubles with every 2.0 |
| LinearGain.LinearRange | voipcodec/src/main/jni/bx16_fixedp/bv16/gainquan.c:118-123 | Between whole steps the linear gain lies between their powers of two |
| LinearGain.LinearRises | voipcodec/src/main/jni/bx16_fixedp/bv16/gainquan.c:118-123 | A larger log-gain never has a smaller linear gain |
| LinearGain.LogGainRange | voipcodec/src/main/jni/bx16_fixedp/bv16/gainquan.c:48-57 | Where the mean energy has its leading bit, the log-gain has its whole part; exactly at powers of two |
| LinearGain.LogGainRises | voipcodec/src/main/jni/bx16_fixedp/bv16/gainquan.c:48-57 | A larger energy never has a smaller log-gain |
| LinearGain.GainIsRoot | voipcodec/src/main/jni/bx16_fixedp/bv16/gainquan.c:48-123 | The linear gain of the log-gain of a frame is the square root of its mean energy in the units of both, up to a factor of two between powers of four and exactly at them |
| GainSearch.SearchRebuilds | voipcodec/src/main/jni/bx16_fixedp/bv16/gainquan.c:66-82 | Among all entries the search finds the one whose log-gain comes nearest, up to one unit of the codebook |
| GainSearch.ChoiceRebuilds | voipcodec/src/main/jni/bx16_fixedp/bv16/gainquan.c:66-108 | When the limiter lets it pass, the choice of the encoder is this entry |
| GainSearch.MemoryIsPast | voipcodec/src/main/jni/bx16_fixedp/bv16/gainquan.c:110-116 | After any run of accepted entries tap k is the entry accepted k + 1 frames ago, and the older log-gain is that of the frame before |
| GainSearch.RunAccepts | voipcodec/src/main/jni/bx16_fixedp/bv16/gainquan.c:110-116 | The memory of the encoder after a run is that of the entries it has sent |
| GainSearch.RunIsMovingAverage | voipcodec/src/main/jni/bx16_fixedp/bv16/gainquan.c:59-64 | From reset the estimate of a frame is the mean log-gain plus the weighted entries of the eight frames before it, halved |
| GainSearch.LimitOfCell | voipcodec/src/main/jni/bx16_fixedp/bv16/gainquan.c:84-98 | The limit is the entry of the cell of the level above the input level and of the last change |
| GainSearch.LimitLevelIs | voipcodec/src/main/jni/bx16_fixedp/bv16/gainquan.c:101 | The largest log-gain the encoder admits is the last one and the limit |
| GainSearch.ReplacementExplains | voipcodec/src/main/jni/bx16_fixedp/bv16/gaindec.c:86-90 | The tap that replaces a bit error is the one that explains the repeated log-gain, floored |
| GainCodec.Encoder.EncodeGain | voipcodec/src/main/jni/bx16_fixedp/bv16/encoder.c:161-167 | Gain quantisation and level estimation in the order of the encoder |
| GainCodec.Decoder.DecodeGain | voipcodec/src/main/jni/bx16_fixedp/bv16/decoder.c:90-146 | Gain decoding and level estimation in the order of the decoder, with its frame counters |
| MathUtil.NormBound | voipcodec/src/main/jni/bx16_fixedp/bvcommon/mathutil.c:71-106 | The normalising shift of a positive word is at most 30 |
| Powers.PowRange | voipcodec/src/main/jni/bx16_fixedp/bvcommon/mathutil.c:41-60 | The power lies between the powers of two of its whole part and the next, rounded and cut to a word |
| Powers.PowOfWhole | voipcodec/src/main/jni/bx16_fixedp/bvcommon/mathutil.c:41-60 | A power without fraction is exact |
| Powers.PowRises | voipcodec/src/main/jni/bx16_fixedp/bvcommon/mathutil.c:41-60 | The power does not fall as its argument grows |
| Powers.MantissaSteps | voipcodec/src/main/jni/bx16_fixedp/bvcommon/mathutil.c:41-60 | From one fraction to the next the interpolated value takes only small steps, across table entries too |
| Logarithms.LogRange | voipcodec/src/main/jni/bx16_fixedp/bvcommon/mathutil.c:71-101 | The whole part of the logarithm is the place of the leading bit, and a power of two has no fraction |
| Logarithms.LogRises | voipcodec/src/main/jni/bx16_fixedp/bvcommon/mathutil.c:71-101 | The logarithm does not fall as its argument grows |
| Logarithms.FractionSteps | voipcodec/src/main/jni/bx16_fixedp/bvcommon/mathutil.c:71-101 | A small change of the argument changes the fraction by little, across table entries too |
| DoublePrecision.ExtractComposes | voipcodec/src/main/jni/bx16_fixedp/itug729ilib/oper_32b.c:46-80 | Extraction is canonical and composing it again clears only the lowest bit |
| DoublePrecision.ComposeExtracts | voipcodec/src/main/jni/bx16_fixedp/itug729ilib/oper_32b.c:46-80 | A canonical pair comes back from the word it composes |
| DoublePrecision.Mpy3216Error | voipcodec/src/main/jni/bx16_fixedp/itug729ilib/oper_32b.c:132-140 | The exact product of a pair and a word exceeds the result by at least 0 and less than 2 |
| DoublePrecision.Mpy32Error | voipcodec/src/main/jni/bx16_fixedp/itug729ilib/oper_32b.c:102-111 | The exact product of two pairs exceeds the result by at least 0 and less than 6 |
| DoublePrecision.NewtonStep | voipcodec/src/main/jni/bx16_fixedp/itug729ilib/oper_32b.c:187-217 | The value the Newton step computes in words is within rounding of the exact step |
| DoublePrecision.ReciprocalError | voipcodec/src/main/jni/bx16_fixedp/itug729ilib/oper_32b.c:187-217 | For every normalised denominator the reciprocal errs by the square of the error of the seed, up to rounding |
| DoublePrecision.Div32Error | voipcodec/src/main/jni/bx16_fixedp/itug729ilib/oper_32b.c:187-217 | For every normalised denominator and smaller positive numerator the Q31 quotient is less than 78 too small and less than 4 too large |
| PulseEnergy.EnergyAppend | voipcodec/src/main/jni/bcg729/src/fixedCodebookSearch.c:119-202 | Adding a pulse to a filtered vector adds its own energy and twice its correlation with the others |
| PulseEnergy.InnerBounds | voipcodec/src/main/jni/bcg729/src/fixedCodebookSearch.c:378-398 | Every correlation of two shifted responses is bounded by the energy of the response |
| PulseEnergy.KeptRefinesEnergy | voipcodec/src/main/jni/bcg729/src/fixedCodebookSearch.c:316-336 | For any scaling and any pulses the kept energy differs from the energy of the filtered vector by a bounded amount; without scaling twice the kept energy is never above it and at most one unit per pulse below |
| PulseEnergy.EnergyIsPositive | voipcodec/src/main/jni/bcg729/src/fixedCodebookSearch.c:119-202 | Distinct pulses always leave some energy, so the search compares quotients of positive energies |
| PulseMatrix.EntryRange | voipcodec/src/main/jni/bcg729/src/fixedCodebookSearch.c:323-336 | Every scaled entry, and twice every diagonal entry, stays below the limit that makes all partial energies fit 32 bits |
| PulseMatrix.ScalingIsLeast | voipcodec/src/main/jni/bcg729/src/fixedCodebookSearch.c:323-325 | The scaling brings twice the largest entry, with its margin, below 2^28, and is the least that does |
| PulseMatrix.DiagonalRange | voipcodec/src/main/jni/bcg729/src/fixedCodebookSearch.c:316-321 | The accumulated main diagonal fits 32 bits |
| PulseMatrix.ComputePhiDiagonal | voipcodec/src/main/jni/bcg729/src/fixedCodebookSearch.c:380-398 | The recursion along one diagonal computes the scaled correlations of its definition |
| PulseMatrix.FillMainDiagonal | voipcodec/src/main/jni/bcg729/src/fixedCodebookSearch.c:316-321 | The running sum is half the energy of the shifted response |
| PulseMatrix.ScaleMainDiagonal | voipcodec/src/main/jni/bcg729/src/fixedCodebookSearch.c:323-329 | The scaling is the one the largest entry needs, and is applied to the whole diagonal |
| PulseMatrix.FillDiagonals | voipcodec/src/main/jni/bcg729/src/fixedCodebookSearch.c:331-336 | Every entry the search reads has been computed |
| PulseMatrix.TakeSigns | voipcodec/src/main/jni/bcg729/src/fixedCodebookSearch.c:338-348 | Signs and magnitudes of the correlation signal |
| PulseMatrix.ApplySigns | voipcodec/src/main/jni/bcg729/src/fixedCodebookSearch.c:350-363 | Every entry is multiplied by the two signs |
| PulseMatrix.Duplicate | voipcodec/src/main/jni/bcg729/src/fixedCodebookSearch.c:365-374 | The matrix becomes symmetric where it was computed |
| PulseMatrix.ComputeMatrix | voipcodec/src/main/jni/bcg729/src/fixedCodebookSearch.c:309-376 | The filled matrix is the signed, scaled correlation matrix at every entry the search reads |
| PulseSearch.KeptIsPositive | voipcodec/src/main/jni/bcg729/src/fixedCodebookSearch.c:119-202 | The energy kept for distinct pulses is positive |
| PulseSearch.NotBetterTransitive | voipcodec/src/main/jni/bcg729/src/fixedCodebookSearch.c:148-155 | The cross-multiplied comparison of qualities is transitive |
| PulseSearch.LargestOnTrack | voipcodec/src/main/jni/bcg729/src/fixedCodebookSearch.c:130-139 | The first largest magnitude on a track, one position left out |
| PulseSearch.ThirdTrack | voipcodec/src/main/jni/bcg729/src/fixedCodebookSearch.c:141-156 | The best partner on the second track, whatever was best before |
| PulseSearch.PairSearch | voipcodec/src/main/jni/bcg729/src/fixedCodebookSearch.c:121-158 | The pair is at least as good as all pairs of the two largest with any partner |
| PulseSearch.LastTrack | voipcodec/src/main/jni/bcg729/src/fixedCodebookSearch.c:165-178 | The best fourth pulse for one third pulse |
| PulseSearch.RestSearch | voipcodec/src/main/jni/bcg729/src/fixedCodebookSearch.c:160-179 | The last two pulses are at least as good as all 64 combinations |
| PulseSearch.SearchConfiguration | voipcodec/src/main/jni/bcg729/src/fixedCodebookSearch.c:121-179 | One configuration on its own: its pair beats all partners of the two largest, its completion all 64 others |
| PulseSearch.TryConfiguration | voipcodec/src/main/jni/bcg729/src/fixedCodebookSearch.c:120-200 | One configuration of tracks leaves the better of its result and the best before: its pair beats all partners of the two largest, and no completion of the pair beats the best |
| PulseSearch.Search | voipcodec/src/main/jni/bcg729/src/fixedCodebookSearch.c:109-202 | In each of the four configurations the pair beats all partners of the two largest, and the selected pulses are no worse than any completion of it; quality and energy stored beside them are their own |
| PulseSearch.SelectedRefinesEnergy | voipcodec/src/main/jni/bcg729/src/fixedCodebookSearch.c:119-202 | The energy kept for the selected pulses refines the energy of the filtered four-pulse vector; without scaling twice it is at most 4 below and never above |
| PulseSearch.LargestBounds | voipcodec/src/main/jni/bcg729/src/fixedCodebookSearch.c:95-100 | The largest magnitude bounds every value of the correlation and is the magnitude of one |
| PulseSearch.ShiftIsLeast | voipcodec/src/main/jni/bcg729/src/fixedCodebookSearch.c:95-105 | A largest magnitude above 13 bits is shifted until it just fits them |
| PulseSearch.NormaliseSignal | voipcodec/src/main/jni/bcg729/src/fixedCodebookSearch.c:95-105 | Every value of the signal is the correlation shifted by what its largest magnitude needs, and fits 13 bits |
| PulseSearch.SelectPulses | voipcodec/src/main/jni/bcg729/src/fixedCodebookSearch.c:95-202 | From the correlation to the selected pulses: signs and magnitudes are those of the shifted correlation, with the promises of the search |
| Sorting.SortIsSorted | voipcodec/src/main/jni/bcg729/src/utils.c:33-51 | Insertion sort gives an ascending permutation |
| Sorting.AscendingIsUnique | voipcodec/src/main/jni/bcg729/src/utils.c:33-51 | An ascending permutation is unique, so any sorting loop computes the same |
| Sorting.InsertAt | voipcodec/src/main/jni/bcg729/src/utils.c:38-47 | The inner loop puts an element at its place among the sorted ones |
| Sorting.InsertionSort | voipcodec/src/main/jni/bcg729/src/utils.c:33-51 | The array ends up sorted in place |
| LspLockstep.OrdersAgree | voipcodec/src/main/jni/bcg729/src/decodeLSP.c:79-83 | Adding the predictor taps from the newest row or from the oldest gives the same |
| LspLockstep.AccumulatorFits | voipcodec/src/main/jni/bcg729/src/LSPQuantization.c:425-429 | Neither accumulator leaves 32 bits, whatever the memory holds |
| LspLockstep.LimitsAgree | voipcodec/src/main/jni/bcg729/src/LSPQuantization.c:443-458 | The lower limit on index 1 and on index 0 give the same vector if and only if the first sorted value is not below the limit |
| LspLockstep.LimitsDiffer | voipcodec/src/main/jni/bcg729/src/decodeLSP.c:95-98 | A sorted vector on which the two limits differ |
| LspLockstep.SpacingHolds | voipcodec/src/main/jni/bcg729/src/decodeLSP.c:100-105 | The spacing loop leaves the minimum distance everywhere if and only if every value leaves room in a word for the distances behind it |
| LspLockstep.OutputsAgree | voipcodec/src/main/jni/bcg729/src/LSPQuantization.c:439-458 | The LSF vectors of a frame are equal on both sides if and only if its least LSF is not below the limit |
| LspLockstep.DisagreementIsReachable | voipcodec/src/main/jni/bcg729/src/LSPQuantization.c:412-458 | Five frames with one codeword that starts below zero end in different LSF vectors |
| LspLockstep.ShippedCodeword | voipcodec/src/main/jni/bcg729/src/codebooks.c:24-183 | Rows 32 and 25 of the shipped codebooks give a codeword that starts at -917 and is not rearranged |
| LspLockstep.ShippedBooksDisagree | voipcodec/src/main/jni/bcg729/src/codebooks.c:24-183 | With the shipped codebooks five frames of these rows end in different LSF vectors on the two sides |
| LspLockstep.Rearrange | voipcodec/src/main/jni/bcg729/src/utils.c:102-116 | The rearrangement loop |
| LspLockstep.BuildCodeword | voipcodec/src/main/jni/bcg729/src/LSPQuantization.c:412-422 | The codeword from the codebooks, rearranged twice |
| LspRearrange.StepApart | voipcodec/src/main/jni/bcg729/src/utils.c:102-116 | A step leaves its pair the wanted distance apart, up to one, keeps the sum of the two and all other values, and changes nothing when they are apart already |
| LspRearrange.OnePass | voipcodec/src/main/jni/bcg729/src/utils.c:102-116 | A pass keeps the sum of the vector, moves weight only to the right, leaves the last pair apart, and changes nothing if and only if all neighbours are apart already |
| LspRearrange.CodewordRearranged | voipcodec/src/main/jni/bcg729/src/LSPQuantization.c:412-422 | The codeword has the sum of the codebook entries, no prefix sum above theirs, its last pair apart, and is their sum unchanged if and only if all neighbours are apart |
| LspRearrange.ShippedPairParts | voipcodec/src/main/jni/bcg729/src/codebooks.c:24-183 | A codeword of the shipped codebooks whose last two values are crossed, and how the rearrangement leaves them |
| LspLockstep.Stabilise | voipcodec/src/main/jni/bcg729/src/LSPQuantization.c:439-458 | Lower limit, spacing and upper limit on the sorted vector, for the index that side tests |
| LspSpacing.StableIsLeast | voipcodec/src/main/jni/bcg729/src/decodeLSP.c:95-110 | With room for the distances the result lies below every vector that reaches the sorted input and the lower limit and keeps the distances, and is one of these but for its last value, which is cut to the upper limit |
| LspLockstep.PredictRising | voipcodec/src/main/jni/bcg729/src/LSPQuantization.c:424-432 | The encoder's prediction |
| LspLockstep.ShiftRows | voipcodec/src/main/jni/bcg729/src/LSPQuantization.c:434-438 | The encoder's row copies are a push on the memory |
| LspLockstep.PredictColumn | voipcodec/src/main/jni/bcg729/src/decodeLSP.c:79-83 | One column of the decoder: its taps, and its shift inside the same loop |
| LspLockstep.PredictFalling | voipcodec/src/main/jni/bcg729/src/decodeLSP.c:78-86 | The decoder's loop computes the same LSF and the same push on the memory |
| LspPrediction.MemoryIsPast | voipcodec/src/main/jni/bcg729/src/LSPQuantization.c:434-438 | After any run the memory holds the last four codewords, the newest first |
| LspPrediction.RunIsMovingAverage | voipcodec/src/main/jni/bcg729/src/LSPQuantization.c:424-438 | Over any run each LSF before sorting and limits is the weighted sum of the codewords of its own frame and the four before it |
| LspPrediction.SteadyState | voipcodec/src/main/jni/bcg729/src/LSPQuantization.c:424-432 | A codeword that is repeated is predicted to within three |
| LspLockstep.Encoder.Quantise | voipcodec/src/main/jni/bcg729/src/LSPQuantization.c:412-458 | The encoder after its search: memory and LSF |
| LspLockstep.Decoder.Decode | voipcodec/src/main/jni/bcg729/src/decodeLSP.c:123-151 | The decoder on a frame that arrived: memory, LSF and their backup |
| LspLockstep.LossFreeRun | voipcodec/src/main/jni/bcg729/src/decodeLSP.c:62-151 | Over every loss-free run of active frames the two memories are equal, and each LSF vector is equal exactly when its least LSF was not below the limit |
| LspPolynomials.Palindrome | voipcodec/src/main/jni/bcg729/src/qLSP2LP.c:70-94 | Every product of factors 1 - 2qz + z^2 is a palindrome |
| LspPolynomials.CoefficientsOfProduct | voipcodec/src/main/jni/bcg729/src/qLSP2LP.c:70-94 | The coefficients, summed with powers of z, are the product of the factors, for every z |
| LspPolynomials.LpPolynomial | voipcodec/src/main/jni/bcg729/src/qLSP2LP.c:34-60 | The predictor coefficients are those of ((1 + z) F1 + (1 - z) F2) / 2, for every z |
| LspPolynomials.MiddleCoefficient | voipcodec/src/main/jni/bcg729/src/qLSP2LP.c:84-85 | The middle coefficient needs only the lower half of the previous product |
| LspPolynomials.ExtendHalf | voipcodec/src/main/jni/bcg729/src/qLSP2LP.c:83-92 | The descending loop multiplies the lower half by one more factor in place |
| LspPolynomials.ComputePolynomialCoefficients | voipcodec/src/main/jni/bcg729/src/qLSP2LP.c:70-94 | The half-length expansion gives the lower half of the product |
| LspPolynomials.FoldHalves | voipcodec/src/main/jni/bcg729/src/qLSP2LP.c:45-49 | The descending fold reads only values it has not yet changed |
| LspPolynomials.QLsp2Lp | voipcodec/src/main/jni/bcg729/src/qLSP2LP.c:34-60 | All predictor coefficients from the lower halves alone |
| LspPolynomials.ExtendFull | voipcodec/src/main/jni/bx16_fixedp/bvcommon/lsp2a.c:83-90 | The descending loop multiplies the whole product by one more factor in place |
| LspPolynomials.GetPqPolynomials | voipcodec/src/main/jni/bx16_fixedp/bvcommon/lsp2a.c:61-94 | The full-length expansion gives the whole product |
| LspPolynomials.Lsp2a | voipcodec/src/main/jni/bx16_fixedp/bvcommon/lsp2a.c:37-58 | All predictor coefficients from the full products |
| LspPolynomials.HalfEqualsFull | voipcodec/src/main/jni/bx16_fixedp/bvcommon/lsp2a.c:37-94 | The two codecs get the same predictor from the same cosines, the one the products of the factors define |
| StabilizeLsp.SwapRemovesOne | voipcodec/src/main/jni/bx16_fixedp/bvcommon/stblzlsp.c:47-57 | Swapping two neighbours out of order removes exactly one inversion |
| StabilizeLsp.OrderPass | voipcodec/src/main/jni/bx16_fixedp/bvcommon/stblzlsp.c:48-56 | A pass that repeats has removed an inversion; one that does not leaves a sorted array |
| StabilizeLsp.Order | voipcodec/src/main/jni/bx16_fixedp/bvcommon/stblzlsp.c:46-57 | The passes terminate in the sorted array |
| StabilizeLsp.StabilizedIsWellSpaced | voipcodec/src/main/jni/bx16_fixedp/bvcommon/stblzlsp.c:60-80 | For any input and any order that fits, all values lie between the limits and keep the spacing |
| StabilizeLsp.WellSpacedIsKept | voipcodec/src/main/jni/bx16_fixedp/bvcommon/stblzlsp.c:32-81 | An input that is well spaced comes back unchanged |
| StabilizeLsp.StabilizedTwice | voipcodec/src/main/jni/bx16_fixedp/bvcommon/stblzlsp.c:32-81 | Stabilising twice is stabilising once |
| StabilizeLsp.OrderIsIrrelevant | voipcodec/src/main/jni/bx16_fixedp/bvcommon/stblzlsp.c:46-57 | The result does not depend on the order of the input |
| StabilizeLsp.StabilizedIsLeast | voipcodec/src/main/jni/bx16_fixedp/bvcommon/stblzlsp.c:46-80 | The result is the least of all well-spaced vectors that reach the sorted input, or as much of it as there is room for, and the only one of these below all others |
| StabilizeLsp.Space | voipcodec/src/main/jni/bx16_fixedp/bvcommon/stblzlsp.c:60-80 | The spacing loop gives each element the closest value allowed behind its predecessor |
| StabilizeLsp.StblzLsp | voipcodec/src/main/jni/bx16_fixedp/bvcommon/stblzlsp.c:32-81 | stblz_lsp in place |
| StabilizeLsp.Stblchck | voipcodec/src/main/jni/bx16_fixedp/bvcommon/stblzlsp.c:83-98 | The check accepts exactly vectors with a non-negative start and no reversal |
| Bv16Lsp.FoldUnfold | voipcodec/src/main/jni/bx16_fixedp/bv16/lspquan.c:271 | Folding a codevector and a sign into one index loses neither, and uses every index once |
| Bv16Lsp.ErrorsAgree | voipcodec/src/main/jni/bx16_fixedp/bv16/lspdec.c:63-79 | Adding the negated codevector and subtracting the codevector give the same error |
| Bv16Lsp.SumsAgree | voipcodec/src/main/jni/bx16_fixedp/bv16/lspdec.c:81-102 | The two orders of addition give the same vector if and only if in every coordinate no inner sum saturates, or the value added last pushes further in the direction of the saturation |
| Bv16Lsp.SumsAgreeAt | voipcodec/src/main/jni/bx16_fixedp/bv16/lspdec.c:81-102 | The same for one coordinate |
| Bv16Lsp.FrontPlusCarry | voipcodec/src/main/jni/bx16_fixedp/bv16/lspquan.c:216-254 | The front the decoder checks is the front the encoder tested plus a carry, which the lower two bits of the two codevectors and the sign decide |
| Bv16Lsp.AcceptsExactly | voipcodec/src/main/jni/bx16_fixedp/bv16/lspdec.c:81-88 | The decoder accepts a frame if and only if the front the encoder tested is non-negative and ordered after the carries |
| Bv16Lsp.MarginIsEnough | voipcodec/src/main/jni/bx16_fixedp/bv16/lspdec.c:81-88 | A front that passes the encoder test with a margin of one passes the decoder check |
| Bv16Lsp.Predict | voipcodec/src/main/jni/bx16_fixedp/bv16/lspquan.c:86-97 | The moving-average prediction |
| Bv16Lsp.UpdateMemory | voipcodec/src/main/jni/bx16_fixedp/bv16/lspquan.c:124-134 | The pointer walk shifts every group of the memory and takes in the newest error |
| Bv16Lsp.VqMse | voipcodec/src/main/jni/bx16_fixedp/bv16/lspquan.c:147-180 | The first nearest codevector; the index is left alone when every error saturates |
| Bv16Lsp.WeightsRank | voipcodec/src/main/jni/bx16_fixedp/bv16/lspquan.c:67-84 | The weights lie between 0 and 16383, a value closer to its neighbour never weighs less, and a value beside the narrowest gap has the full weight |
| Bv16Lsp.Weights | voipcodec/src/main/jni/bx16_fixedp/bv16/lspquan.c:67-84 | The loops over differences and fractional divisions give the weights |
| Bv16Lsp.WeightIs | voipcodec/src/main/jni/bx16_fixedp/bv16/lspquan.c:76-84 | A weight is the quotient of the narrowest gap and the gap to the closer neighbour, in Q14 |
| Bv16Lsp.Try | voipcodec/src/main/jni/bx16_fixedp/bv16/lspquan.c:205-231 | One try of one sign |
| Bv16Lsp.SvqWmse | voipcodec/src/main/jni/bx16_fixedp/bv16/lspquan.c:183-272 | The best signed codevector among those that keep the front stable; index 0 with a plus when there is none |
| Bv16Lsp.Prepare | voipcodec/src/main/jni/bx16_fixedp/bv16/lspquan.c:99-116 | Target, first stage and residual |
| Bv16Lsp.Lspquan | voipcodec/src/main/jni/bx16_fixedp/bv16/lspquan.c:67-143 | The encoder: both indices are best in their stage under the weights of the vector, memory and LSP follow from them |
| Bv16LspTarget.TargetRebuilds | voipcodec/src/main/jni/bx16_fixedp/bv16/lspquan.c:99-103 | The target of the search is four times the error that rebuilds the LSP vector |
| Bv16LspTarget.ErrorIsDistance | voipcodec/src/main/jni/bx16_fixedp/bv16/lspquan.c:147-180 | The error of the first search is sixteen times the squared distance of the LSP vector from what a codevector rebuilds |
| Bv16LspTarget.FirstRebuildsBest | voipcodec/src/main/jni/bx16_fixedp/bv16/lspquan.c:99-106 | The first index stands for the codevector that rebuilds the LSP vector best |
| Bv16LspTarget.ErrorIsMiss | voipcodec/src/main/jni/bx16_fixedp/bv16/lspquan.c:183-230 | The error of the second search is the weighted square of what both codevectors miss of the LSP vector, up to the rounding of its terms |
| Bv16LspTarget.SecondRebuildsBest | voipcodec/src/main/jni/bx16_fixedp/bv16/lspquan.c:108-119 | The second index stands for the signed codevector that, on top of the first, misses the LSP vector least under the weights |
| Bv16LspTarget.ReplacementRebuilds | voipcodec/src/main/jni/bx16_fixedp/bv16/lspdec.c:89-99 | The error that replaces a rejected one is the one whose sum is the last vector |
| Bv16LspPast.MemoryIsPast | voipcodec/src/main/jni/bx16_fixedp/bv16/lspquan.c:124-134 | After any run each group of the memory holds the last eight errors of its coordinate, the newest first |
| Bv16LspPast.RunIsMovingAverage | voipcodec/src/main/jni/bx16_fixedp/bv16/lspquan.c:86-97 | Over any run the prediction is the weighted sum of the errors of the eight frames before, to the nearest word |
| Bv16Lsp.DecodeError | voipcodec/src/main/jni/bx16_fixedp/bv16/lspdec.c:60-79 | The decoder's prediction error |
| Bv16Lsp.CheckAndFinish | voipcodec/src/main/jni/bx16_fixedp/bv16/lspdec.c:81-102 | The ordering check, and the replacement when it fails |
| Bv16Lsp.Lspdec | voipcodec/src/main/jni/bx16_fixedp/bv16/lspdec.c:47-117 | The decoder: memory and LSP, with the replacement of a rejected frame |
| Bv16Lsp.UpdatedIsInjective | voipcodec/src/main/jni/bx16_fixedp/bv16/lspdec.c:104-114 | Different errors leave different memories |
| Bv16Lsp.FrameInStep | voipcodec/src/main/jni/bx16_fixedp/bv16/lspdec.c:60-117 | From equal memories a frame leaves equal memories if and only if the decoder accepts it or replaces it by the same error; the sums behind the LSP of an accepted frame are equal if and only if the order of the additions does not matter |
| Bv16Lsp.RunInStep | voipcodec/src/main/jni/bx16_fixedp/bv16/lspdec.c:47-117 | For every sequence of index pairs of which the decoder accepts each, the memory of the encoder is the memory of the decoder |
| Bv16Lsp.LspInStep | voipcodec/src/main/jni/bx16_fixedp/bv16/lspdec.c:81-117 | After such a run the sums of a further accepted frame agree if and only if the order of its additions does not matter, and then so do the LSP |
| Bv16Lsp.VectorsInStep | voipcodec/src/main/jni/bx16_fixedp/bv16/lspdec.c:81-117 | The same for the vectors a run of the two loops has produced, frame by frame |
| Bv16Lsp.BothSides | voipcodec/src/main/jni/bx16_fixedp/bv16/lspdec.c:47-117 | One frame through both sides: indices of the search, both memories, both LSP vectors and the verdict of the decoder, each as specified |
| Bv16Lsp.LossFreeRun | voipcodec/src/main/jni/bx16_fixedp/bv16/lspdec.c:47-117 | A run of any LSP vectors through both sides: indices, vectors and verdicts are those of the specification in every frame, all verdicts are good if and only if every frame of the specification is accepted, and then the memories are equal |
| Bv16LspInstances.StableButRejected | voipcodec/src/main/jni/bx16_fixedp/bv16/tables.c:62-272 | With the shipped tables, after one accepted frame a pair of indices passes the test of the encoder and is rejected by the decoder |
| Bv16LspInstances.SaturationIsReachable | voipcodec/src/main/jni/bx16_fixedp/bv16/tables.c:62-272 | With the shipped tables, after eight accepted frames an accepted frame saturates in the encoder only, and the last LSP differs |
| Bv16LspInstances.RepeatedMemory | voipcodec/src/main/jni/bx16_fixedp/bv16/lspdec.c:104-114 | After the same frame n times the newest n places of every group hold its error |
| Bv16LspInstances.ShippedIsPossible | voipcodec/src/main/jni/bx16_fixedp/bv16/tables.c:62-272 | Tables with the rows the two instances use exist |
| Bv16Bits.RoundTrip | voipcodec/src/main/jni/bx16_fixedp/bv16/bitpack.c:66-216 | Every frame whose indices fit their widths survives its ten bytes |
| Bv16Bits.PackIsSideBySide | voipcodec/src/main/jni/bx16_fixedp/bv16/bitpack.c:66-133 | The ten bytes are the indices side by side, in their order and widths, most significant bit first |
| Plc.AttenuationIs | voipcodec/src/main/jni/bx16_fixedp/bv16/plc.c:157-159 | The attenuation gain is computed without saturation, lies between 1 and 32113, and is 1 at the last count |
| Plc.AttenuationFalls | voipcodec/src/main/jni/bx16_fixedp/bv16/plc.c:157-159 | The gain never rises with the number of lost frames |
| Plc.LostShrinks | voipcodec/src/main/jni/bx16_fixedp/bv16/plc.c:155-166 | One lost frame makes neither the energy nor the magnitude of a tap larger |
| Plc.LostIs | voipcodec/src/main/jni/bx16_fixedp/bv16/plc.c:155-166 | From the eighth lost frame on the taps are scaled by the gain and the energy by its square, floored |
| Plc.CountAfter | voipcodec/src/main/jni/bx16_fixedp/bv16/plc.c:66-68 | The counter counts lost frames and stops at 57 |
| Plc.NeverGrows | voipcodec/src/main/jni/bx16_fixedp/bv16/plc.c:155-166 | Over any run of lost frames neither the energy nor the magnitude of a tap ever grows |
| Plc.Silence | voipcodec/src/main/jni/bx16_fixedp/bv16/plc.c:155-166 | Once the counter has stopped no energy is left, and every tap is 0 or -1 |
| Plc.ScalingDivides | voipcodec/src/main/jni/bx16_fixedp/bv16/plc.c:94-100 | The fractional division of the scaling always has a numerator below its denominator, whatever the energy, zero included |
| PlcNoise.NeverThreeQuiet | voipcodec/src/main/jni/bx16_fixedp/bv16/plc.c:75-80 | Of any three samples in a row from the generator at least one counts in the energy |
| PlcNoise.TwoQuiet | voipcodec/src/main/jni/bx16_fixedp/bv16/plc.c:75-80 | A seed after which two samples in a row do not count |
| PlcNoise.NeverSilent | voipcodec/src/main/jni/bx16_fixedp/bv16/plc.c:74-80 | From any seed three or more samples have some energy |
| PlcNoise.Excite | voipcodec/src/main/jni/bx16_fixedp/bv16/plc.c:74-80 | The loop that draws the excitation: samples, their energy, which is positive, and the next seed |
| PlcNoise.ScalingAlwaysDivides | voipcodec/src/main/jni/bx16_fixedp/bv16/plc.c:74-100 | After any run of losses and from any seed the division of the scaling is legal |
| Plc.Decoder.Receive | voipcodec/src/main/jni/bx16_fixedp/bv16/decoder.c:90-99 | The counters of a frame that arrives |
| Plc.Decoder.Lose | voipcodec/src/main/jni/bx16_fixedp/bv16/plc.c:66-166 | The counters and the attenuation of a lost frame |
| ComfortNoise.SeedsNeverMeet | voipcodec/src/main/jni/bcg729/src/utils.c:377-383 | Seeds that differ stay different however often both sides draw |
| ComfortNoise.DrawPulses | voipcodec/src/main/jni/bcg729/src/cng.c:80-107 | Three draws give delay, fraction, four positions, four signs and gain, each from its bits, and all such that the delay is one the adaptive codebook takes, the pulses lie on their tracks and the gain is below a half |
| ComfortNoise.ComfortNoise | voipcodec/src/main/jni/bcg729/src/cng.c:58-120 | A noise frame draws a fixed number of times, whatever the signal |
| ComfortNoise.EnergyIndexFits | voipcodec/src/main/jni/bcg729/src/dtx.c:106-143 | The energy index fits five bits, grows with the energy and determines the decoded energy |
| ComfortNoise.GainIndexSurvives | voipcodec/src/main/jni/bcg729/src/dtx.c:424-430 | The gain index survives the two bytes of a SID frame |
| ComfortNoise.FrameInStep | voipcodec/src/main/jni/bcg729/src/cng.c:320-361 | A frame keeps seeds, gains and the frame history of both sides equal |
| ComfortNoise.RunInStep | voipcodec/src/main/jni/bcg729/src/dtx.c:281-410 | For every sequence of voice decisions without loss seeds and smoothed SID gains of both sides stay equal |
| ComfortNoise.BurstOpensWithSid | voipcodec/src/main/jni/bcg729/src/dtx.c:296-300 | Every burst of noise opens with a SID frame |
| ComfortNoise.NeverMistaken | voipcodec/src/main/jni/bcg729/src/decoder.c:157-164 | The decoder never takes an untransmitted frame for a lost voice frame |
| ComfortNoise.CountsFrames | voipcodec/src/main/jni/bcg729/src/dtx.c:326-348 | Between SID frames the counter does not run ahead of the frames |
| ComfortNoise.SidFramesApart | voipcodec/src/main/jni/bcg729/src/dtx.c:326-348 | Two SID frames of one burst are at least three frames apart |
| ComfortNoise.SidExactly | voipcodec/src/main/jni/bcg729/src/dtx.c:296-348 | After a SID frame the next one comes if and only if three frames have passed and the filter has changed or the decoded energy has moved by more than 2 |
| ComfortNoise.SmoothIs | voipcodec/src/main/jni/bcg729/src/cng.c:350-358 | The smoothed gain is seven eighths of the old one and one eighth of the target, to within one, and a target that stays is a fixed point |
| ComfortNoise.DtxContext.EncodeSIDFrame | voipcodec/src/main/jni/bcg729/src/dtx.c:263-435 | The encoder context after a frame, and what it sends |
| ComfortNoise.CngContext.DecodeFrame | voipcodec/src/main/jni/bcg729/src/decoder.c:157-208 | The frame control of the decoder |
| ComfortNoise.CngContext.DecodeSIDFrame | voipcodec/src/main/jni/bcg729/src/cng.c:242-362 | Received gain, smoothed gain and seed after a noise frame |
| ComfortNoise.Run | voipcodec/src/main/jni/bcg729/src/decoder.c:157-208 | A run through both contexts ends in equal seeds and gains |
| SidFrames.RoundTrip | voipcodec/src/main/jni/bcg729/src/utils.c:330-337 | The packer of utils.c loses nothing |
| SidFrames.PackIsSideBySide | voipcodec/src/main/jni/bcg729/src/utils.c:330-337 | The two bytes are the four fields side by side, and a zero |
| SidFrames.InlineRoundTrip | voipcodec/src/main/jni/bcg729/src/dtx.c:424-430 | The packer inside encodeSIDFrame loses nothing if and only if the second-stage index is below 12; the other fields always survive |
| SidFrames.PackersAgree | voipcodec/src/main/jni/bcg729/src/dtx.c:424-430 | The two packers agree exactly where the inline one is right |
| SidFrames.InlinePackerLosesTwelve | voipcodec/src/main/jni/bcg729/src/dtx.c:428 | An index that does not come back |
| FrameBits.UnpackPack | voipcodec/src/main/jni/bcg729/src/utils.c:280-367 | Every parameter comes back from the 80 bits modulo its width |
| FrameBits.PackUnpack | voipcodec/src/main/jni/bcg729/src/utils.c:280-367 | Every ten bytes are the packing of what they unpack to |
| FrameBits.RoundTrip | voipcodec/src/main/jni/bcg729/src/utils.c:280-367 | Parameters that fit their widths survive |
| FrameBits.PackIsSideBySide | voipcodec/src/main/jni/bcg729/src/utils.c:280-330 | The ten bytes are the parameters side by side, in their order and widths, most significant bit first |
| FrameBits.ComputeParity | voipcodec/src/main/jni/bcg729/src/utils.c:79-91 | The loop computes the parity of the six upper bits |
| FrameBits.ParityDetects | voipcodec/src/main/jni/bcg729/src/utils.c:79-91 | A single wrong bit of the pitch index is noticed if and only if it is one of the upper six |
| IndexCoding.RangesInside | voipcodec/src/main/jni/bcg729/src/encoder.c:277-285 | The search ranges of both subframes stay among the delays the indices express |
| IndexCoding.FirstRoundTrip | voipcodec/src/main/jni/bcg729/src/decodeAdaptativeCodeVector.c:114-122 | Every delay of the first subframe survives its eight bits |
| IndexCoding.SecondRoundTrip | voipcodec/src/main/jni/bcg729/src/decodeAdaptativeCodeVector.c:135-147 | Every delay of the second subframe survives its five bits |
| IndexCoding.FirstIndices | voipcodec/src/main/jni/bcg729/src/decodeAdaptativeCodeVector.c:114-122 | Of the 256 indices exactly 0 and 196 stand for no delay the encoder chooses; all others come back |
| IndexCoding.SecondIndices | voipcodec/src/main/jni/bcg729/src/decodeAdaptativeCodeVector.c:135-147 | Of the 32 indices exactly 0 and 31 stand for no delay the encoder chooses; all others come back |
| IndexCoding.FirstOrder | voipcodec/src/main/jni/bcg729/src/adaptativeCodebookSearch.c:124-146 | The codewords of the first subframe number the delays in their order |
| IndexCoding.SecondOrder | voipcodec/src/main/jni/bcg729/src/adaptativeCodebookSearch.c:124-146 | The codewords of the second subframe number the thirds of its range in their order |
| IndexCoding.RangesAreNearest | voipcodec/src/main/jni/bcg729/src/encoder.c:277-285 | Each search range is, among those allowed, the one whose middle is nearest to the delay it is built around |
| IndexCoding.CodeDelay | voipcodec/src/main/jni/bcg729/src/adaptativeCodebookSearch.c:124-146 | The codeword and the range of the second subframe |
| IndexCoding.PitchDecoder.DecodeDelay | voipcodec/src/main/jni/bcg729/src/decodeAdaptativeCodeVector.c:106-152 | The decoded delay, or the repeated one when the index cannot be trusted |
| IndexCoding.PulsesRoundTrip | voipcodec/src/main/jni/bcg729/src/fixedCodebookSearch.c:220-229 | Every choice of one pulse a track survives its seventeen bits |
| FixedVector.VectorsAgree | voipcodec/src/main/jni/bcg729/src/decodeFixedCodeVector.c:66-71 | The fixed codebook vectors of both sides are equal if and only if every repeated pulse has the same echo under the two gains; always from a delay of 40 on |
| FixedVector.OddGainsDiffer | voipcodec/src/main/jni/bcg729/src/fixedCodebookSearch.c:215-218 | With one odd gain and a repeated pulse the vectors differ, because one side truncates and the other rounds |
| FixedVector.OpeningPulses | voipcodec/src/main/jni/bcg729/src/decodeFixedCodeVector.c:41-64 | Position bits 0 are the first four samples, and a sign bit of 1 is a positive pulse |
| FixedVector.EncoderVector | voipcodec/src/main/jni/bcg729/src/fixedCodebookSearch.c:204-218 | The encoder's vector in place |
| FixedVector.DecodeFixedCodeVector | voipcodec/src/main/jni/bcg729/src/decodeFixedCodeVector.c:34-72 | The decoder's vector in place |
| FixedVector.DecodedOnTracks | voipcodec/src/main/jni/bcg729/src/decodeFixedCodeVector.c:41-50 | Any seventeen bits decode to one pulse a track |
| FrameRoundTrip.FrameSurvives | voipcodec/src/main/jni/bcg729/src/decoder.c:227-255 | Every delay pair and pulse choice crosses the 80 bits with equal delays, equal signed pulses and no parity error |
| FrameRoundTrip.VectorsSurvive | voipcodec/src/main/jni/bcg729/src/decodeFixedCodeVector.c:34-72 | With delays of 40 and more both sides build the same vectors, whatever their gains |
| BitStream.ValueOfBits | voipcodec/src/main/jni/speex-1.2rc1/libspeex/bits.c:109-145 | Reading back the bits of a number gives it modulo the width |
| BitStream.DecodeEncode | voipcodec/src/main/jni/speex-1.2rc1/libspeex/bits.c:109-145 | Whatever follows encoded fields, each comes back modulo its width |
| BitStream.TerminatedSplits | voipcodec/src/main/jni/speex-1.2rc1/libspeex/bits.c:188-227 | Emitting whole bytes first does not change the terminated stream |
| ByteBits.ByteIsNumber | voipcodec/src/main/jni/speex-1.2rc1/libspeex/bits.c:109-145 | The bits of a byte, read as a number, are the byte |
| ByteBits.FiveInThreeBits | voipcodec/src/main/jni/speex-1.2rc1/libspeex/bits.c:188-270 | Three bits 101 and the terminator are the byte 0xAF |
| SpeexBuffer.OverLeftOver | voipcodec/src/main/jni/speex-1.2rc1/libspeex/bits.c:188-270 | Bits packed after a write arrive as they are if and only if the length is 0 or 7 modulo 8, or all of them but the first are ones as far as the terminator reaches |
| SpeexBuffer.AnyDataFits | voipcodec/src/main/jni/speex-1.2rc1/libspeex/bits.c:188-270 | Any n bits may follow a write if and only if the length is 0 or 7 modulo 8 or n is at most 1 |
| SpeexBuffer.ZerosAreLost | voipcodec/src/main/jni/speex-1.2rc1/libspeex/bits.c:188-270 | Two zero bits packed after a write of three bits arrive as 01 |
| SpeexBuffer.SpeexBits.Reset | voipcodec/src/main/jni/speex-1.2rc1/libspeex/bits.c:92-100 | An empty stream; only the first byte is cleared |
| SpeexBuffer.SpeexBits.Rewind | voipcodec/src/main/jni/speex-1.2rc1/libspeex/bits.c:102-107 | Everything is unread again |
| SpeexBuffer.SpeexBits.MakeRoom | voipcodec/src/main/jni/speex-1.2rc1/libspeex/bits.c:231-252 | One growth step makes room for every width up to 32 |
| SpeexBuffer.SpeexBits.Pack | voipcodec/src/main/jni/speex-1.2rc1/libspeex/bits.c:229-270 | The bits go, most significant first, over what the rest of the byte holds, which appends them when it is clear; no index leaves the buffer |
| SpeexBuffer.SpeexBits.UnpackUnsigned | voipcodec/src/main/jni/speex-1.2rc1/libspeex/bits.c:283-303 | The next bits as a number, or the overflow flag and nothing read when they are not there |
| SpeexBuffer.SpeexBits.PeekUnsigned | voipcodec/src/main/jni/speex-1.2rc1/libspeex/bits.c:305-332 | The same number, nothing read |
| SpeexBuffer.SpeexBits.Advance | voipcodec/src/main/jni/speex-1.2rc1/libspeex/bits.c:343-351 | Skipping bits, or the overflow flag |
| SpeexBuffer.SpeexBits.Remaining | voipcodec/src/main/jni/speex-1.2rc1/libspeex/bits.c:353-359 | The number of unread bits, or -1 after an overflow |
| SpeexBuffer.SpeexBits.ReadFrom | voipcodec/src/main/jni/speex-1.2rc1/libspeex/bits.c:109-145 | The buffer holds exactly the bytes given |
| SpeexBuffer.SpeexBits.Flush | voipcodec/src/main/jni/speex-1.2rc1/libspeex/bits.c:147-154 | Bytes already read are dropped, unread bits stay |
| SpeexBuffer.SpeexBits.ReadWholeBytes | voipcodec/src/main/jni/speex-1.2rc1/libspeex/bits.c:156-186 | Whole bytes are appended to the unread bits, wherever those end |
| SpeexBuffer.SpeexBits.InsertTerminator | voipcodec/src/main/jni/speex-1.2rc1/libspeex/bits.c:366-372 | A zero and ones up to the byte boundary |
| SpeexBuffer.SpeexBits.Write | voipcodec/src/main/jni/speex-1.2rc1/libspeex/bits.c:188-209 | The terminated stream as far as the room goes, the stream itself restored, with a zero and ones of the terminator left ahead of it unless it ends at a byte |
| SpeexBuffer.SpeexBits.WriteWholeBytes | voipcodec/src/main/jni/speex-1.2rc1/libspeex/bits.c:211-227 | All whole bytes are emitted and the rest moves to the front |
| SpeexBuffer.SpeexBits.Restore | voipcodec/src/main/jni/speex-1.2rc1/libspeex/bits.c:194-201 | The stream before the terminator again, with the bits of the terminator still ahead of it |
| SpeexStreaming.PackAll | voipcodec/src/main/jni/speex-1.2rc1/libspeex/bits.c:188-270 | Packing any fields and writing gives the terminated encoding |
| SpeexStreaming.UnpackAll | voipcodec/src/main/jni/speex-1.2rc1/libspeex/bits.c:283-303 | Unpacking widths from bytes read gives the decoding |
| SpeexStreaming.RoundTrip | voipcodec/src/main/jni/speex-1.2rc1/libspeex/bits.c:109-303 | Pack, write, read elsewhere, unpack: each value modulo two to its width |
| SpeexStreaming.PackAfterWrite | voipcodec/src/main/jni/speex-1.2rc1/libspeex/bits.c:188-270 | Packing after a write: what the stream becomes, and that the data is appended if and only if it fits what the write left over |
| SpeexStreaming.StreamOut | voipcodec/src/main/jni/speex-1.2rc1/libspeex/bits.c:211-270 | Any interleaving of packing and emitting whole bytes, closed by a write, is the terminated encoding |
| SpeexStreaming.StreamOutEqualsOneShot | voipcodec/src/main/jni/speex-1.2rc1/libspeex/bits.c:188-270 | The streamed bytes are those of packing everything and writing once, the terminated encoding of all fields |
| SpeexStreaming.StreamIn | voipcodec/src/main/jni/speex-1.2rc1/libspeex/bits.c:147-303 | Any interleaving of unpacking and feeding whole bytes reads as from the concatenated input, and overflows exactly when a request comes before its bits |
| SpeexStreaming.BitsInjective | voipcodec/src/main/jni/speex-1.2rc1/libspeex/bits.c:109-145 | Equal bits mean equal bytes |
| NBestList.InsertKeepsBest | voipcodec/src/main/jni/speex-1.2rc1/libspeex/cb_search.c:389-411 | One insertion keeps the list sorted and drops an entry no better than any that stays |
| NBestList.KeepsSmallest | voipcodec/src/main/jni/speex-1.2rc1/libspeex/cb_search.c:357-411 | After any offers the list is sorted; with what was dropped it is the padding and the offers, and nothing dropped is better than anything kept |
| NBestList.FullWhenEnough | voipcodec/src/main/jni/speex-1.2rc1/libspeex/cb_search.c:357-411 | The list holds no padding if and only if at least as many offers as it has places lie below the padding |
| NBestList.ShiftIn | voipcodec/src/main/jni/speex-1.2rc1/libspeex/cb_search.c:396-406 | The shift of the three arrays frees one place |
| NBestList.Offer | voipcodec/src/main/jni/speex-1.2rc1/libspeex/cb_search.c:389-411 | The update with one candidate is an insertion |
| BeamSearch.StepKeepsSmallest | voipcodec/src/main/jni/speex-1.2rc1/libspeex/cb_search.c:357-411 | For any number of beams each step keeps the smallest totals offered, sorted |
| BeamSearch.HistoryStep | voipcodec/src/main/jni/speex-1.2rc1/libspeex/cb_search.c:444-446 | Where the history of an entry came from, when that entry is not padding |
| BeamSearch.HistoriesMatch | voipcodec/src/main/jni/speex-1.2rc1/libspeex/cb_search.c:357-469 | Entry by entry: a history that goes back to offered candidates is a path of them and the distance beside it is the accumulated distortion of that path |
| BeamSearch.FullStep | voipcodec/src/main/jni/speex-1.2rc1/libspeex/cb_search.c:357-411 | After a sub-vector the list holds no padding if and only if at least N candidates offered lie below it |
| BeamSearch.FullUnlessAtLimit | voipcodec/src/main/jni/speex-1.2rc1/libspeex/cb_search.c:357-411 | Totals are words, so when no candidate has exactly the largest distortion every entry is an offered candidate |
| BeamSearch.AllOffered | voipcodec/src/main/jni/speex-1.2rc1/libspeex/cb_search.c:357-469 | When that holds of all sub-vectors so far, every history goes back to offered candidates |
| BeamDistinct.HistoriesDistinct | voipcodec/src/main/jni/speex-1.2rc1/libspeex/cb_search.c:357-447 | Two entries whose histories go back to offered candidates never have the same history; this is what asking one beam at the start is for |
| BeamDistinct.QuantiserIsChoosy | voipcodec/src/main/jni/speex-1.2rc1/libspeex/vq.c:84-147 | The quantiser names no codeword twice, with or without signs |
| VqSearch.KeepsNearest | voipcodec/src/main/jni/speex-1.2rc1/libspeex/vq.c:84-147 | The list kept ascends, and with what fell out it is all candidates; nothing that fell out is nearer than the last kept, and nothing falls out while there is room |
| VqSearch.SignIsBetter | voipcodec/src/main/jni/speex-1.2rc1/libspeex/vq.c:117-147 | The sign chosen for a codeword is the one that brings it nearer |
| VqSearch.Put | voipcodec/src/main/jni/speex-1.2rc1/libspeex/vq.c:97-110 | The shift of both arrays from the end is a placement in the list, also while slots are still unused |
| VqSearch.VqNbest | voipcodec/src/main/jni/speex-1.2rc1/libspeex/vq.c:84-147 | Both searches in place leave the nearest codewords and their distances, nearest first |
| BeamDistance.QuantiserFits | voipcodec/src/main/jni/speex-1.2rc1/libspeex/cb_search.c:375-380 | The quantiser of vq.c on any filtered codebook is one the beam search accepts |
| BeamDistance.StepIsDistance | voipcodec/src/main/jni/speex-1.2rc1/libspeex/cb_search.c:364-389 | With it, what a step adds to the accumulated error is half the squared distance between target and filtered codeword, to within one |
| BeamLoops.OfferBeam | voipcodec/src/main/jni/speex-1.2rc1/libspeex/cb_search.c:372-411 | One beam offers its candidates |
| BeamLoops.OfferAll | voipcodec/src/main/jni/speex-1.2rc1/libspeex/cb_search.c:357-415 | All beams offer; at the first sub-vector only the first does |
| BeamLoops.TargetUpdateRow | voipcodec/src/main/jni/speex-1.2rc1/libspeex/cb_search.c:90-95 | target_update in place |
| BeamLoops.UpdateRow | voipcodec/src/main/jni/speex-1.2rc1/libspeex/cb_search.c:423-442 | A codeword is taken out of the rest of the target |
| BeamFilter.TailLess | voipcodec/src/main/jni/speex-1.2rc1/libspeex/cb_search.c:423-442 | Taking out the samples of a codeword one after the other leaves the tail less the filtered codeword, on 16 bits |
| BeamFilter.TailIsResidual | voipcodec/src/main/jni/speex-1.2rc1/libspeex/cb_search.c:423-442 | What is left of the target on a path is the target less the codewords of the path filtered by the response, each sample at its true distance, on 16 bits |
| BeamLoops.UpdateHistory | voipcodec/src/main/jni/speex-1.2rc1/libspeex/cb_search.c:444-446 | The history of the surviving beam with its new index |
| BeamLoops.NextBeams | voipcodec/src/main/jni/speex-1.2rc1/libspeex/cb_search.c:416-447 | Every new beam holds the target and history of its source and its new index |
| BeamLoops.SearchSubVector | voipcodec/src/main/jni/speex-1.2rc1/libspeex/cb_search.c:357-462 | One sub-vector, buffers and copies included |
| BeamLoops.SplitCbSearchShapeSign | voipcodec/src/main/jni/speex-1.2rc1/libspeex/cb_search.c:345-469 | Through the copies and the pointer swap the saved indices are the history of the best beam of the specification |
| SplitCodebook.SignIsTopBit | voipcodec/src/main/jni/speex-1.2rc1/libspeex/cb_search.c:464-469 | The sign is the top bit of a packed index |
| SplitCodebook.PackIndices | voipcodec/src/main/jni/speex-1.2rc1/libspeex/cb_search.c:464-469 | The wire holds the bits of the indices |
| SplitCodebook.EncoderInnovation | voipcodec/src/main/jni/speex-1.2rc1/libspeex/cb_search.c:471-495 | The encoder's innovation is the signed codewords side by side |
| SplitCodebook.InnovationAt | voipcodec/src/main/jni/speex-1.2rc1/libspeex/cb_search.c:471-495 | Each sample of the innovation is the sample of the codeword of its index, negated for the upper half of the indices, times 512 |
| SplitCodebook.UnpackIndex | voipcodec/src/main/jni/speex-1.2rc1/libspeex/cb_search.c:541-549 | Sign bit and shape bits are those of the index |
| SplitCodebook.DecoderInnovation | voipcodec/src/main/jni/speex-1.2rc1/libspeex/cb_search.c:541-569 | Whatever the indices, the decoder rebuilds the innovation and leaves the reader behind them |
| SplitCodebook.SubframeAgrees | voipcodec/src/main/jni/speex-1.2rc1/libspeex/cb_search.c:345-569 | From the search through pack, write, read and unpack both sides have the same innovation |

## Left out

- Levinson.AutoCorrelation2LP: exact arithmetic; the fixed-point rounding of the recursion, whose stability the code does not decide, is not modelled
- Levinson.PredictionError: exact arithmetic; the Q27 and Q31 roundings of the sum are not modelled
- Levinson.UpdateCoefficients: exact arithmetic; the rounded multiply-accumulate is not modelled
- LevinsonSignal.EverySignalIsRegular: about the exact correlations; the truncation of the normalising shift and the lag window come after them
- LevelRange.EstimateStays: log-gains inside (-32, 32); beyond that the differences could saturate
- LspPolynomials.QLsp2Lp: exact arithmetic; rounding and the Q formats are not modelled
- LspPolynomials.ExtendHalf: exact arithmetic; the rounded multiplies are not modelled
- LspPolynomials.ComputePolynomialCoefficients: exact arithmetic; the Q24 rounding is not modelled
- LspPolynomials.ExtendFull: exact arithmetic; the double-precision multiply is not modelled
- LspPolynomials.Lsp2a: the cosine table look-up is a parameter, and the rounding to Q12 is not modelled
- LspPolynomials.GetPqPolynomials: the cosine table look-up is a parameter
- LspLockstep.Encoder.Quantise: the codebook search that chooses the indices is not modelled; the results hold for every choice
- Bv16Lsp.Lspquan: for LSP vectors whose values rise, without which the fractional divisions of the weights are undefined
- Bv16Lsp.AcceptsExactly: for predictions that keep the first three sums 8192 away from the limits of a word, so that none of them saturates
- Bv16LspInstances.StableButRejected: of the tables it names the mean, the predictor and the rows used, not all 192 rows
- BeamSearch.HistoriesMatch: says nothing of a padded entry, which has history 0 of beam 0 and no distortion of its own
- BeamLoops.SplitCbSearchShapeSign: holds for any vector quantiser that returns N indices in range, of which BeamDistance.QuantiserFits shows the one of vq.c to be one; how the weighted codebook is computed, and the update of the caller's target by the perceptual filters, are not modelled
- BeamDistance.StepIsDistance: for targets and codewords whose sums of squares and products stay below 2^29, so that none of them wraps
- Bv16LspTarget.TargetRebuilds: for vectors within 8192 of mean and prediction; beyond that the target saturates
- Bv16LspTarget.FirstRebuildsBest: between codevectors whose errors do not saturate
- Bv16LspTarget.SecondRebuildsBest: up to the rounding of the weighted terms, and between codevectors whose errors do not saturate
- GainSearch.SearchRebuilds: for estimates and log-gains whose difference the codebook can follow without saturation
- LspRearrange.CodewordRearranged: for sums of codebook entries that leave room in a word for both passes
- LspSpacing.StableIsLeast: with room for the distances; without it LspLockstep.SpacingHolds says that an addition wraps
- SplitCodebook.EncoderInnovation: samples are exact integers, since signed-char codewords shifted by 9 fit 32 bits; the single-beam search, which writes the same format, is not modelled
- PulseSearch.PairSearch: the loop of two iterations over the first track is written out
- PulseSearch.SelectPulses: assumes an impulse response that fits a word and starts with 1.0, as the filter gives it, and no correlation of -2^31; the pitch sharpening of the response is not modelled
- SpeexBuffer.SpeexBits.Resize: growth always succeeds and the object owns its buffer; new bytes are arbitrary
- SplitCodebook.UnpackIndices: the two local arrays are sequences
- ComfortNoise.ComfortNoise: the seed and the parameters drawn from it, not the excitation computed with them
- ComfortNoise.DtxContext.EncodeSIDFrame: the logarithm of the mean energy and the comparison of filters are inputs; the autocorrelation sums and the LSP of SID frames are not modelled
- ComfortNoise.CngContext.DecodeFrame: RFC 3389 payloads and lost frames are not modelled
- Plc.Decoder.Lose: the concealment excitation, filters and predictor updates around the attenuation are not modelled
- IndexCoding.CodeDelay: the closed-loop search is not modelled; the results hold for every delay in its range
- G.729 LSP memory after erasures and on SID frames: the two sides do not promise to agree
- Gain quantisation, pitch search, VAD, post-filters and high-pass filters of G.729: long heuristics without a crisp specification
- gainplc and lspdecplc: updates after a loss, when the two sides no longer agree anyway
- speex_bits_unpack_signed, speex_bits_init_buffer and the debug output: easy members
- JNI wrappers, file reading and writing, allocation: foreign calls and input or output
- Accuracy of the polynomial cosine, logarithm and square-root approximations: no bound is decided by the code
