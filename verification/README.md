# Verified models of the signal, clock, digest and client programs

This project models the algorithmic cores of several small C programs in Dafny and proves what they are for.

* **Fourier transform** (`PowersOfTwo`, `ComplexNumbers`, `FourierTransform`, `Fft`, `FftInPlace`). The in-place
  radix-2 transform of the voice trainer: the reordering by a reversed-carry counter and the three nested butterfly loops over one array,
  and the inverse made of two conjugations around it. Complex numbers are pairs of exact reals; the powers of
  cos - i sin enter as a twiddle `W` with the laws W(a+b) = W(a) W(b), |W| = 1 and W(N/2) = -1. N is 2^m with m >= 1:
  the loop that computes log2(N) never stops for N = 1.
* **Phase lock** (`PhaseGeometry`, `PhasePolygon`, `PhaseLock`, `PhaseFrequency`). The NTP client keeps the last sixteen
  measurements in a ring, builds the envelope of their upper and of their lower bounds by gift-wrapping, picks one
  crossing tangent of each kind, and derives a frequency shift from the corners of the polygon between them. `double`
  is modelled by `real`.
* **MD5** (`WordBits`, `Md5Block`, `Md5Stream`, `Md5Vector`). The streaming digest with its partial block buffer, its split 64-bit bit counter
  and its unrolled transform, against the one-shot digest of sections 3.1 to 3.5 of RFC 1321. Words are integers below
  2^32 with explicit wrap-around; the host is little-endian. `Md5Vector` works out one test vector of section A.5.
* **Task scheduler** (`TaskTable`, `TaskQueue`, `EventLoop`, `ClientLoop`). `TaskTable` says what each message and each clock tick
  makes of the railway client's task table, `TaskQueue` is the table as an array with the C functions as methods proved
  against it, and `EventLoop` is the loop over time, in microseconds: a turn ticks the table, computes a timeout, sleeps
  no longer than that, and then handles messages. The timer's microseconds are never set, so what `select` writes back
  after a message lengthens the next timeout (`client_connection.c:212,228,232`); the run theorems hold with these
  left-over microseconds (`late`) and for runs in which they never carry into another second. A turn's body takes no
  time. `ClientLoop` runs turns on the array.
* **Framing and upload** (`Bytes`, `FrameCodec`, `RemoteFraming`, `LocalFraming`, `Upload`). The frame encoder, the exact
  two-phase reader of the remote connection, the accumulate-dispatch-compact reader of the local one, and the upload of
  a growing trace file in fragments of 1024 bytes. `recv` hands over any positive number of the bytes to come.
* **Two arithmetic cores** (`WeightedSampler`, `NtpFixedPoint`). The weighted sampler with its self-renormalising byte
  counters, and the NTP fixed-point macros.

## What the proofs found

* `search` keeps the smallest slope for sign 0 and the largest for sign 1; the comment above it
  (`phaselock.c:76-78`) says the opposite, and also swaps the curves of the two ends. The model follows the code.
* A box is exact, that is, its two lines fit all sixteen samples and bound the slope of every line that does, if and
  only if no error bar is negative, i.e. every reported error bar reaches `min_delay` (`PhaseLock.VerdictMeaning`,
  `PhaseLock.ProperHistory`). `PhaseLock.ImproperBoxed` gives sixteen readings that no line fits and that are answered
  with a box.
* Consistent data are not always recognised: with proper error bars there is a box if and only if some line fits and
  each of the two extreme fitting lines touches its own curve once (`PhaseLock.BoxExactlyWhen`). An extreme line that
  touches its own curve twice is rejected, in particular one that starts on its curve and passes another sample whose
  two bounds coincide (`PhaseLock.TwoTouchesRejected`, `PhaseLock.NoSlackRejected`). `PhaseLock.ConsistentRejected`
  gives sixteen readings that a line fits exactly and that are called inconsistent, `PhaseLock.SteadyBoxed` sixteen that
  get an exact box.
* Pass 3 keeps the crossing of smallest slope although it looks for the largest. This is harmless: on data that some
  line fits, any two crossings of one kind have the same slope (`PhaseGeometry.CrossingIsExtreme`).
* Two tasks can run at once although admitted windows are disjoint: exactly when one stops in the clock second in which
  the other starts or, because of the left-over microseconds, when one starts and stops within a second and the other
  starts in the next (`EventLoop.TogetherExactly`).
* The left-over microseconds can carry a timeout past the start second of a waiting task (`EventLoop.StartPassedOver`);
  it is then started one second late. They come only from a message that cut a sleep short (`EventLoop.NeverCarries`).
* A manual START is harmless if and only if it does nothing or the start second of the task it names has come
  (`EventLoop.StartKeepsExactly`); such STARTs are part of all run theorems. A START before that makes two tasks run in
  some run, whatever their two windows are (`EventLoop.ManualStartRunsTwo`).
* `start_task` passes a task where `check_new_task` expects a task record (`remote_client_task_event.c:238`), so the
  answer means nothing. It is an arbitrary `accept` in the table invariants and `true` in the timing theorems.
* UPLOAD_LATEST can go out too early: on the initial `trace_stop`, before any two lengths were compared, and after two
  checks that saw a pause in the writing (`Upload.LatestTooEarly`). `Upload.LatestExactly` says which histories let it
  go out, and the server ends with the whole file if and only if nothing is written after it (`Upload.LatestIsWhole`).
* A task whose trace file is missing is deleted at the seventh look in a row (`Upload.Uploader.CheckAndRequest`); the
  log line says five.
* The counters of the sampler stay in 1..244 if and only if the feedback is at most 11
  (`WeightedSampler.FeedbackKeepsRange`); the first bucket is hit once more than its counter says and the last one once
  less (`WeightedSampler.HitCounts`). A positive reward can lower the drawn bucket's share, when all counters are halved
  and rounding lifts the others: `WeightedSampler.RewardRaisesShare` says exactly when, `RewardLowersShare` is such a
  cell.
* The conversion of microseconds to NTP fractions and back is off by -380 to 379 microseconds,
  although the source calls the way back nearly exact (`ntpclient.c:103-106`).

## Model

| member | source | states |
|---|---|---|
| ComplexNumbers.MulDistrib | trainer/ubuntu_voice/fft.c:42-58 | The product of the C helpers distributes over their sum, from both sides. |
| ComplexNumbers.MulAssoc | trainer/ubuntu_voice/fft.c:54-58 | The product of the C helpers is associative. |
| ComplexNumbers.ConjLaws | trainer/ubuntu_voice/fft.c:20-28 | Conjugation is an involution that keeps sums and products. |
| FourierTransform.RootIsTwiddle | trainer/ubuntu_voice/fft.c:68-75 | For every N, the powers of a number of modulus one whose N/2-th power is -1, as cos(2 pi/N) - i sin(2 pi/N) is, satisfy all the laws asked of a twiddle. |
| FourierTransform.TwiddleIsRoot | trainer/ubuntu_voice/fft.c:68-75 | Conversely every twiddle consists of the powers of such a number, so the laws ask for nothing else. |
| FourierTransform.QuarterTurnsAreTwiddle | trainer/ubuntu_voice/fft.c:68-75 | For N = 4 the exact values of cos - i sin are such a twiddle, so the theorems are not about nothing. |
| FourierTransform.ConjTwiddle | trainer/ubuntu_voice/fft.c:68-75 | Turning backwards is conjugation: W(-a) is the conjugate of W(a). |
| FourierTransform.GeoVanishes | trainer/ubuntu_voice/fft.c:125-136 | For a step that is no multiple of 2^m, the 2^m powers of W sum to zero. |
| FourierTransform.Orthogonality | trainer/ubuntu_voice/fft.c:125-136 | The sum over k of W(d k), k < N, is N for d = 0 and 0 for every other difference of two indices. |
| FourierTransform.InverseUndoes | trainer/ubuntu_voice/fft.c:125-136 | The inverse DFT sum of the DFT sum is the original sequence, for every length 2^m. |
| FourierTransform.TransformUndoes | trainer/ubuntu_voice/fft.c:125-136 | And the other way round: transform and inverse are a bijection. |
| BitReversal.Rev | trainer/ubuntu_voice/fft.c:85-100 | Reversing the m low bits stays below 2^m. |
| BitReversal.RevTop | trainer/ubuntu_voice/fft.c:85-100 | Seen from the other end: the highest bit becomes the lowest. |
| BitReversal.RevInvolution | trainer/ubuntu_voice/fft.c:85-100 | Reversing twice is the identity, so the reordering is a permutation. |
| BitReversal.RevCarry | trainer/ubuntu_voice/fft.c:93-99 | Adding one to an index removes leading ones and sets the next bit of its reversal, and never runs out of bits before the last index. |
| Fft.SplitEvenOdd | trainer/ubuntu_voice/fft.c:103-121 | A 2c-point transform is the transform of the even samples plus a twiddle times that of the odd ones. |
| Fft.BinsRepeat | trainer/ubuntu_voice/fft.c:103-121 | Bins half a transform apart are equal up to whole turns. |
| Fft.NodeStart | trainer/ubuntu_voice/fft.c:85-103 | Before the first stage, position p of the reordered array is the one-point transform at index rev(p). |
| Fft.NodeEnd | trainer/ubuntu_voice/fft.c:103-122 | After the last stage, position p is bin p of the DFT of the input. |
| Fft.Butterfly | trainer/ubuntu_voice/fft.c:115-118 | One butterfly turns the two half-size bins at n and n + 2^s into the two full-size bins there. |
| FftInPlace.Levels | trainer/ubuntu_voice/fft.c:83 | The halving loop stops with M = log2(N) for every N = 2^m, m >= 1. |
| FftInPlace.ReversedIncrement | trainer/ubuntu_voice/fft.c:93-99 | From the bit reversal of i the reversed-carry loop reaches the bit reversal of i + 1, and stops. |
| FftInPlace.SwapStep | trainer/ubuntu_voice/fft.c:87-92 | Swapping only when i < rev(i) extends the reordered part by index i. |
| FftInPlace.Reorder | trainer/ubuntu_voice/fft.c:85-100 | In place, f[p] becomes the old f[rev(p)] for every p, and nothing beyond N changes. |
| FftInPlace.HalfBlock | trainer/ubuntu_voice/fft.c:112-114 | Every position is the upper or the lower end of exactly one butterfly of a stage. |
| FftInPlace.ReachedStep | trainer/ubuntu_voice/fft.c:112-119 | One butterfly newly covers exactly its two ends. |
| FftInPlace.ButterflyStep | trainer/ubuntu_voice/fft.c:112-119 | If every covered position holds its next-stage bin, one more butterfly keeps that true. |
| FftInPlace.ButterflyAt | trainer/ubuntu_voice/fft.c:114-118 | The sum and the difference land on the two ends of the butterfly, nothing else changes. |
| FftInPlace.AllGroups | trainer/ubuntu_voice/fft.c:111-119 | One offset of a stage takes its position of every group to the next stage. |
| FftInPlace.Stage | trainer/ubuntu_voice/fft.c:105-120 | A stage of the three nested loops takes the whole array from stage m - 1 to stage m. |
| FftInPlace.Transform | trainer/ubuntu_voice/fft.c:77-122 | The in-place loops leave f[k] equal to the sum over j of the old f[j] W(j k), for every array of length N = 2^m, and leave the rest of the array alone. |
| FftInPlace.ConjugateComplex | trainer/ubuntu_voice/fft.c:20-28 | Every element of the target is the conjugate of the old source element, also when both are one array. |
| FftInPlace.ConjBin | trainer/ubuntu_voice/fft.c:125-130 | Conjugating before and after the transform is transforming with the conjugate twiddle. |
| FftInPlace.InverseTransform | trainer/ubuntu_voice/fft.c:125-136 | `ifft` leaves the inverse DFT of the old contents. |
| FftInPlace.RoundTrip | trainer/ubuntu_voice/fft.c:77-136 | `ifft` after `_fft` gives back every original array exactly. |
| FourierTransform.ImpulseSpectrum | trainer/ubuntu_voice/fft.c:77-122 | An impulse at sample j has the spectrum W(j k): the exponents go the right way. |
| FourierTransform.ToneSpectrum | trainer/ubuntu_voice/fft.c:77-122 | A pure tone has one line in its spectrum, at its own frequency. |
| PhaseGeometry.Compare | TL_System/railway_trio/ntpclient/phaselock.c:87-96 | Of two lines, the one that gains on the other between an earlier and a later sample has the larger slope, and conversely. |
| PhaseGeometry.ChainIncreases | TL_System/railway_trio/ntpclient/phaselock.c:235-245 | The vertices of an envelope walk move on in time, so it reaches the newest sample within 15 segments. |
| PhaseGeometry.Corner | TL_System/railway_trio/ntpclient/phaselock.c:234-245 | The next segment of an envelope never turns back. |
| PhaseGeometry.Convex | TL_System/railway_trio/ntpclient/phaselock.c:231-268 | Slopes along the upper envelope never decrease, along the lower one never increase. |
| PhaseGeometry.Envelope | TL_System/railway_trio/ntpclient/phaselock.c:231-268 | Every sample's bound lies on the outer side of every envelope segment, also before the segment's start. |
| PhaseGeometry.AcceptedCrosses | TL_System/railway_trio/ntpclient/phaselock.c:238-239 | A check line that passes the slope test touches its near curve at that vertex alone and never crosses it. |
| PhaseGeometry.CrossingAccepted | TL_System/railway_trio/ntpclient/phaselock.c:238-239 | Conversely, every such crossing tangent starts at a vertex of the envelope and passes the test there. |
| PhaseGeometry.CrossingIsExtreme | TL_System/railway_trio/ntpclient/phaselock.c:230-268 | If any line fits between all bounds, a crossing fits too, and no fitting line has a slope beyond it. |
| PhaseGeometry.LaterCrossingFits | TL_System/railway_trio/ntpclient/phaselock.c:230-268 | Two crossings of opposite kind already prove consistency: the one that starts later fits all samples. |
| PhaseGeometry.PairLine | TL_System/railway_trio/ntpclient/phaselock.c:87-94 | The line through one bound of a sample and the other bound of a later one takes those two values. |
| PhaseGeometry.LeadingPair | TL_System/railway_trio/ntpclient/phaselock.c:230-268 | Among all pairs of samples one gives the extreme line. |
| PhaseGeometry.ExtremeExists | TL_System/railway_trio/ntpclient/phaselock.c:230-268 | If any line fits, an extreme fitting line exists and touches the near curve before it touches the far one. |
| PhaseGeometry.CrossesExactly | TL_System/railway_trio/ntpclient/phaselock.c:230-268 | On data that some line fits, a crossing exists if and only if the extreme fitting line touches its near curve once (and is within the initial slope when that is at the oldest sample). |
| PhaseGeometry.ExtremeUnique | TL_System/railway_trio/ntpclient/phaselock.c:230-268 | There is only one extreme fitting line of either kind. |
| PhaseGeometry.TwoTouchesNoCrossing | TL_System/railway_trio/ntpclient/phaselock.c:238-239 | When the extreme fitting line meets its near curve twice, there is no crossing at all: no line passes the strict tests. |
| PhaseGeometry.ImproperCrosses | TL_System/railway_trio/ntpclient/phaselock.c:206 | On sixteen samples, one with a negative error bar, both crossings exist. |
| PhaseGeometry.ImproperIsOrdered | TL_System/railway_trio/ntpclient/phaselock.c:206 | No line fits these samples. |
| PhaseGeometry.ImproperSlopes | TL_System/railway_trio/ntpclient/phaselock.c:230-268 | Every crossing of the one kind falls on them and every one of the other kind rises, so whichever are chosen are in order. |
| PhasePolygon.Pencil | TL_System/railway_trio/ntpclient/phaselock.c:138-146 | Along the lines through one point, the shift asked for is never below its least value at the two ends. |
| PhasePolygon.Upright | TL_System/railway_trio/ntpclient/phaselock.c:138-146 | The same for parallel lines between two offsets. |
| PhasePolygon.PlaneOfBlend | TL_System/railway_trio/ntpclient/phaselock.c:138-146 | Both planes of `find_shift` are affine in slope and offset. |
| PhasePolygon.MixesAreBounded | TL_System/railway_trio/ntpclient/phaselock.c:109-160 | After any calls of `polygon_point`, l_min and r_min are lower bounds of the shift at every convex combination of the lines handed over, whether or not any line fits the data. |
| PhasePolygon.ShiftMeans | TL_System/railway_trio/ntpclient/phaselock.c:138-146 | `find_shift` is the least amount, not below zero, by which the slope must be lowered to come under one of the two target lines. |
| PhasePolygon.MovedSettles | TL_System/railway_trio/ntpclient/phaselock.c:138-146 | A line asks for a shift to one side at most, and moved by it asks for none. |
| PhasePolygon.SettledBetween | TL_System/railway_trio/ntpclient/phaselock.c:138-146 | Between a line that asks for nothing to the left and one that asks for nothing to the right there is one that asks for nothing. |
| PhasePolygon.GrossShift | TL_System/railway_trio/ntpclient/phaselock.c:115-132 | Unless both sides ask for a shift, some line spanned by those handed over is settled by the gross shift, and no line handed over by a smaller move. |
| PhasePolygon.MixFits | TL_System/railway_trio/ntpclient/phaselock.c:230-268 | A convex combination of fitting lines fits. |
| PhasePolygon.Supports | TL_System/railway_trio/ntpclient/phaselock.c:234-268 | A line through an envelope vertex with a slope between its two segments never crosses the curve. |
| PhasePolygon.SideBound | TL_System/railway_trio/ntpclient/phaselock.c:275-303 | The outermost line of a given slope on one side is bounded by the two corners it lies between. |
| PhasePolygon.SegmentFits | TL_System/railway_trio/ntpclient/phaselock.c:278-303 | An envelope segment whose slope lies between two fitting lines' slopes fits all samples. |
| PhasePolygon.CornersDecide | TL_System/railway_trio/ntpclient/phaselock.c:275-311 | Over all lines that fit the data, l_min and r_min are the least shifts asked for, capped at MIN_INIT, although only the corners were looked at. |
| PhaseLock.SlotStep | TL_System/railway_trio/ntpclient/phaselock.c:71-72 | Stepping up the ring is stepping forward in time, and wraps exactly after the newest sample. |
| PhaseLock.BackOne | TL_System/railway_trio/ntpclient/phaselock.c:72 | Stepping down is stepping back in time, and comes round to the newest sample exactly after the oldest. |
| PhaseLock.LineThrough | TL_System/railway_trio/ntpclient/phaselock.c:87-94 | The slope and offset that `search` computes are those of the line through its two points. |
| PhaseLock.BestStep | TL_System/railway_trio/ntpclient/phaselock.c:91-97 | Comparing slopes at a common start keeps the line that bounds the curve at all samples seen. |
| PhaseLock.VertexStep | TL_System/railway_trio/ntpclient/phaselock.c:235-245 | One turn of pass 2 or 3 extends the envelope and keeps the chosen line the least of all crossings passed. |
| PhaseLock.RangeStep | TL_System/railway_trio/ntpclient/phaselock.c:278-287 | A segment is handed to `polygon_point` exactly when its slope is past the start line's and not past the stop line's. |
| PhaseLock.RangeEnds | TL_System/railway_trio/ntpclient/phaselock.c:284-285 | Breaking off at the first segment past the stop line misses none. |
| PhaseLock.MetWhenOrdered | TL_System/railway_trio/ntpclient/phaselock.c:288-305 | When the two crossings are in order neither range loop reports an inconsistency. |
| PhaseLock.CrossingsFit | TL_System/railway_trio/ntpclient/phaselock.c:230-268 | On proper samples two crossings fit all samples and bound the slope of every line that does. |
| PhaseLock.BoxFitsAll | TL_System/railway_trio/ntpclient/phaselock.c:275-311 | A box on proper samples has exact slopes and exact least shifts over all fitting lines. |
| PhaseLock.BoxBoundsPolygon | TL_System/railway_trio/ntpclient/phaselock.c:275-311 | For every box, also on samples that no line fits, l_min and r_min bound the shifts over the whole polygon spanned by the crossings and the segments between them. |
| PhaseLock.RecordSlots | TL_System/railway_trio/ntpclient/phaselock.c:204-209 | Overwriting the slot after the newest drops the oldest reading and keeps the order of the others. |
| PhaseLock.VerdictMeaning | TL_System/railway_trio/ntpclient/phaselock.c:185-334 | On proper samples the verdict is a box exactly when both kinds of crossing exist; a box is exact if and only if the samples are proper. |
| PhaseLock.BoxExactlyWhen | TL_System/railway_trio/ntpclient/phaselock.c:185-334 | On proper samples there is a box if and only if some line fits and both extreme fitting lines touch their own curve once. |
| PhaseLock.BoxShifts | TL_System/railway_trio/ntpclient/phaselock.c:115-132 | On proper samples some fitting line is settled by the gross shift of a box that is not pulled to both sides, and no fitting line by a smaller move. |
| PhaseLock.TwoTouchesRejected | TL_System/railway_trio/ntpclient/phaselock.c:238-239 | Proper samples whose extreme fitting line, of either kind, meets its own curve at two samples get no box. |
| PhaseLock.NoSlackRejected | TL_System/railway_trio/ntpclient/phaselock.c:238-239 | Nor do proper samples whose extreme line starts on its curve and passes another sample at which both bounds coincide. |
| PhaseLock.ConsistentRejected | TL_System/railway_trio/ntpclient/phaselock.c:185-334 | Sixteen readings without error, one second apart, are fitted exactly by a line and are always called inconsistent. |
| PhaseLock.SteadyBoxed | TL_System/railway_trio/ntpclient/phaselock.c:185-334 | Sixteen readings with equal error bars, one second apart, always get an exact box. |
| PhaseLock.ImproperBoxed | TL_System/railway_trio/ntpclient/phaselock.c:185-334 | Sixteen readings, the oldest with an error bar below `min_delay`, are fitted by no line and are always answered with a box. |
| PhaseLock.Replay | TL_System/railway_trio/ntpclient/phaselock.c:185-334 | Sixteen readings in order, fed to a new loop, get a verdict justified on their corrected samples. |
| PhaseLock.WrongVerdicts | TL_System/railway_trio/ntpclient/phaselock.c:185-334 | Fed to the loop, those two histories do get the two wrong verdicts. |
| PhaseLock.RightVerdict | TL_System/railway_trio/ntpclient/phaselock.c:185-334 | Fed to the loop, readings with equal error bars do get a box whose two lines fit. |
| PhaseLock.ProperHistory | TL_System/railway_trio/ntpclient/phaselock.c:206-217 | The corrected samples are proper exactly when every error bar reaches `min_delay`. |
| PhaseLock.CorrectionStraightens | TL_System/railway_trio/ntpclient/phaselock.c:213-228 | For a clock of constant drift, whatever its frequency settings were, the middles of the corrected bounds lie on the line it would have followed at the present setting, and each pair of bounds is its error bar apart. |
| PhaseLock.DriftTurns | TL_System/railway_trio/ntpclient/phaselock.c:226-227 | Correcting to a lower setting moves every sample in proportion to its age. |
| PhaseLock.RetuningTurns | TL_System/railway_trio/ntpclient/phaselock.c:213-228 | A line fits the samples exactly when, turned by the change of the setting, it fits the samples corrected to the new one. |
| PhaseLock.PhaseLoop.Candidate | TL_System/railway_trio/ntpclient/phaselock.c:87-94 | One iteration's line joins the two bounds it is meant to join. |
| PhaseLock.PhaseLoop.Search | TL_System/railway_trio/ntpclient/phaselock.c:80-100 | The answer runs from the start to a later sample, and the curve it ends on lies wholly on one side of it from the start on: on or above it for sign 0, on or below for sign 1. |
| PhaseLock.PhaseLoop.Vertex | TL_System/railway_trio/ntpclient/phaselock.c:235-245 | One turn of pass 2 or 3 on the ring extends the envelope by one segment. |
| PhaseLock.PhaseLoop.EnvelopePass | TL_System/railway_trio/ntpclient/phaselock.c:230-268 | Each pass leaves in its array a whole tangent chain from the oldest to the newest sample, and the least crossing, if there is any. |
| PhaseLock.PhaseLoop.PolygonPoint | TL_System/railway_trio/ntpclient/phaselock.c:148-160 | l_min and r_min stay the least shifts of all lines handed over so far, and bound the shifts at all their convex combinations. |
| PhaseLock.PhaseLoop.SpliceSide | TL_System/railway_trio/ntpclient/phaselock.c:278-305 | Exactly the segments in range are handed over, and the result says whether the range was met. |
| PhaseLock.PhaseLoop.SetBounds | TL_System/railway_trio/ntpclient/phaselock.c:216-217 | Both bounds of one entry are set around the corrected skew; the rest of the ring is unchanged. |
| PhaseLock.PhaseLoop.CorrectBounds | TL_System/railway_trio/ntpclient/phaselock.c:213-228 | Every entry's bounds become those it would have had at the present frequency, and no reading changes. |
| PhaseLock.PhaseLoop.Judge | TL_System/railway_trio/ntpclient/phaselock.c:234-319 | Passes 2 to 5 give a verdict justified by the two envelopes. |
| PhaseLock.PhaseLoop.Record | TL_System/railway_trio/ntpclient/phaselock.c:204-209 | The ring holds the last sixteen readings, oldest first, newest at rp. |
| PhaseLock.PhaseLoop.ContemplateData | TL_System/railway_trio/ntpclient/phaselock.c:185-319 | After every call the ring holds the last sixteen readings; there is a verdict exactly from the sixteenth on, and it is justified on the corrected samples. |
| PhaseFrequency.AimsAtBand | TL_System/railway_trio/ntpclient/phaselock.c:172-179 | The slope aimed at is the nearest one that cancels the offset within 600 to 1800 seconds; inside that band nothing is changed. |
| PhaseFrequency.CorrectionIsDamped | TL_System/railway_trio/ntpclient/phaselock.c:165-183 | The fine correction goes towards the aim and never past it. |
| PhaseFrequency.CorrectionShare | TL_System/railway_trio/ntpclient/phaselock.c:165-183 | It takes 1000 parts of 1000 plus the opening of the box twenty minutes ahead: all of the aim for a single line, nothing when the whole box is further off than 1000. |
| PhaseFrequency.DeltaFreqMeans | TL_System/railway_trio/ntpclient/phaselock.c:321 | The conversion to int rounds to the nearest unit from -0.5 on and towards zero below. |
| PhaseFrequency.GrossRetune | TL_System/railway_trio/ntpclient/phaselock.c:318-323 | Corrected to the setting lower by the gross shift, the same readings are fitted by a line that asks for no shift any more. |
| PhaseFrequency.BoxOpens | TL_System/railway_trio/ntpclient/phaselock.c:165-183 | On proper samples the two lines of a box are in order at the newest sample and later, so the damping factor is in (0, 1] and nothing is divided by zero. |
| PhaseFrequency.NewFrequency | TL_System/railway_trio/ntpclient/phaselock.c:313-333 | Any box yields a frequency within 250 ppm, which short of that limit is the change asked for to within 1.5 units wherever the quotient is defined; any other verdict keeps the frequency. |
| PhaseFrequency.NextFrequency | TL_System/railway_trio/ntpclient/phaselock.c:185-334 | What `contemplate_data` returns: the same frequency until sixteen readings are in and whenever they are inconsistent, otherwise one within 250 ppm; with error bars that reach `min_delay` the change is always defined. |
| Md5Block.RewrittenFunctions | TL_System/railway_trio/client/md5.c:107-110 | The rewritten F1, F2 and F4 equal F, G and I of section 3.4 of RFC 1321 on all words. |
| WordBits.BitsBack | TL_System/railway_trio/client/md5.c:112-113 | The bits of every word stand for the word. |
| WordBits.RotateMeans | TL_System/railway_trio/client/md5.c:112-113 | The rotation of MD5STEP is w 2^s mod 2^32 plus what that pushes over the top, for all words and 0 < s < 32. |
| Md5Block.StepIsOperation | TL_System/railway_trio/client/md5.c:112-113 | One MD5STEP, with the sums in the order of the macro, is one operation of section 3.4, with the sums in the order of the standard and the registers renamed. |
| Md5Block.Quad | TL_System/railway_trio/client/md5.c:126-191 | Four unrolled steps are four operations and bring every register back to its place. |
| Md5Block.RoundOne | TL_System/railway_trio/client/md5.c:126-141 | Steps 1 to 16, with their constants, are operations 1 to 16 of the table-driven form. |
| Md5Block.RoundTwo | TL_System/railway_trio/client/md5.c:143-158 | The same for steps 17 to 32. |
| Md5Block.RoundThree | TL_System/railway_trio/client/md5.c:160-175 | The same for steps 33 to 48. |
| Md5Block.RoundFour | TL_System/railway_trio/client/md5.c:177-192 | The same for steps 49 to 64. |
| Md5Block.UnrolledSteps | TL_System/railway_trio/client/md5.c:126-192 | The whole unrolled body is the sixty-four operations of section 3.4. |
| Md5Block.MD5Transform | TL_System/railway_trio/client/md5.c:116-198 | The state in place becomes the table-driven block function of the standard applied to the old state and the block. |
| Md5Stream.LittleEndian | TL_System/railway_trio/client/md5.c:6-16 | On a little-endian host, storing the word read from four bytes gives the same four bytes. |
| Md5Stream.LittleEndianLoad | TL_System/railway_trio/client/md5.c:6-16 | And the other way round. |
| Md5Stream.AbsorbConcat | TL_System/railway_trio/client/md5.c:61-67 | Absorbing whole blocks and then the rest is absorbing everything at once. |
| Md5Stream.PadSplits | TL_System/railway_trio/client/md5.c:81-98 | The two branches of `MD5Final` append exactly the padding of sections 3.1 and 3.2 of RFC 1321. |
| Md5Stream.TakeBlock | TL_System/railway_trio/client/md5.c:46-67 | Bytes that complete the pending block make the absorbed part grow by that block. |
| Md5Stream.KeepTail | TL_System/railway_trio/client/md5.c:50-53 | Bytes that do not complete a block only lengthen the unprocessed tail. |
| Md5Stream.CountBits | TL_System/railway_trio/client/md5.c:38-41 | The two counter words with their carry hold 8 times the total length modulo 2^64. |
| Md5Stream.PendingBytes | TL_System/railway_trio/client/md5.c:43 | The number of pending bytes can be read off the low counter word, whatever has wrapped around. |
| Md5Stream.Md5Context.constructor | TL_System/railway_trio/client/md5.c:19-29 | A new context has digested the empty message. |
| Md5Stream.Md5Context.ByteReverse | TL_System/railway_trio/client/md5.c:6-16 | The byte reversal leaves the buffer as it is on a little-endian host. |
| Md5Stream.Md5Context.Complete | TL_System/railway_trio/client/md5.c:54-58 | A completed block is absorbed and the buffer holds nothing pending. |
| Md5Stream.Md5Context.Keep | TL_System/railway_trio/client/md5.c:50-53 | A shorter rest waits in the buffer. |
| Md5Stream.Md5Context.Absorbing | TL_System/railway_trio/client/md5.c:43-69 | Whatever the cut, registers and buffer hold the whole blocks and the tail of the message so far. |
| Md5Stream.Md5Context.Update | TL_System/railway_trio/client/md5.c:32-70 | The context represents the old message followed by the new data. |
| Md5Stream.Md5Context.LastBlock | TL_System/railway_trio/client/md5.c:95-100 | The fill, the two length words and the last transform absorb the padded message. |
| Md5Stream.Md5Context.Final | TL_System/railway_trio/client/md5.c:73-104 | The digest is that of the padded and length-suffixed message of RFC 1321. |
| Md5Stream.DigestOfChunks | TL_System/railway_trio/client/md5.c:32-104 | Every way of cutting a message into updates gives the one-shot digest of the whole. |
| Md5Stream.LengthMeans | TL_System/railway_trio/client/md5.c:97-98 | The eight length bytes are the count modulo 2^64, lowest first. |
| Md5Vector.Known | TL_System/railway_trio/client/md5.c:112-113 | One operation on known registers, from its auxiliary function, sum and rotation. |
| Md5Vector.Compressed | TL_System/railway_trio/client/md5.c:116-198 | The sixty-four operations on the padded alphabet, step by step, and the final sums. |
| Md5Vector.AlphabetDigest | TL_System/railway_trio/client/md5.c:32-104 | The digest of the lower-case alphabet is the one published in section A.5 of RFC 1321. |
| Md5Stream.MakeMd5Fcs | TL_System/railway_trio/client/client_connection.c:78-90 | The frame checksum is the one-shot digest of the data. |
| TaskTable.First | TL_System/railway_trio/client/client_task_queue.c:78-87 | The first matching entry, none before it matching; the length of the table when there is none. |
| TaskTable.ActionKeeps | TL_System/railway_trio/client/remote_client_task_event.c:111-488 | Any message or tick keeps occupied windows pairwise apart and moves each entry by at most one legal step. |
| TaskTable.SlotKeeps | TL_System/railway_trio/client/remote_client_task_event.c:231-418 | An action that admits nothing changes no window, and an entry it clears is cleared completely. |
| TaskTable.ReachableTables | TL_System/railway_trio/client/client_task_queue.c:254-280 | In every reachable table, occupied entries have pairwise disjoint windows, for any interleaving of messages, ticks and refusals. |
| TaskTable.TaskHistory | TL_System/railway_trio/client/remote_client_task_event.c:111-418 | While an entry stays occupied its id and window never change and its status only moves forward. |
| TaskTable.LifeCycle | TL_System/railway_trio/client/remote_client_task_event.c:231-488 | Which event changes an occupied entry, how, and that no other does: cleared by CANCEL or STOP while waiting, UPLOAD_SUCCESS or a missing file, started by the clock or by START while none runs, stopped by hand or by the clock, handed to uploading only when stopped. |
| TaskTable.FreeEntry | TL_System/railway_trio/client/remote_client_task_event.c:111-227 | A free entry stays free except that an admissible task fills the first one, with its window, waiting. |
| TaskTable.StaysFree | TL_System/railway_trio/client/remote_client_task_event.c:111-227 | A free entry stays free over any history in which nothing is received into it. |
| TaskTable.CancelledForGood | TL_System/railway_trio/client/remote_client_task_event.c:328-354 | After CANCEL of a waiting task its entry is empty until it is filled again, so the task never runs, and its window is admissible again. |
| TaskTable.UnixTime | TL_System/railway_trio/client/client_task_queue.c:19-23 | Date-times count tenths of microseconds from the year 1 of the calendar, the result counts seconds from 1970, and the two topmost bits do not matter. |
| TaskQueue.TaskDatabase.Find | TL_System/railway_trio/client/client_task_queue.c:228-251 | The lookup loops return the first entry that matches, or none. |
| TaskQueue.TaskDatabase.CheckNewTask | TL_System/railway_trio/client/client_task_queue.c:254-280 | The answer is 0 if and only if the window is not over and apart from every occupied one; otherwise the code is that of expiry or of the first overlapping entry. |
| TaskQueue.TaskDatabase.UpdateTask | TL_System/railway_trio/client/client_task_queue.c:100-112 | Only the status of that entry changes. |
| TaskQueue.TaskDatabase.DelTask | TL_System/railway_trio/client/client_task_queue.c:114-123 | That entry becomes free, the others stay. |
| TaskQueue.TaskDatabase.RecvTask | TL_System/railway_trio/client/remote_client_task_event.c:111-227 | An admissible task fills the first free entry; a refused one leaves the table unchanged. |
| TaskQueue.TaskDatabase.StartTask | TL_System/railway_trio/client/remote_client_task_event.c:231-256 | Only a queued, accepted task starts running, and the answer says so. |
| TaskQueue.TaskDatabase.StartTaskManual | TL_System/railway_trio/client/remote_client_task_event.c:258-277 | A manual START is refused while any task runs, acts on the first entry with that id, and answers 0 exactly when it started something. |
| TaskQueue.TaskDatabase.StopTask | TL_System/railway_trio/client/remote_client_task_event.c:280-304 | A running task is stopped, a queued one is removed, anything else is refused. |
| TaskQueue.TaskDatabase.StopTaskManual | TL_System/railway_trio/client/remote_client_task_event.c:306-326 | The same for the first entry with that id; the answer is 0 exactly when something changed. |
| TaskQueue.TaskDatabase.CancelTask | TL_System/railway_trio/client/remote_client_task_event.c:328-354 | Only a queued task is removed. |
| TaskQueue.TaskDatabase.ReportStopReason | TL_System/railway_trio/client/remote_client_task_event.c:380-418 | Only a stopped task goes on to uploading. |
| TaskQueue.TaskDatabase.UploadDone | TL_System/railway_trio/client/remote_client_upload_event.c:259-264 | The first entry with that id is cleared. |
| TaskQueue.TaskDatabase.CheckAndProcessTask | TL_System/railway_trio/client/remote_client_task_event.c:462-488 | In place, every entry is stopped and started by the clock independently of the others. |
| TaskQueue.TaskDatabase.GetTaskInterval | TL_System/railway_trio/client/remote_client_task_event.c:420-444 | The loop over the array computes the interval that the timing theorems are about. |
| EventLoop.UnixOrder | TL_System/railway_trio/client/client_task_queue.c:19-23 | From the epoch on, the conversion to seconds keeps the order, strictly so on whole seconds. |
| EventLoop.TickSettles | TL_System/railway_trio/client/remote_client_task_event.c:462-488 | After a tick no queued task is past its start and every running one is inside its window, or up to a second past it if it is brief and timeouts carry. |
| EventLoop.LeastBounds | TL_System/railway_trio/client/remote_client_task_event.c:427-443 | The interval is no longer than what any entry asks for. |
| EventLoop.TimeoutBounds | TL_System/railway_trio/client/client_connection.c:172-179 | The timeout is between 1 and 61 seconds and, entry by entry, never longer than the time to the next boundary, or 1. |
| EventLoop.WakesForAReason | TL_System/railway_trio/client/client_connection.c:172-179 | The timeout is never shorter than some reason asks: the local side, a minute, an entry's boundary, the report or the upload period. |
| EventLoop.WakesForPeriods | TL_System/railway_trio/client/remote_client_event.c:70-88 | The loop wakes in time for the report of every minute and the upload of every ten seconds. |
| EventLoop.SleepInSeconds | TL_System/railway_trio/client/client_connection.c:212-232 | In seconds of the clock a sleep exceeds the computed interval by at most one, and only when the left-over microseconds carry. |
| EventLoop.NeverCarries | TL_System/railway_trio/client/client_connection.c:212-232 | Microseconds are left over only after a message cut a sleep short and `select` kept the rest. |
| EventLoop.SleepKeeps | TL_System/railway_trio/client/client_connection.c:228-232 | Waking up, no queued task is past its start by more than the carry, and a running one at most one second, and the carry, past its limit. |
| EventLoop.MessageKeeps | TL_System/railway_trio/client/remote_client_task_event.c:111-418 | Any message but a START before its time keeps what holds before a tick. |
| EventLoop.StartKeepsExactly | TL_System/railway_trio/client/remote_client_task_event.c:258-277 | A START keeps it if and only if it does nothing or the start second of the task it names has come. |
| EventLoop.EveryTurnReady | TL_System/railway_trio/client/client_connection.c:209-247 | What holds before a tick holds at the start of every turn of every run. |
| EventLoop.RunningInsideWindow | TL_System/railway_trio/client/client_connection.c:209-247 | In every run with accepted starts and no START before its time, after every tick each running task is inside its window and no queued one is past its start; if timeouts carry, a task that starts and stops within one second may run one second later. |
| EventLoop.TwoRunningMeet | TL_System/railway_trio/client/remote_client_task_event.c:462-488 | Of two running tasks the earlier one stops in the second in which the later one starts, or, if timeouts carry, is brief and stops one second before. |
| EventLoop.AtMostOneRunning | TL_System/railway_trio/client/remote_client_task_event.c:462-488 | With whole-second windows at most one task runs, although the automatic start never looks for a running one; if timeouts carry, no window may start and stop at the same second. |
| EventLoop.StartsAtItsStart | TL_System/railway_trio/client/remote_client_task_event.c:476-481 | The next turn comes at most at a queued task's start, or one second later if timeouts carry, and starts it as soon as its start has come. |
| EventLoop.StopsAfterItsStop | TL_System/railway_trio/client/remote_client_task_event.c:469-474 | The next turn comes at most one second past a running task's limit, or two if timeouts carry, and stops it as soon as its stop is past. |
| EventLoop.TurnFollows | TL_System/railway_trio/client/client_connection.c:209-247 | From one tick to the next an untouched entry goes by the clock, and neither boundary is passed over by more than the carry. |
| EventLoop.FollowsClock | TL_System/railway_trio/client/client_connection.c:209-247 | In every run, a task in the queue at some turn, even if it arrived late, and untouched since is queued before its start, runs until its stop and is stopped after it; some turn is at the very second of its start, or if timeouts carry the next, and some turn just after its stop. |
| EventLoop.SharedSecondRun | TL_System/railway_trio/client/remote_client_task_event.c:462-488 | A run of two turns in which two tasks with disjoint fractional-second windows run at once. |
| EventLoop.StartPassedOver | TL_System/railway_trio/client/client_connection.c:212-232 | For any window there is a run in which no turn is at its start second and the task is started one second late. |
| EventLoop.CarriedRun | TL_System/railway_trio/client/client_connection.c:212-232 | A run in which a brief task is still running when the next second's task starts. |
| EventLoop.TogetherExactly | TL_System/railway_trio/client/remote_client_task_event.c:462-488 | Two admissible windows can run at once if and only if the earlier one stops in the second in which the later one starts or, if timeouts carry, is brief and stops one second before. |
| EventLoop.IdleUntil | TL_System/railway_trio/client/client_connection.c:209-247 | The loop can pass the seconds up to the earlier task's start while the later one, started by hand, goes on running. |
| EventLoop.StartByHand | TL_System/railway_trio/client/remote_client_task_event.c:258-277 | In one turn two tasks with disjoint windows are admitted and the later one is started by hand, before its time. |
| EventLoop.ManualStartRunsTwo | TL_System/railway_trio/client/remote_client_task_event.c:258-277 | For any two disjoint windows there is a run with one START before its time in which, at the tick of the earlier start, both tasks run. |
| ClientLoop.Dispatch | TL_System/railway_trio/client/remote_client_task_event.c:111-418 | The handler that a message selects makes of the array what the message makes of the table. |
| ClientLoop.OneTurn | TL_System/railway_trio/client/client_connection.c:209-247 | One turn on the array computes the timeout and the table of the loop over time. |
| ClientLoop.Turns | TL_System/railway_trio/client/client_connection.c:209-247 | Any number of turns from an empty array ends with the table of the loop over time. |
| FrameCodec.FieldsDecode | TL_System/railway_trio/client/remote_client_event.c:36-40 | Length, type and signed state survive the little-endian layout of the header. |
| FrameCodec.RoundTrip | TL_System/railway_trio/client/remote_client_event.c:25-62 | A built frame carries its own length and decodes to the same type, state, id and data. |
| FrameCodec.FrameLayout | TL_System/railway_trio/client/remote_client_connection.h:24-37 | Byte by byte, a frame has the packed layout of the struct: head, length, token, type, state, id, data, digest of all before it, end mark. |
| FrameCodec.Encoder.FillFields | TL_System/railway_trio/client/remote_client_event.c:31-44 | Header, id and data land at their offsets; without an id the old id bytes stay. |
| FrameCodec.Encoder.Seal | TL_System/railway_trio/client/remote_client_event.c:45-51 | The digest of the covered bytes and the end mark follow them. |
| FrameCodec.Encoder.FillFrameBuffer | TL_System/railway_trio/client/remote_client_event.c:25-62 | The buffer starts with the whole encoded frame, the bytes behind it are unchanged, and the token advances. |
| RemoteFraming.FramesAreWellFramed | TL_System/railway_trio/client/remote_client_connection.c:163-203 | A stream of frames shows the reader only lengths that fit its buffer; a length field below 43 counts as 43. |
| RemoteFraming.UniqueReading | TL_System/railway_trio/client/remote_client_connection.c:163-203 | A byte stream has one reading as frames: what was delivered is a prefix of what was sent. |
| RemoteFraming.PartialIsNotWhole | TL_System/railway_trio/client/remote_client_connection.c:163-203 | Bytes short of a frame's end are not a list of frames, so nothing whole is held back. |
| RemoteFraming.RemoteConnection.Append | TL_System/railway_trio/client/remote_client_connection.c:170-189 | A read moves bytes from the socket to the end of the buffer, in order. |
| RemoteFraming.RemoteConnection.Deliver | TL_System/railway_trio/client/remote_client_connection.c:196-202 | Exactly the buffered frame is delivered and the buffer is empty. |
| RemoteFraming.RemoteConnection.RecvRemoteServer | TL_System/railway_trio/client/remote_client_connection.c:163-203 | Delivered, buffered and unread bytes together are conserved, at most one frame is delivered, the buffer never holds a byte of the next frame, and every call with bytes to read makes progress. |
| RemoteFraming.ReceiveAll | TL_System/railway_trio/client/remote_client_connection.c:163-203 | Whatever the read sizes, up to the first failed read, the frames sent are delivered whole and in order; as many reads of any positive sizes as there are bytes deliver all of them. |
| RemoteFraming.ContentsComeBack | TL_System/railway_trio/client/remote_client_event.c:25-62 | The frames of one encoder are valid for the reader and decode to the contents put in, in order. |
| LocalFraming.ReadInPieces | TL_System/railway_trio/client/local_client_connection.c:108-119 | Reading a stream in two pieces gives the frames and the rest of reading it at once. |
| LocalFraming.CommandComesBack | TL_System/railway_trio/core/core.h:206-216 | A command laid out as the header struct says has the size that the reader takes for it, and comes back. |
| LocalFraming.CommandsComeBack | TL_System/railway_trio/client/local_client_connection.c:108-119 | A stream of commands is read as those commands, with nothing left over. |
| LocalFraming.LocalConnection.DispatchAll | TL_System/railway_trio/client/local_client_connection.c:108-115 | The loop stops, having dispatched exactly the greedy frames and leaving exactly the unread tail. |
| LocalFraming.LocalConnection.MoveToFront | TL_System/railway_trio/client/local_client_connection.c:117-119 | The unread bytes move to the front, overlapping or not. |
| LocalFraming.LocalConnection.RecvLocalServer | TL_System/railway_trio/client/local_client_connection.c:86-123 | After any chunk, the frames of the whole stream so far have been dispatched and the buffer holds its tail; a closed connection starts over. |
| LocalFraming.ReceiveChunks | TL_System/railway_trio/client/local_client_connection.c:86-123 | Every cut of a stream into chunks that fit dispatches the same frames: those of the whole stream. |
| Upload.PayloadUnpacks | TL_System/railway_trio/client/remote_client_upload_event.c:28-54 | Fragment number, length, name and bytes can be taken apart again by the server. |
| Upload.ReplyComesBack | TL_System/railway_trio/client/remote_client_upload_event.c:28-54 | Every reply fits the receiver's buffer as one frame of type 3 and state 303 or 304, and comes back from it uncompressed with its fragment, bytes and final mark. |
| Upload.Uploader.UploadFile | TL_System/railway_trio/client/remote_client_upload_event.c:56-136 | Without a task or a file nothing is sent or remembered; otherwise the reply is the one the upload theorems are about, wrap-around and seek errors included. |
| Upload.Uploader.CheckAndRequest | TL_System/railway_trio/client/remote_client_upload_event.c:140-206 | The trace counts as stopped exactly when two checks see the same non-zero length; a request goes out when uploading or when one more whole fragment exists; the seventh look in a row at a missing file deletes the task. |
| Upload.Uploader.UploadSucceeded | TL_System/railway_trio/client/remote_client_upload_event.c:259-264 | After a success the fragment count starts over. |
| Upload.AnswerInStep | TL_System/railway_trio/client/remote_client_upload_event.c:96-132 | With the server in step, the reply is the next 1024 bytes, or the rest of the file, or none. |
| Upload.StepKeeps | TL_System/railway_trio/client/remote_client_upload_event.c:56-136 | Growth, checks and requests keep what the server holds a prefix of the file, in whole fragments. |
| Upload.AlwaysPrefix | TL_System/railway_trio/client/remote_client_upload_event.c:56-136 | In every session the server holds a prefix of the file, and nothing it holds changes any more. |
| Upload.FreshPrefix | TL_System/railway_trio/client/remote_client_upload_event.c:56-136 | In particular in every session that begins with nothing held, whatever an earlier upload left in the statics. |
| Upload.TraceStopMeans | TL_System/railway_trio/client/remote_client_upload_event.c:179-184 | `trace_stop` is what it was while there was no check, and from then on says whether the last two lengths seen are equal and not zero. |
| Upload.LatestExactly | TL_System/railway_trio/client/remote_client_upload_event.c:114-132 | Exactly which histories let a request be answered with UPLOAD_LATEST: status UPLOADING, less than a whole fragment to send, and lengths that look stopped. |
| Upload.LatestTooEarly | TL_System/railway_trio/client/remote_client_upload_event.c:23 | Histories, with two checks and with none, in which UPLOAD_LATEST goes out before the last byte is written. |
| Upload.LatestIsWhole | TL_System/railway_trio/client/remote_client_upload_event.c:119-132 | After UPLOAD_LATEST the server holds the whole file as of that moment; it ends with the whole file if and only if nothing is written later. |
| Upload.FragmentsKeepMeaning | TL_System/railway_trio/client/remote_client_upload_event.c:100-111 | A full fragment, once sent, is answered the same for ever. |
| Upload.AskingFinishes | TL_System/railway_trio/client/remote_client_upload_event.c:96-132 | Once stopped and uploading, one request per remaining fragment ends with the whole file, with an empty last fragment when the length is a multiple of 1024. |
| Upload.RequestIsAnswered | TL_System/railway_trio/client/remote_client_upload_event.c:193-195 | Before the end of a task a request goes out exactly when the next fragment would be answered. |
| Upload.Serve | TL_System/railway_trio/client/remote_client_upload_event.c:56-206 | The uploader itself, asked and looking at the file in any order, gives the server what the session theorems are about. |
| WeightedSampler.DrawnOnce | cstock/digital_none/none_core.c:363-370 | No residue belongs to two buckets. |
| WeightedSampler.PrefixBounds | cstock/digital_none/none_core.c:359-361 | The sum of the counters, the modulus, is between 41 and 244 times 41. |
| WeightedSampler.Sample | cstock/digital_none/none_core.c:356-371 | The modulus is positive and the loop always finds the bucket that the residue belongs to. |
| WeightedSampler.HitCounts | cstock/digital_none/none_core.c:363-370 | Among all residues each bucket is hit as often as its counter says, plus one for the first and minus one for the last. |
| WeightedSampler.Feedback | cstock/digital_none/none_core.c:422-446 | The in-place reward and renormalisation of one cell equal the update that the theorems are about. |
| WeightedSampler.FeedbackMeans | cstock/digital_none/none_core.c:424-444 | The drawn counter, and no other, changes by the feedback, not below 1; then all are halved, rounding up, if one has reached 245, doubled if none exceeds 80, and left alone otherwise. |
| WeightedSampler.DrawsChange | cstock/digital_none/none_core.c:363-444 | In the middle range the number of residues that draw a bucket changes by exactly the feedback for the drawn bucket and not at all for the others. |
| WeightedSampler.OrderKept | cstock/digital_none/none_core.c:424-444 | Feedback keeps the order of the other buckets. |
| WeightedSampler.RewardRaisesShare | cstock/digital_none/none_core.c:424-444 | A positive reward never lowers the share of the drawn bucket unless the counters are halved, and then if and only if the rounding of the others outweighs it. |
| WeightedSampler.RewardLowersShare | cstock/digital_none/none_core.c:432-438 | A cell in which it does. |
| WeightedSampler.FeedbackKeepsRange | cstock/digital_none/none_core.c:426-444 | Every cell in 1..244 stays there, whatever is rewarded, if and only if the feedback is at most 11. |
| WeightedSampler.LargeFeedbackWraps | cstock/digital_none/none_core.c:428-429 | For every feedback of 12 or more some cell in range gets a zero counter. |
| WeightedSampler.AlwaysUsable | cstock/digital_none/none_core.c:357-446 | After any log of updates with feedback at most 11, counters are in range, the modulus is positive, and every bucket can be drawn unless it is the last with counter 1. |
| NtpFixedPoint.UsecInRange | TL_System/railway_trio/ntpclient/ntpclient.c:107 | Every 32-bit fraction converts to 0..999999 microseconds without wrap-around. |
| NtpFixedPoint.FractionRoundTrip | TL_System/railway_trio/ntpclient/ntpclient.c:101-107 | Below a second the conversion fits 32 bits, and converting back is off by -380 to 379 microseconds. |
| NtpFixedPoint.FractionIsClose | TL_System/railway_trio/ntpclient/ntpclient.c:101 | The fraction is below the exact one by less than twelve units of 2^-32 s. |
| NtpFixedPoint.UsecIsClose | TL_System/railway_trio/ntpclient/ntpclient.c:107 | The microseconds of every 32-bit fraction are within 381 of the exact ones. |
| NtpFixedPoint.NtpDiff | TL_System/railway_trio/ntpclient/ntpclient.c:305-319 | Exact in units of 2^-32 s, less one unit when the fraction borrows, if and only if the whole seconds fit an int; otherwise off by 2^32 s. |

## Left out

- FourierTransform.RootIsTwiddle: that cos(2 pi/N) - i sin(2 pi/N) has modulus one and its N/2-th power is -1 is trigonometry and taken as given; for N = 4 it is shown.
- Floating-point rounding: reals are exact, so the error of `float` and `double` is not modelled.
- FftInPlace.Transform: calls of `cos`, `sin` and `pow` are the twiddle and exact powers of two; `fft`, `get_power_spectrum` and the filter code around them are fixed-size wrappers.
- PhaseFrequency.NewFrequency: the conversion to int does not overflow; where a box on samples with a negative error bar leads to a quotient by zero its result is arbitrary, and only the 250 ppm limit is promised.
- PhaseLock.PhaseLoop.ContemplateData: returns the verdict and the gross shift; PhaseFrequency.NextFrequency makes the returned frequency of it. The write-backs of pass 4 into the two segment arrays are left out: nothing reads them. Times must increase and fit 32 bits.
- Md5Stream.Md5Context.Final: the partial clearing of the context at its end has no effect on the digest; a big-endian host would need another byte reversal than the one in the file.
- Md5Stream.Md5Context.Update: the data are a sequence value, so a source that overlaps the context is not modelled.
- TaskQueue.TaskDatabase.RecvTask: the parsing of the task record, its intervals and phone number, and all replies with their codes are left out; the reply to a refused task is wrong in the code (an assignment where a comparison was meant).
- TaskQueue.TaskDatabase.StartTask: the answer of its mistyped admission check is arbitrary; replies and `sync_task` are left out.
- TaskQueue.TaskDatabase.CheckAndProcessTask: the clock reads the same value during one pass.
- EventLoop.RunningInsideWindow: windows are well-formed (epoch <= start <= stop), the local interval is at least 1, starts are accepted, and failing selects with their extra sleep are left out.
- EventLoop.FollowsClock: a task that a message stops, cancels or re-admits is covered by TaskTable.LifeCycle and TaskTable.TaskHistory, not by the clock.
- ClientLoop.OneTurn: the sleep and the messages of a turn are parameters; that the loop never ends and the I/O of its body are left out.
- FrameCodec.Encoder.FillFrameBuffer: a frame that does not fit the caller's buffer is excluded; `check_frame_fcs` is never active.
- RemoteFraming.RemoteConnection.RecvRemoteServer: one connection only: a reconnect does not reset the partial length; a length field above 1400 would overrun the buffer and is excluded; a failed read keeps the partial frame and returns -1.
- LocalFraming.LocalConnection.RecvLocalServer: a chunk that does not fit behind the waiting bytes would overrun the buffer and is excluded; fewer than eight bytes left mean stop, which gives the same result as reading the zeroed header.
- Upload.Uploader.UploadFile: how the file name is made of the task, and failing file operations other than opening and seeking, are left out; file lengths fit an int.
- Upload.Uploader.CheckAndRequest: the overflow of the fragment count and the cached choice of `get_uploading_task` are left out; in EventLoop the deletion is a FileMissing action at any turn.
- WeightedSampler.Sample: the random residue is a parameter and the loop is sequential; the sum over inputs that follows is left out.
- NtpFixedPoint.NtpDiff: the borrow from the smallest int wraps around, as it does on the usual compilers.
- Sockets, files, memory mapping, threads, logging, device code, the command queue, the dial machine of the local client, the second copy of the client, the shared-buffer receiver of the core, and the stock scripts are not part of this model.
