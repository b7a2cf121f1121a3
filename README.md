# BB84 quantum key distribution simulation, modelled in Dafny

This project models the core of a BB84 key-distribution simulator:

- **Qubits** (`backend/core/qubit.py`). Basis Z or X, a bit, the state label, and measurement: the preparation basis gives back the bit, the other basis gives a coin.
- **Eavesdropper** (`backend/core/eavesdropper.py`). An intercept-resend eavesdropper that records what it measured. It is a class whose fields the methods update.
- **Protocol** (`backend/core/bb84.py`). The six protocol steps: prepare, optional eavesdropping, Bob's measurement, basis sifting, error estimation on a shuffled sample, and privacy amplification.
- **Qiskit protocol** (`backend/core/qiskit_bb84.py`). The same steps, with qubits held as circuits and Bob's measurement done by a simulator.
- **Key utilities** (`backend/utils/key_utils.py`). Hex, byte and binary encodings, Hamming distance, XOR, grouped display and the key-balance check.
- **Statistics** (`backend/utils/statistics.py`). Ratios, the security verdict, the secure key rate, the efficiency score and rating, and run comparison.
- **Browser protocol** (`raw.py`, lines 5-157 and 177-184). The JavaScript version of the protocol and its hex encoder.

Randomness is never drawn inside the model. Every random choice of a run is given as an argument:

- per-position Eve draws `EveDraw(roll, basis, coin)`, whose roll lies in [0, 1) like `random.random()`;
- Bob's bases and wrong-basis coins;
- the `randbelow` picks of Python's Fisher-Yates `random.shuffle`;
- the `Math.random()` values of the JavaScript code, as reals in [0, 1).

Each theorem therefore holds for every outcome of the random draws.

Where the source changes state step by step, the model does too:

- `Eavesdropper` is a class whose methods have `modifies` clauses.
- The shuffle works in place on an `array`.
- Sifting (`Protocol.BasisSifting`), the encoders and decoders of `KeyUtils`, the browser error check (`JsProtocol.EstimateError`) and the browser hex encoder are loops. The error check of `bb84.py` loops inside its shuffle, `Shuffling.ShuffleInPlace`, which `Protocol.EstimateErrors` calls.

Each such method is proved equal to a specification function, and the properties are proved as lemmas about that function.

Modules: `Basics`, `Qubits`, `Eavesdropping`, `IndexSets` (ascending index lists and selection), `Shuffling`, `Protocol`, `QiskitProtocol`, `KeyUtils`, `Statistics`, `JsProtocol`.

Some modelling choices:

- **Sample size.** `int(n * 0.1)` is modelled as `n / 10`. The double nearest 0.1 lies slightly above 1/10, so the two agree for every list length a run can reach.
- **Shared steps in the Qiskit protocol.** `qiskit_bb84.py` repeats the constructor checks (lines 55-63), sifting (200-210), error estimation (219-232) and privacy amplification (242-247) of `bb84.py` verbatim. Those steps reuse `Protocol.NewProtocol`, `Protocol.BasisSifting`, `Protocol.ErrorEstimation` and `Protocol.FinalKeySpec`.
- **Helpers in `bb84.py`.** Its `bits_to_hex` (lines 313-337) and `bits_to_string` (340-350) are the same code as in `key_utils.py`. They are modelled once, as `KeyUtils.BitsToHex` and `KeyUtils.BitsToString`.

## Model

| member | source | states |
|---|---|---|
| Qubits.NewQubit | backend/core/qubit.py:39-47 | construction succeeds exactly when the basis is "Z" or "X" and the bit is 0 or 1; an invalid basis is reported before an invalid bit; a built qubit carries the given basis and bit |
| Qubits.State | backend/core/qubit.py:49-62 | the label is a ket of three characters (bar, symbol, right angle bracket); its symbol is a digit exactly for the Z basis and is `0` or `+` exactly for the bit 0 |
| Qubits.StateInjective | backend/core/qubit.py:59-62 | the state label is a bijection: two qubits have the same label exactly when they are equal |
| Qubits.MeasureIn | backend/core/qubit.py:86-95 | measuring in the preparation basis returns the stored bit; in the other basis it returns the coin |
| Qubits.Measure | backend/core/qubit.py:64-95 | a basis name other than "Z"/"X" fails with InvalidBasis; the matching name returns the bit; the other name returns the coin |
| Qubits.OutcomeIndependentOfDrawIff | backend/core/qubit.py:86-95 | the outcome does not depend on the coin if and only if the measurement basis is the preparation basis |
| Qubits.RepeatedMeasurementStable | backend/core/qubit.py:86-90 | any number of repeated measurements in the preparation basis all return the stored bit |
| Qubits.CreateRandomQubit | backend/core/qubit.py:146-157 | the qubit has the drawn basis and the drawn bit |
| Qubits.CreateQubitBatch | backend/core/qubit.py:160-170 | exactly max(0, count) qubits, qubit i built from draw i |
| Qubits.MeasureQubitBatch | backend/core/qubit.py:173-190 | fails on a length mismatch or an invalid basis name; otherwise one outcome per qubit, outcome i being `measure` of qubit i in basis i |
| Eavesdropping.Resend | backend/core/eavesdropper.py:97-130 | the resent qubit has Eve's basis and her measured bit; when her basis is the original one the qubit is unchanged |
| Eavesdropping.InterceptedOutput | backend/core/eavesdropper.py:82-95 | output position i is the resent qubit when position i is intercepted and the identical original qubit otherwise |
| Eavesdropping.InterceptedIndices | backend/core/eavesdropper.py:84-90 | recorded indices are strictly increasing, below the input length, and name exactly the intercepted positions |
| Eavesdropping.InterceptedRecords | backend/core/eavesdropper.py:116-128 | the j-th recorded basis and bit are Eve's basis and her measurement at the j-th recorded index |
| Eavesdropping.BasisCountsPartition | backend/core/eavesdropper.py:150-168 | the Z count plus the X count is the number of recorded bases |
| Eavesdropping.BitCountsPartition | backend/core/eavesdropper.py:150-168 | the 0 count plus the 1 count is the number of recorded bits |
| Eavesdropping.StatsOf | backend/core/eavesdropper.py:150-168 | the statistics' basis and bit counts partition the records; total, rate and indices are copied |
| Eavesdropping.Eavesdropper.constructor | backend/core/eavesdropper.py:49-62 | a new eavesdropper has the given probability and strategy and empty records |
| Eavesdropping.Eavesdropper.Create | backend/core/eavesdropper.py:38-62 | succeeds exactly for a probability in [0,1] and a known strategy name; otherwise InvalidProbability, then InvalidStrategy; on success all records are empty |
| Eavesdropping.Eavesdropper.InterceptAndResend | backend/core/eavesdropper.py:97-130 | returns the resent qubit and appends Eve's bit and basis to her records, nothing else changes |
| Eavesdropping.Eavesdropper.Intercept | backend/core/eavesdropper.py:64-95 | passive: input returned, records untouched; intercept-resend: output and appended records are those of the reference interception, and the four records grow in lockstep |
| Eavesdropping.InterceptNoneAtZero | backend/core/eavesdropper.py:82-95 | with rolls in [0,1), an intercept probability of 0 forwards every qubit unchanged and records nothing |
| Eavesdropping.InterceptEveryAtOne | backend/core/eavesdropper.py:82-95 | with rolls in [0,1), an intercept probability of 1 intercepts every position: the recorded indices are 0, 1, ..., n-1 and every forwarded qubit is Eve's resent one |
| Eavesdropping.Eavesdropper.Reset | backend/core/eavesdropper.py:132-137 | all four records are empty; probability and strategy are unchanged |
| Eavesdropping.Eavesdropper.GetStatistics | backend/core/eavesdropper.py:139-168 | reads only; basis and bit counts partition the records; the total equals the number of recorded bases and indices |
| Eavesdropping.CalculateExpectedQber | backend/core/eavesdropper.py:177-207 | fails with InvalidProbability outside [0,1]; otherwise the value is a quarter of the rate, within [0, 0.25] |
| Eavesdropping.SimulateInterception | backend/core/eavesdropper.py:210-226 | fails outside [0,1]; otherwise a fresh intercept-resend eavesdropper whose output and records are those of the reference interception |
| IndexSets.AscendingInMembers | backend/core/bb84.py:262 | `sorted` of an index set is strictly increasing, below the bound, and has exactly the set's members below it |
| IndexSets.AscendingUnique | backend/core/bb84.py:262 | a strictly increasing list is the sorted list of its own members |
| IndexSets.SelectAppend | backend/core/bb84.py:301-307 | selecting by a concatenation of index lists is the concatenation of the selections |
| Shuffling.SwapPermutes | backend/core/bb84.py:260-261 | a swap is a permutation |
| Shuffling.ShuffleStepsPermutes | backend/core/bb84.py:260-261 | the Fisher-Yates steps keep the length and produce a permutation |
| Shuffling.ShuffleKeepsIndexList | backend/core/bb84.py:260-261 | shuffling a distinct, bounded index list keeps it distinct and bounded |
| Shuffling.ShuffleInPlace | backend/core/bb84.py:260-261 | the array afterwards is the Fisher-Yates shuffle of its old contents, and a permutation of them |
| Protocol.NewProtocol | backend/core/bb84.py:82-90 | rejects key_length <= 0 with InvalidKeyLength and then a multiplier < 2 with InvalidMultiplier; a valid configuration keeps both values and the 0.11 threshold |
| Protocol.TransmissionCount | backend/core/bb84.py:170 | key_length * multiplier, at least twice the key length |
| Protocol.AlicePrepare | backend/core/bb84.py:170-177 | exactly key_length * multiplier bits, bases and qubits, with qubit i = (bases[i], bits[i]) |
| Protocol.BobMeasure | backend/core/bb84.py:191-197 | Bob keeps his bases; where his basis matches the qubit's he reads its bit, elsewhere his coin |
| Protocol.SiftPrefixSelects | backend/core/bb84.py:223-234 | after k steps the loop's index list is the ascending list of matching positions below k, and the sifted bits are the bits at those positions |
| Protocol.SiftCorrect | backend/core/bb84.py:223-234 | the sifted index list is strictly increasing and holds exactly the positions where the bases agree; sifted bit j of each party is that party's bit at index j; the three lists have equal length |
| Protocol.BasisSifting | backend/core/bb84.py:201-234 | the loop computes the sifting specification (and so meets SiftCorrect) |
| Protocol.SampleSize | backend/core/bb84.py:256-257 | max(1, min(n/10, n/2)): 1 below ten bits, n/10 from ten on, never more than half of n when n >= 2 |
| Protocol.CheckedIndicesSpec | backend/core/bb84.py:256-262 | the checked indices are sorted, distinct, within [0,n), and number min(sample size, n) |
| Protocol.CountMismatches | backend/core/bb84.py:265-268 | the error count never exceeds the number of checked indices |
| Protocol.NoMismatchIff | backend/core/bb84.py:265-268 | the error count is 0 exactly when the two keys agree at every checked index |
| Protocol.ErrorRate | backend/core/bb84.py:271 | errors / sample size, a value in [0,1] that is 0 exactly when there are no errors |
| Protocol.ErrorEstimation | backend/core/bb84.py:236-276 | sample size and checked indices as above; errors counts mismatches at the checked indices and is at most the sample size; is_secure holds exactly when the rate is at most 0.11 |
| Protocol.ErrorFreeIff | backend/core/bb84.py:265-274 | no errors exactly when the keys agree at the checked indices; equal keys give rate 0 and a secure verdict |
| Protocol.EstimateErrors | backend/core/bb84.py:236-276 | the method with its in-place shuffle computes the error-estimation specification |
| Protocol.RemovePrefixSelects | backend/core/bb84.py:301-307 | the filter over the first k positions keeps exactly the bits at unchecked positions below k, in order |
| Protocol.RemovePrefixCount | backend/core/bb84.py:301-307 | the kept and the checked positions below k together number k |
| Protocol.PrivacyAmplification | backend/core/bb84.py:278-309 | the final key is at most key_length long and a prefix of the unchecked bits |
| Protocol.FinalKeySpec | backend/core/bb84.py:301-307 | the final key is a prefix of the bits at unchecked positions in ascending order; with distinct in-range checked indices its length is min(key_length, n - checked) |
| Protocol.Run | backend/core/bb84.py:108-161 | a run fails (InvalidProbability) exactly when an eavesdropper is requested with a rate outside [0,1] |
| Protocol.Transmission | backend/core/bb84.py:111-117 | Eve's step fails exactly on an invalid rate; otherwise it forwards the reference transmission and Eve's statistics |
| Protocol.Execute | backend/core/bb84.py:92-161 | the method computes the run specification |
| Protocol.NoEavesdropperNoErrors | backend/core/bb84.py:111-131 | without Eve the sifted keys are identical, no error is found, the rate is 0, the run is secure and carries no eavesdropper statistics |
| Protocol.MismatchOnlyAtWrongBasisInterception | backend/core/bb84.py:111-131 | with Eve, a sifted mismatch lies at a position she intercepted in a basis other than Alice's, and that position is in her recorded indices |
| Protocol.RunSizes | backend/core/bb84.py:136-161 | total transmitted is key_length * multiplier; sifted <= transmitted; sample size and checked count as in error estimation; final key length is min(key_length, sifted - checked); the eavesdropper flag and statistics follow the request |
| QiskitProtocol.ToRegular | backend/core/qiskit_bb84.py:94-100 | conversion keeps length, and basis and bit at every position |
| QiskitProtocol.ToQiskit | backend/core/qiskit_bb84.py:101-105 | conversion back keeps length, and basis and bit at every position |
| QiskitProtocol.ConversionRoundTrip | backend/core/qiskit_bb84.py:94-105 | the two conversions are inverse to each other |
| QiskitProtocol.QiskitPrepare | backend/core/qiskit_bb84.py:158-169 | key_length * multiplier circuits, circuit i prepared with Alice's basis i and bit i |
| QiskitProtocol.QiskitBobMeasure | backend/core/qiskit_bb84.py:171-190 | Bob keeps his bases, and outcome i is the simulator's result for circuit i in his basis i |
| QiskitProtocol.QiskitRun | backend/core/qiskit_bb84.py:65-149 | fails exactly on an invalid rate with Eve present; a result carries the "Qiskit" tag |
| QiskitProtocol.QiskitRunSizes | backend/core/qiskit_bb84.py:86-148 | a successful run transmits key length x multiplier qubits, reports Eve present exactly when asked, carries Eve's statistics exactly when she ran, and its final key has min(key length, sifted - checked) bits, never more than the key length |
| QiskitProtocol.Execute | backend/core/qiskit_bb84.py:65-149 | the method computes the run specification |
| QiskitProtocol.QiskitNoEavesdropperNoErrors | backend/core/qiskit_bb84.py:85-127 | with a faithful simulator and no Eve, the sifted keys agree, no errors are found and the run is secure |
| QiskitProtocol.QiskitMismatchOnlyAtWrongBasisInterception | backend/core/qiskit_bb84.py:85-127 | with a faithful simulator, a sifted mismatch lies at a position Eve intercepted in a basis other than Alice's |
| KeyUtils.UnpackPack | backend/utils/key_utils.py:40 | reading w bits MSB-first as a number and writing it back with w bits gives the bits back |
| KeyUtils.PackUnpack | backend/utils/key_utils.py:67-68 | writing a number below 2^w as w bits MSB-first and reading them back gives the number |
| KeyUtils.NibbleValue | backend/utils/key_utils.py:40 | 8*b0 + 4*b1 + 2*b2 + b3 is the MSB-first value of the nibble |
| KeyUtils.HexDigit | backend/utils/key_utils.py:41 | the uppercase digit of a value below 16 parses back to that value |
| KeyUtils.HexOf | backend/utils/key_utils.py:23-43 | ceil(n/4) digits, so the empty input gives "" |
| KeyUtils.BitsToHex | backend/utils/key_utils.py:12-43 | the loop with its zero padding computes the hex specification |
| KeyUtils.DecodeHex | backend/utils/key_utils.py:62-68 | fails exactly when some character is not a hex digit; otherwise 4 bits per character |
| KeyUtils.HexToBits | backend/utils/key_utils.py:46-70 | the loop computes the hex-decoding specification, including the error case |
| KeyUtils.DecodeHexOf | backend/utils/key_utils.py:23-68 | decoding the hex of b gives b followed by zero padding to a multiple of 4 |
| KeyUtils.HexOfDecode | backend/utils/key_utils.py:23-68 | encoding the decoding of a valid hex string gives that string in uppercase |
| KeyUtils.BytesOf | backend/utils/key_utils.py:83-100 | ceil(n/8) bytes, so the empty input gives no bytes |
| KeyUtils.PadToByte | backend/utils/key_utils.py:87-89 | the copy is the input followed by the zeros that reach a multiple of 8 |
| KeyUtils.BitsToBytes | backend/utils/key_utils.py:73-100 | the method computes the packing specification on a copy of the input |
| KeyUtils.BitsOfBytes | backend/utils/key_utils.py:113-119 | 8 bits per byte |
| KeyUtils.BytesToBits | backend/utils/key_utils.py:103-119 | the loop computes the unpacking specification |
| KeyUtils.BytesOfBitsOf | backend/utils/key_utils.py:83-119 | packing the bits of some bytes gives the bytes back |
| KeyUtils.BitsOfBytesOf | backend/utils/key_utils.py:83-119 | unpacking the packed bits gives them back followed by zero padding to a multiple of 8 |
| KeyUtils.BitsToString | backend/utils/key_utils.py:150-164 | one character per bit, '1' exactly for 1 and '0' exactly for 0 |
| KeyUtils.StringToBits | backend/utils/key_utils.py:167-183 | fails with InvalidCharacter exactly when a character is not '0' or '1'; otherwise one bit per character |
| KeyUtils.StringBitsRoundTrip | backend/utils/key_utils.py:164-183 | parsing the string of some bits gives them back; printing a parsed string gives the string back |
| KeyUtils.HammingDistance | backend/utils/key_utils.py:186-205 | fails with LengthMismatch exactly on different lengths; otherwise at most the length |
| KeyUtils.HammingWeight | backend/utils/key_utils.py:208-218 | the number of ones, at most the length |
| KeyUtils.XorBits | backend/utils/key_utils.py:221-238 | fails with LengthMismatch exactly on different lengths; otherwise bit i is 1 exactly when the inputs differ at i |
| KeyUtils.DistanceIsWeightOfXor | backend/utils/key_utils.py:202-238 | the Hamming distance is the Hamming weight of the XOR |
| KeyUtils.XorInvolution | backend/utils/key_utils.py:235-238 | XOR with the same key twice gives the input back |
| KeyUtils.GroupedRoundTrip | backend/utils/key_utils.py:269-271 | deleting the spaces from the grouped display of a space-free string gives the string back |
| KeyUtils.GroupedLayout | backend/utils/key_utils.py:269-271 | the grouped display has one space between consecutive groups: length = raw length + max(0, ceil(raw length / g) - 1); character i is a space when i mod (g+1) = g and otherwise raw character (i div (g+1)) * g + i mod (g+1) |
| KeyUtils.FormatKeyDisplay | backend/utils/key_utils.py:241-273 | fails with InvalidFormat exactly for an unknown format; ungrouped hex and binary displays are the raw encodings |
| KeyUtils.FormatKeyDisplayHexExample | backend/utils/key_utils.py:254-255 | the key 10101101 in hex with groups of 2 displays as "AD" |
| KeyUtils.FormatKeyDisplayBinaryExample | backend/utils/key_utils.py:256-257 | the key 10101101 in binary with groups of 4 displays as "1010 1101" |
| KeyUtils.HexDisplayUngroups | backend/utils/key_utils.py:259-273 | deleting the spaces from the grouped hex display gives the hex encoding |
| KeyUtils.BinaryDisplayUngroups | backend/utils/key_utils.py:259-273 | deleting the spaces from the grouped binary display gives the binary string |
| KeyUtils.ValidateKeyQuality | backend/utils/key_utils.py:276-306 | ones + zeros = length with ones the Hamming weight; balance is ones/length in [0,1], or 0 for an empty key; balanced exactly when 0.4 <= balance <= 0.6 |
| Statistics.Ratio | backend/utils/statistics.py:25-67 | 0 for a zero denominator, otherwise the exact quotient; in [0,1] and 0 only for a zero numerator when 0 <= numerator <= denominator |
| Statistics.SiftingEfficiency | backend/utils/statistics.py:12-28 | 0 when nothing was transmitted; otherwise efficiency x transmitted = sifted; in [0,1] when 0 <= sifted <= transmitted |
| Statistics.Qber | backend/utils/statistics.py:31-48 | 0 when nothing was checked; otherwise QBER x checked = errors; in [0,1], and 0 exactly without errors, when 0 <= errors <= checked |
| Statistics.KeyRate | backend/utils/statistics.py:51-67 | 0 when nothing was transmitted; otherwise rate x transmitted = final key length; in [0,1] when 0 <= final key length <= transmitted |
| Statistics.QberMatchesErrorEstimation | backend/utils/statistics.py:45-48 | the QBER of a run's errors is the protocol's error rate, and the two security verdicts agree |
| Statistics.IsSecure | backend/utils/statistics.py:116-129 | secure exactly when the QBER is at most the threshold, the boundary included |
| Statistics.MutualInformation | backend/utils/statistics.py:83-89 | exactly 1 at QBER 0 and 1, otherwise 1 - h(qber) |
| Statistics.MutualInformationSymmetric | backend/utils/statistics.py:83-89 | for a symmetric entropy h, the mutual information at q and at 1 - q agree |
| Statistics.SecureKeyRate | backend/utils/statistics.py:108-113 | 0 whenever the QBER is at least 0.11, otherwise sifting efficiency times mutual information |
| Statistics.SecureKeyRateAgainstVerdict | backend/utils/statistics.py:108-129 | below 0.11 the run is secure and its rate is efficiency times mutual information; above 0.11 it is insecure with rate 0; at exactly 0.11 it is judged secure but its secure key rate is 0 |
| Statistics.ErrorFreeKeyRate | backend/utils/statistics.py:83-113 | at QBER 0 the secure key rate is the sifting efficiency |
| Statistics.ExpectedQberFromIntercept | backend/utils/statistics.py:132-147 | a quarter of the intercept rate, with no range check |
| Statistics.ExpectedQberAgreesWithEavesdropper | backend/utils/statistics.py:147 | agrees with the eavesdropper's expected QBER wherever that one succeeds; only the latter rejects rates outside [0,1] |
| Statistics.DetectableInterceptRate | backend/utils/statistics.py:129-147 | the expected QBER of an intercept rate is judged secure exactly for rates up to 0.44 |
| Statistics.QberScore | backend/utils/statistics.py:173 | the QBER term is in [0,30], 30 at QBER 0 and 0 from 0.11 on |
| Statistics.QberScoreNonIncreasing | backend/utils/statistics.py:173 | the QBER term never grows as the QBER grows |
| Statistics.EfficiencyScore | backend/utils/statistics.py:172-176 | the score is in [0,100] when efficiency and key rate are in [0,1] and the QBER is non-negative |
| Statistics.EfficiencyScoreMonotone | backend/utils/statistics.py:172-176 | the score grows with efficiency and key rate and shrinks with the QBER |
| Statistics.EfficiencyRating | backend/utils/statistics.py:237-256 | the five bands >=80, [60,80), [40,60), [20,40) and <20, each in both directions |
| Statistics.RatingMonotone | backend/utils/statistics.py:247-256 | a higher score never gets a lower rating |
| Statistics.Truncate | backend/utils/statistics.py:228 | `int()` truncates toward zero |
| Statistics.StatisticsSummary | backend/utils/statistics.py:179-234 | secure exactly when the QBER is at most 0.11; detected exactly when Eve is present and the run is insecure; the threshold is reported as 11; the rating is that of the score; for consistent counts all percentages and the score are in [0,100] |
| Statistics.SummaryFlags | backend/utils/statistics.py:221-223 | without Eve nothing is detected; with no errors the run is secure and nothing is detected |
| Statistics.SumOfBounds | backend/utils/statistics.py:274-276 | a sum of n values each within [lo,hi] is within [n*lo, n*hi] |
| Statistics.SecureCount | backend/utils/statistics.py:277 | the number of secure runs is at most the number of runs |
| Statistics.SecureCountAll | backend/utils/statistics.py:277 | every run is secure exactly when the secure count is the number of runs |
| Statistics.BestIndex | backend/utils/statistics.py:291 | `max` by score: no run scores higher, and the first such run is chosen |
| Statistics.WorstIndex | backend/utils/statistics.py:292 | `min` by score: no run scores lower, and the first such run is chosen |
| Statistics.CompareProtocolRuns | backend/utils/statistics.py:259-293 | an empty list gives nothing; otherwise secure + insecure = total, the best and worst runs are among the runs and bound every run's score, and the success rate is in [0,100] |
| Statistics.AverageBounds | backend/utils/statistics.py:274-276 | an average of values within [lo,hi] is within [lo,hi] |
| Statistics.AveragesArePercentages | backend/utils/statistics.py:274-276 | averages of percentages are percentages |
| Statistics.SuccessRateFull | backend/utils/statistics.py:277-289 | the success rate is 100 exactly when every run is secure |
| JsProtocol.JsTransmissionCount | raw.py:25-30 | keyLength * 4, or 0 for a non-positive key length |
| JsProtocol.JsAlicePrepare | raw.py:29-39 | keyLength * 4 bits, bases and qubits, with qubit i = (bases[i], bits[i]) |
| JsProtocol.JsEveIntercept | raw.py:101-112 | keeps the length; an intercepted slot is a new qubit in Eve's basis with her measured bit, any other slot is the original qubit |
| JsProtocol.JsEveInterceptAgrees | raw.py:101-112 | the browser interception equals the Python eavesdropper's output for the same draws |
| JsProtocol.Pick | raw.py:78 | `Math.floor(Math.random() * length)` is a valid index |
| JsProtocol.Splice | raw.py:79 | removing entry k shifts the later entries down by one, keeps distinctness and drops the removed value |
| JsProtocol.DrawnDistinct | raw.py:76-80 | indices drawn by splicing from a distinct list are distinct members of it |
| JsProtocol.DrawnInDrawingOrder | raw.py:76-80 | the checked indices come in drawing order, not sorted: rolls 0.5 then 0.0 over two bits give [1, 0] |
| JsProtocol.JsErrorEstimation | raw.py:70-89 | min(len, 50) distinct indices within the sifted list; errors counts the mismatches there and is at most that number; the rate is undefined (NaN) for an empty sample and errors/n otherwise |
| JsProtocol.EstimateError | raw.py:70-89 | the loop with its `splice` computes the error-check specification |
| JsProtocol.SliceTo | raw.py:97 | JavaScript `slice(0, end)` is a prefix of length min(end, len), counting from the end for a negative bound |
| JsProtocol.JsPrivacyAmplification | raw.py:92-98 | the final key is a prefix of the unchecked bits in order |
| JsProtocol.JsPrivacyAmplificationAgrees | raw.py:92-98 | for a positive key length it is the Python privacy amplification |
| JsProtocol.JsRun | raw.py:115-156 | keyLength * 4 transmissions; the reported counts are the lengths of Alice's bits, the sifted key and the final key |
| JsProtocol.Execute | raw.py:115-156 | the method computes the run specification |
| JsProtocol.JsNoEavesdropperNoErrors | raw.py:115-156 | without Eve the sifted keys are identical and no error is found; the rate is 0, or NaN when nothing was sifted |
| JsProtocol.JsMismatchOnlyAtWrongBasisInterception | raw.py:101-156 | with Eve, a sifted mismatch lies at a position she intercepted in a basis other than Alice's |
| JsProtocol.JsRunSizes | raw.py:70-98 | min(sifted, 50) checked indices; an undefined rate exactly when nothing was sifted; final key length min(keyLength, sifted - checked), empty for a non-positive key length |
| JsProtocol.JsHexOf | raw.py:177-184 | one digit per started group of four bits |
| JsProtocol.JsBitsToHex | raw.py:177-184 | the loop computes the unpadded hex specification |
| JsProtocol.JsHexOfWholeNibbles | raw.py:177-184 | on whole nibbles the browser encoder agrees with the Python one |
| JsProtocol.JsHexOfUnpadded | raw.py:177-184 | a short last group is read unpadded: [1] encodes as "1" here but as "8" in Python |

## Left out

- `Qubit.get_state_vector` (backend/core/qubit.py:97-124) uses 1/sqrt(2) in floating point; it is not modelled.
- The binary entropy `log2` of `calculate_mutual_information` is a parameter `h`, so only the endpoints and the algebraic structure are proved.
- `analyze_qber_trend` is not modelled: it rests on square roots and floating-point statistics.
- Every `round(...)` and `toFixed` is left out; the model reports unrounded real values, and reals are exact rather than IEEE doubles.
- `bits_to_base64` and `base64_to_bits` are not modelled: they wrap the base64 library of RFC 4648, section 4. The base64 branch of `format_key_display` receives the encoder as a parameter.
- KeyUtils.DecodeHex: accepts ASCII hex digits only, whereas Python's `int(c, 16)` also accepts other Unicode digit characters.
- The Qiskit circuit, simulator and state vector (`backend/core/qiskit_qubit.py`) are not modelled; the simulator is an oracle, required to be faithful in the basis the circuit was prepared in.
- QiskitProtocol.QiskitRun: Bob's coins are unused, because the simulator decides every outcome.
- Randomness is given per position rather than drawn from one stream, so the order in which the source consumes random numbers is not modelled.
- Protocol.SampleSize: `int(n * 0.1)` is modelled as `n / 10`, exact for every list length a run can reach, not as a double product.
- JsProtocol.Pick: `Math.random()` is a real in [0,1) and the floor is exact; a double rounding of the product is not modelled.
- JsProtocol.JsRun: the `siftingEfficiency` percentage string built with `toFixed` is left out.
- The React user interface of raw.py (everything outside lines 5-157 and 177-184) is not modelled.
- The FastAPI layer (`backend/api/models.py`, `backend/api/routes.py`), `backend/main.py` and the package `__init__.py` files are not part of this model.
- `__repr__`/`__str__` formatting and the `if __name__ == "__main__"` demo blocks are not modelled.
- The inner loops of the encoders (chunk padding, bit appending, byte packing, byte padding) are separate methods (`PadChunk`, `AppendBits`, `PackGroup`, `PadToByte`) rather than nested loops.
- Eavesdropping.Eavesdropper.Intercept: the model's qubits are values, so the "identical original object" of a forwarded qubit is stated as value equality.
