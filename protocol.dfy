/** The six-step pipeline of backend/core/bb84.py (`BB84Protocol`): Alice
    prepares, Eve may intercept, Bob measures, the two sides sift on
    matching bases, estimate the error rate on a random sample and keep the
    unchecked bits as the key. All random choices of a run are given in a
    `Draws` value; the theorems at the end hold for every choice of draws. */
module Protocol {
  import opened Basics
  import opened Qubits
  import opened Eavesdropping
  import opened IndexSets
  import opened Shuffling

  /** The security threshold `qber_threshold`. */
  const QberThreshold: real := 0.11

  /** The three attributes `BB84Protocol.__init__` sets; none is reassigned later. */
  datatype Config = Config(keyLength: int, transmissionMultiplier: int, qberThreshold: real)

  predicate ValidConfig(c: Config)
  {
    c.keyLength > 0 && c.transmissionMultiplier >= 2 && c.qberThreshold == QberThreshold
  }

  /** `BB84Protocol.__init__`: the key length is checked first, then the multiplier. */
  function NewProtocol(keyLength: int, transmissionMultiplier: int): (r: Result<Config>)
    ensures r.Ok? <==> keyLength > 0 && transmissionMultiplier >= 2
    ensures keyLength <= 0 ==> r == Err(InvalidKeyLength)
    ensures keyLength > 0 && transmissionMultiplier < 2 ==> r == Err(InvalidMultiplier)
    ensures r.Ok? ==> ValidConfig(r.value)
    ensures r.Ok? ==> r.value.keyLength == keyLength && r.value.transmissionMultiplier == transmissionMultiplier
  {
    if keyLength <= 0 then Err(InvalidKeyLength)
    else if transmissionMultiplier < 2 then Err(InvalidMultiplier)
    else Ok(Config(keyLength, transmissionMultiplier, QberThreshold))
  }

  /** Number of qubits Alice sends. */
  function TransmissionCount(c: Config): (n: nat)
    requires ValidConfig(c)
    ensures n >= 2 * c.keyLength
  {
    c.keyLength * c.transmissionMultiplier
  }

  // ---------------------------------------------------------------------
  // Steps 1 and 3: preparation and measurement
  // ---------------------------------------------------------------------

  datatype Preparation = Preparation(bits: seq<Bit>, bases: seq<Basis>, qubits: seq<Qubit>)

  /** `_alice_prepare`, with Alice's `random.choice` draws given. */
  function AlicePrepare(c: Config, bitDraws: seq<Bit>, basisDraws: seq<Basis>): (p: Preparation)
    requires ValidConfig(c)
    requires |bitDraws| == TransmissionCount(c) && |basisDraws| == TransmissionCount(c)
    ensures |p.bits| == TransmissionCount(c) && |p.bases| == TransmissionCount(c)
    ensures |p.qubits| == TransmissionCount(c)
    ensures forall i :: 0 <= i < |p.qubits| ==> p.qubits[i] == Qubit(p.bases[i], p.bits[i])
  {
    var n := TransmissionCount(c);
    Preparation(bitDraws, basisDraws, seq(n, i requires 0 <= i < n => Qubit(basisDraws[i], bitDraws[i])))
  }

  datatype Measurement = Measurement(bits: seq<Bit>, bases: seq<Basis>)

  /** `_bob_measure`: one basis draw and one wrong-basis coin per qubit. */
  function BobMeasure(qubits: seq<Qubit>, basisDraws: seq<Basis>, coins: seq<Bit>): (m: Measurement)
    requires |basisDraws| == |qubits| && |coins| == |qubits|
    ensures |m.bits| == |qubits| && m.bases == basisDraws
    ensures forall i :: 0 <= i < |qubits| && m.bases[i] == qubits[i].basis ==> m.bits[i] == qubits[i].bitValue
    ensures forall i :: 0 <= i < |qubits| && m.bases[i] != qubits[i].basis ==> m.bits[i] == coins[i]
  {
    Measurement(seq(|qubits|, i requires 0 <= i < |qubits| => MeasureIn(qubits[i], basisDraws[i], coins[i])), basisDraws)
  }

  // ---------------------------------------------------------------------
  // Step 4: basis sifting
  // ---------------------------------------------------------------------

  datatype Sifted = Sifted(alice: seq<Bit>, bob: seq<Bit>, indices: seq<int>)

  predicate Parallel(aBits: seq<Bit>, aBases: seq<Basis>, bBits: seq<Bit>, bBases: seq<Basis>)
  {
    |aBits| == |aBases| && |bBits| == |aBases| && |bBases| == |aBases|
  }

  /** The positions where the two bases agree. */
  function MatchSet(aBases: seq<Basis>, bBases: seq<Basis>): set<int>
  {
    set i | 0 <= i < |aBases| && i < |bBases| && aBases[i] == bBases[i]
  }

  /** The sifting loop run over the first `k` positions. */
  function SiftPrefix(aBits: seq<Bit>, aBases: seq<Basis>, bBits: seq<Bit>, bBases: seq<Basis>, k: nat): (s: Sifted)
    requires Parallel(aBits, aBases, bBits, bBases) && k <= |aBases|
    ensures |s.alice| == |s.indices| && |s.bob| == |s.indices| && |s.indices| <= k
  {
    if k == 0 then Sifted([], [], [])
    else
      var s := SiftPrefix(aBits, aBases, bBits, bBases, k - 1);
      if aBases[k - 1] == bBases[k - 1] then
        Sifted(s.alice + [aBits[k - 1]], s.bob + [bBits[k - 1]], s.indices + [k - 1])
      else s
  }

  function Sift(aBits: seq<Bit>, aBases: seq<Basis>, bBits: seq<Bit>, bBases: seq<Basis>): Sifted
    requires Parallel(aBits, aBases, bBits, bBases)
  {
    SiftPrefix(aBits, aBases, bBits, bBases, |aBases|)
  }

  /** Sifting keeps exactly the matching positions, ascending, and the two
      sides' bits at them. */
  lemma {:induction false} SiftPrefixSelects(aBits: seq<Bit>, aBases: seq<Basis>, bBits: seq<Bit>, bBases: seq<Basis>, k: nat)
    requires Parallel(aBits, aBases, bBits, bBases) && k <= |aBases|
    ensures SiftPrefix(aBits, aBases, bBits, bBases, k).indices == AscendingIn(k, MatchSet(aBases, bBases))
    ensures forall j :: 0 <= j < |SiftPrefix(aBits, aBases, bBits, bBases, k).indices| ==>
      0 <= SiftPrefix(aBits, aBases, bBits, bBases, k).indices[j] < k
    ensures forall j :: 0 <= j < |SiftPrefix(aBits, aBases, bBits, bBases, k).indices| ==>
      SiftPrefix(aBits, aBases, bBits, bBases, k).alice[j] == aBits[SiftPrefix(aBits, aBases, bBits, bBases, k).indices[j]]
    ensures forall j :: 0 <= j < |SiftPrefix(aBits, aBases, bBits, bBases, k).indices| ==>
      SiftPrefix(aBits, aBases, bBits, bBases, k).bob[j] == bBits[SiftPrefix(aBits, aBases, bBits, bBases, k).indices[j]]
  {
    if k > 0 {
      SiftPrefixSelects(aBits, aBases, bBits, bBases, k - 1);
      var m := MatchSet(aBases, bBases);
      assert AscendingIn(k, m) == AscendingIn(k - 1, m) + (if k - 1 in m then [k - 1] else []);
      assert k - 1 in m <==> aBases[k - 1] == bBases[k - 1];
    }
  }

  /** The sifting contract: `matching_indices` is exactly the strictly
      increasing list of positions whose bases agree, and entry j of each
      sifted list is that side's bit at `matching_indices[j]`. */
  lemma SiftCorrect(aBits: seq<Bit>, aBases: seq<Basis>, bBits: seq<Bit>, bBases: seq<Basis>)
    requires Parallel(aBits, aBases, bBits, bBases)
    ensures var s := Sift(aBits, aBases, bBits, bBases);
      && |s.alice| == |s.indices| && |s.bob| == |s.indices|
      && StrictlyIncreasing(s.indices) && AllBelow(s.indices, |aBases|)
      && (forall i :: 0 <= i < |aBases| ==> (i in s.indices <==> aBases[i] == bBases[i]))
      && (forall j :: 0 <= j < |s.indices| ==> s.alice[j] == aBits[s.indices[j]] && s.bob[j] == bBits[s.indices[j]])
  {
    SiftPrefixSelects(aBits, aBases, bBits, bBases, |aBases|);
    AscendingInMembers(|aBases|, MatchSet(aBases, bBases));
  }

  /** `_basis_sifting`. */
  method BasisSifting(aBits: seq<Bit>, aBases: seq<Basis>, bBits: seq<Bit>, bBases: seq<Basis>) returns (s: Sifted)
    requires Parallel(aBits, aBases, bBits, bBases)
    ensures s == Sift(aBits, aBases, bBits, bBases)
  {
    var siftedAlice: seq<Bit> := [];
    var siftedBob: seq<Bit> := [];
    var matchingIndices: seq<int> := [];
    for i := 0 to |aBases|
      invariant Sifted(siftedAlice, siftedBob, matchingIndices) == SiftPrefix(aBits, aBases, bBits, bBases, i)
    {
      if aBases[i] == bBases[i] {
        siftedAlice := siftedAlice + [aBits[i]];
        siftedBob := siftedBob + [bBits[i]];
        matchingIndices := matchingIndices + [i];
      }
    }
    s := Sifted(siftedAlice, siftedBob, matchingIndices);
  }

  // ---------------------------------------------------------------------
  // Step 5: error estimation
  // ---------------------------------------------------------------------

  /** `max(1, min(int(n * 0.1), n // 2))`. For a list length `n` the double
      product `n * 0.1` truncates to `n / 10`, since 0.1 as a double lies
      just above one tenth and the product never rounds up past the next
      integer. */
  function SampleSize(n: nat): (ss: nat)
    ensures ss >= 1
    ensures n < 10 ==> ss == 1
    ensures n >= 10 ==> ss == n / 10
    ensures n >= 2 ==> ss <= n / 2
  {
    Max(1, Min(n / 10, n / 2))
  }

  /** `sorted(available_indices[:sample_size])` after shuffling `list(range(n))`. */
  function CheckedIndices(n: nat, picks: seq<nat>): seq<int>
    requires ValidPicks(picks, n)
  {
    ShuffleKeepsIndexList(Range(n), picks, n - 1, n);
    var shuffled := Shuffled(Range(n), picks);
    AscendingIn(n, Elements(shuffled[..Min(SampleSize(n), n)]))
  }

  /** The checked indices are sorted, distinct, valid, and there are
      `min(sample_size, n)` of them: none at all for an empty sifted key,
      although the sample size is then 1. */
  lemma CheckedIndicesSpec(n: nat, picks: seq<nat>)
    requires ValidPicks(picks, n)
    ensures StrictlyIncreasing(CheckedIndices(n, picks))
    ensures AllBelow(CheckedIndices(n, picks), n)
    ensures |CheckedIndices(n, picks)| == Min(SampleSize(n), n)
  {
    ShuffleKeepsIndexList(Range(n), picks, n - 1, n);
    var shuffled := Shuffled(Range(n), picks);
    var sample := shuffled[..Min(SampleSize(n), n)];
    var e := Elements(sample);
    AscendingInMembers(n, e);
    AscendingInCard(n, e);
    assert Distinct(sample);
    DistinctCard(sample);
    assert Below(n, e) == e;
  }

  /** Number of checked positions at which the two lists differ. */
  function CountMismatches(a: seq<Bit>, b: seq<Bit>, idx: seq<int>): (e: nat)
    requires AllBelow(idx, |a|) && AllBelow(idx, |b|)
    ensures e <= |idx|
  {
    if idx == [] then 0
    else
      var last := idx[|idx| - 1];
      CountMismatches(a, b, idx[..|idx| - 1]) + (if a[last] != b[last] then 1 else 0)
  }

  /** No error is counted exactly when the lists agree at every checked index. */
  lemma {:induction false} NoMismatchIff(a: seq<Bit>, b: seq<Bit>, idx: seq<int>)
    requires AllBelow(idx, |a|) && AllBelow(idx, |b|)
    ensures CountMismatches(a, b, idx) == 0 <==> forall j :: 0 <= j < |idx| ==> a[idx[j]] == b[idx[j]]
  {
    if idx != [] {
      NoMismatchIff(a, b, idx[..|idx| - 1]);
      assert forall j :: 0 <= j < |idx| - 1 ==> idx[..|idx| - 1][j] == idx[j];
    }
  }

  /** `errors / sample_size if sample_size > 0 else 0.0`. */
  function ErrorRate(errors: nat, sampleSize: nat): (q: real)
    requires errors <= sampleSize
    ensures 0.0 <= q <= 1.0
    ensures sampleSize > 0 ==> q * sampleSize as real == errors as real
    ensures q == 0.0 <==> errors == 0
  {
    if sampleSize > 0 then errors as real / sampleSize as real else 0.0
  }

  /** The five values `_error_estimation` returns. */
  datatype ErrorCheck = ErrorCheck(errorRate: real, errors: nat, checked: seq<int>, sampleSize: nat, isSecure: bool)

  /** `_error_estimation` with the shuffle's draws given. */
  function ErrorEstimation(c: Config, siftedAlice: seq<Bit>, siftedBob: seq<Bit>, picks: seq<nat>): (e: ErrorCheck)
    requires ValidConfig(c)
    requires |siftedBob| == |siftedAlice| && ValidPicks(picks, |siftedAlice|)
    ensures e.sampleSize == SampleSize(|siftedAlice|) && e.checked == CheckedIndices(|siftedAlice|, picks)
    ensures StrictlyIncreasing(e.checked) && AllBelow(e.checked, |siftedAlice|)
    ensures |e.checked| == Min(e.sampleSize, |siftedAlice|)
    ensures e.errors == CountMismatches(siftedAlice, siftedBob, e.checked) && e.errors <= e.sampleSize
    ensures e.errorRate == ErrorRate(e.errors, e.sampleSize)
    ensures e.isSecure <==> e.errorRate <= QberThreshold
  {
    var n := |siftedAlice|;
    var sampleSize := SampleSize(n);
    CheckedIndicesSpec(n, picks);
    var checked := CheckedIndices(n, picks);
    var errors := CountMismatches(siftedAlice, siftedBob, checked);
    var errorRate := ErrorRate(errors, sampleSize);
    ErrorCheck(errorRate, errors, checked, sampleSize, errorRate <= c.qberThreshold)
  }

  /** No error is found exactly when the two sifted keys agree at every
      checked index; in particular equal sifted keys always pass the check. */
  lemma ErrorFreeIff(c: Config, siftedAlice: seq<Bit>, siftedBob: seq<Bit>, picks: seq<nat>)
    requires ValidConfig(c)
    requires |siftedBob| == |siftedAlice| && ValidPicks(picks, |siftedAlice|)
    ensures var e := ErrorEstimation(c, siftedAlice, siftedBob, picks);
      && (e.errors == 0 <==> forall j :: 0 <= j < |e.checked| ==> siftedAlice[e.checked[j]] == siftedBob[e.checked[j]])
      && (siftedAlice == siftedBob ==> e.errors == 0 && e.errorRate == 0.0 && e.isSecure)
  {
    var n := |siftedAlice|;
    CheckedIndicesSpec(n, picks);
    NoMismatchIff(siftedAlice, siftedBob, CheckedIndices(n, picks));
  }

  /** `_error_estimation`: shuffles `list(range(n))` in place, sorts the
      first `sample_size` entries and counts the mismatches there. */
  method EstimateErrors(c: Config, siftedAlice: seq<Bit>, siftedBob: seq<Bit>, picks: seq<nat>) returns (e: ErrorCheck)
    requires ValidConfig(c)
    requires |siftedBob| == |siftedAlice| && ValidPicks(picks, |siftedAlice|)
    ensures e == ErrorEstimation(c, siftedAlice, siftedBob, picks)
  {
    var n := |siftedAlice|;
    var sampleSize := Max(1, Min(n / 10, n / 2));
    var availableIndices := new int[n](i => i);
    assert availableIndices[..] == Range(n);
    ShuffleInPlace(availableIndices, picks);
    ShuffleKeepsIndexList(Range(n), picks, n - 1, n);
    var checked := AscendingIn(n, Elements(availableIndices[..Min(sampleSize, n)]));
    CheckedIndicesSpec(n, picks);
    var errors := CountMismatches(siftedAlice, siftedBob, checked);
    var errorRate := if sampleSize > 0 then errors as real / sampleSize as real else 0.0;
    assert errorRate == ErrorRate(errors, sampleSize);
    e := ErrorCheck(errorRate, errors, checked, sampleSize, errorRate <= c.qberThreshold);
  }

  // ---------------------------------------------------------------------
  // Step 6: privacy amplification
  // ---------------------------------------------------------------------

  /** The positions below `n` that are not in `checked`. */
  function Unchecked(n: nat, checked: seq<int>): set<int>
  {
    set i | 0 <= i < n && i !in checked
  }

  /** `[bit for i, bit in enumerate(bits) if i not in checked]` over the first `k` positions. */
  function RemovePrefix(bits: seq<Bit>, checked: seq<int>, k: nat): seq<Bit>
    requires k <= |bits|
  {
    if k == 0 then []
    else RemovePrefix(bits, checked, k - 1) + (if k - 1 in checked then [] else [bits[k - 1]])
  }

  function Remaining(bits: seq<Bit>, checked: seq<int>): seq<Bit>
  {
    RemovePrefix(bits, checked, |bits|)
  }

  /** What is left are the bits at the unchecked positions, in order. */
  lemma {:induction false} RemovePrefixSelects(bits: seq<Bit>, checked: seq<int>, k: nat)
    requires k <= |bits|
    ensures AllBelow(AscendingIn(k, Unchecked(|bits|, checked)), |bits|)
    ensures RemovePrefix(bits, checked, k) == Select(bits, AscendingIn(k, Unchecked(|bits|, checked)))
  {
    AscendingInMembers(k, Unchecked(|bits|, checked));
    if k > 0 {
      RemovePrefixSelects(bits, checked, k - 1);
      var prev := AscendingIn(k - 1, Unchecked(|bits|, checked));
      var step := if k - 1 in checked then [] else [k - 1];
      assert k - 1 in Unchecked(|bits|, checked) <==> k - 1 !in checked;
      assert AscendingIn(k, Unchecked(|bits|, checked)) == prev + step;
      SelectAppend(bits, prev, step);
      assert Select(bits, step) == (if k - 1 in checked then [] else [bits[k - 1]]);
    }
  }

  /** Each position is either checked or kept: the kept bits and the checked
      positions below `k` add up to `k`. */
  lemma {:induction false} RemovePrefixCount(bits: seq<Bit>, checked: seq<int>, k: nat)
    requires k <= |bits|
    ensures |RemovePrefix(bits, checked, k)| + |AscendingIn(k, Elements(checked))| == k
  {
    if k > 0 {
      RemovePrefixCount(bits, checked, k - 1);
      assert k - 1 in checked <==> k - 1 in Elements(checked);
    }
  }

  /** An ascending list has no duplicates. */
  lemma Distinctness(s: seq<int>)
    requires StrictlyIncreasing(s)
    ensures Distinct(s)
  {
  }

  /** `_privacy_amplification`: the first `key_length` unchecked bits. */
  function PrivacyAmplification(c: Config, bits: seq<Bit>, checked: seq<int>): (key: seq<Bit>)
    requires ValidConfig(c)
    ensures |key| <= c.keyLength
    ensures key <= Remaining(bits, checked)
  {
    var remaining := Remaining(bits, checked);
    remaining[..Min(c.keyLength, |remaining|)]
  }

  /** The final key is the unchecked sifted bits in order, cut to the key
      length; when the checked indices are distinct and valid it has
      `min(key_length, n - |checked|)` bits. */
  lemma FinalKeySpec(c: Config, bits: seq<Bit>, checked: seq<int>)
    requires ValidConfig(c)
    ensures AllBelow(AscendingIn(|bits|, Unchecked(|bits|, checked)), |bits|)
    ensures PrivacyAmplification(c, bits, checked) <= Select(bits, AscendingIn(|bits|, Unchecked(|bits|, checked)))
    ensures Distinct(checked) && AllBelow(checked, |bits|) ==>
      |PrivacyAmplification(c, bits, checked)| == Min(c.keyLength, |bits| - |checked|)
  {
    var n := |bits|;
    RemovePrefixSelects(bits, checked, n);
    if Distinct(checked) && AllBelow(checked, n) {
      RemovePrefixCount(bits, checked, n);
      AscendingInCard(n, Elements(checked));
      assert Below(n, Elements(checked)) == Elements(checked);
      DistinctCard(checked);
    }
  }

  // ---------------------------------------------------------------------
  // The whole run
  // ---------------------------------------------------------------------

  /** The random choices of one run, one entry per transmitted qubit: Alice's
      bits and bases, Eve's draws, Bob's bases and wrong-basis coins, and the
      `randbelow` picks of the error-check shuffle. */
  datatype Draws = Draws(
    aliceBits: seq<Bit>,
    aliceBases: seq<Basis>,
    eve: seq<EveDraw>,
    bobBases: seq<Basis>,
    bobCoins: seq<Bit>,
    picks: seq<nat>)

  predicate DrawsFor(d: Draws, n: nat)
  {
    && |d.aliceBits| == n && |d.aliceBases| == n && |d.eve| == n
    && |d.bobBases| == n && |d.bobCoins| == n && ValidPicks(d.picks, n)
    && EveRolls(d.eve)
  }

  /** `BB84Result`. */
  datatype BB84Result = BB84Result(
    aliceBits: seq<Bit>,
    aliceBases: seq<Basis>,
    bobBits: seq<Bit>,
    bobBases: seq<Basis>,
    siftedAliceBits: seq<Bit>,
    siftedBobBits: seq<Bit>,
    matchingIndices: seq<int>,
    errorRate: real,
    errorsFound: nat,
    checkedIndices: seq<int>,
    sampleSize: nat,
    isSecure: bool,
    finalKey: seq<Bit>,
    totalTransmitted: nat,
    totalSifted: nat,
    finalKeyLength: nat,
    siftingEfficiency: real,
    eavesdropperPresent: bool,
    eavesdropperStats: Option<EveStats>)

  /** `total_sifted / total_transmitted * 100`, or 0 when nothing was sent. */
  function Efficiency(sifted: nat, transmitted: nat): real
  {
    if transmitted > 0 then sifted as real / transmitted as real * 100.0 else 0.0
  }

  /** Steps 4 to 6 and the statistics, from what Alice and Bob hold after
      the quantum transmission. */
  function Conclude(c: Config, aBits: seq<Bit>, aBases: seq<Basis>, m: Measurement, picks: seq<nat>,
                    withEve: bool, stats: Option<EveStats>): BB84Result
    requires ValidConfig(c) && Parallel(aBits, aBases, m.bits, m.bases) && ValidPicks(picks, |aBits|)
  {
    var s := Sift(aBits, aBases, m.bits, m.bases);
    SiftCorrect(aBits, aBases, m.bits, m.bases);
    var e := ErrorEstimation(c, s.alice, s.bob, picks);
    var finalKey := PrivacyAmplification(c, s.alice, e.checked);
    BB84Result(aBits, aBases, m.bits, m.bases, s.alice, s.bob, s.indices,
               e.errorRate, e.errors, e.checked, e.sampleSize, e.isSecure, finalKey,
               |aBits|, |s.alice|, |finalKey|, Efficiency(|s.alice|, |aBits|), withEve, stats)
  }

  /** What Bob receives: the prepared qubits, or Eve's output, with her statistics. */
  function Transmit(qubits: seq<Qubit>, withEve: bool, rate: real, eve: seq<EveDraw>): (seq<Qubit>, Option<EveStats>)
    requires |eve| == |qubits|
  {
    if withEve then
      var t := InterceptAll(qubits, rate, eve);
      (t.out, Some(StatsOf(|t.indices|, rate, t.bits, t.bases, t.indices)))
    else (qubits, None)
  }

  /** `execute`: a run fails only when an eavesdropper is asked for with a
      rate outside [0, 1] (her constructor raises). */
  function Run(c: Config, withEve: bool, rate: real, d: Draws): (r: Result<BB84Result>)
    requires ValidConfig(c) && DrawsFor(d, TransmissionCount(c))
    ensures r.Ok? <==> !withEve || 0.0 <= rate <= 1.0
    ensures r.Err? ==> r.error == InvalidProbability
  {
    if withEve && !(0.0 <= rate <= 1.0) then Err(InvalidProbability)
    else
      var p := AlicePrepare(c, d.aliceBits, d.aliceBases);
      var (transmitted, stats) := Transmit(p.qubits, withEve, rate, d.eve);
      var m := BobMeasure(transmitted, d.bobBases, d.bobCoins);
      Ok(Conclude(c, p.bits, p.bases, m, d.picks, withEve, stats))
  }

  /** Step 2 of `execute`: a fresh `Eavesdropper` object intercepts when asked for. */
  method Transmission(qubits: seq<Qubit>, withEve: bool, rate: real, eve: seq<EveDraw>)
    returns (r: Result<(seq<Qubit>, Option<EveStats>)>)
    requires |eve| == |qubits| && EveRolls(eve)
    ensures r.Ok? <==> !withEve || 0.0 <= rate <= 1.0
    ensures r.Err? ==> r.error == InvalidProbability
    ensures r.Ok? ==> r.value == Transmit(qubits, withEve, rate, eve)
  {
    if !withEve {
      return Ok((qubits, None));
    }
    var created := Eavesdropper.Create(rate, "intercept-resend");
    if created.Err? {
      return Err(created.error);
    }
    var spy := created.value;
    assert spy.strategy == InterceptResend && spy.interceptProbability == rate;
    var transmitted := spy.Intercept(qubits, eve);
    var t := InterceptAll(qubits, rate, eve);
    assert spy.eveBits == t.bits && spy.eveBases == t.bases && spy.interceptionIndices == t.indices;
    var stats := spy.GetStatistics();
    r := Ok((transmitted, Some(stats)));
  }

  /** Steps 4 to 6 of `execute` and its statistics. */
  method Finish(c: Config, aBits: seq<Bit>, aBases: seq<Basis>, m: Measurement, picks: seq<nat>,
                withEve: bool, stats: Option<EveStats>) returns (res: BB84Result)
    requires ValidConfig(c) && Parallel(aBits, aBases, m.bits, m.bases) && ValidPicks(picks, |aBits|)
    ensures res == Conclude(c, aBits, aBases, m, picks, withEve, stats)
  {
    var s := BasisSifting(aBits, aBases, m.bits, m.bases);
    SiftCorrect(aBits, aBases, m.bits, m.bases);
    var e := EstimateErrors(c, s.alice, s.bob, picks);
    var finalKey := PrivacyAmplification(c, s.alice, e.checked);
    var totalTransmitted := |aBits|;
    var totalSifted := |s.alice|;
    res := BB84Result(aBits, aBases, m.bits, m.bases, s.alice, s.bob, s.indices,
                      e.errorRate, e.errors, e.checked, e.sampleSize, e.isSecure, finalKey,
                      totalTransmitted, totalSifted, |finalKey|, Efficiency(totalSifted, totalTransmitted),
                      withEve, stats);
  }

  /** `execute`. */
  method Execute(c: Config, withEve: bool, rate: real, d: Draws) returns (r: Result<BB84Result>)
    requires ValidConfig(c) && DrawsFor(d, TransmissionCount(c))
    ensures r == Run(c, withEve, rate, d)
  {
    var p := AlicePrepare(c, d.aliceBits, d.aliceBases);
    var sent := Transmission(p.qubits, withEve, rate, d.eve);
    if sent.Err? {
      return Err(sent.error);
    }
    var (transmitted, eveStats) := sent.value;
    var m := BobMeasure(transmitted, d.bobBases, d.bobCoins);
    var res := Finish(c, p.bits, p.bases, m, d.picks, withEve, eveStats);
    r := Ok(res);
  }

  // ---------------------------------------------------------------------
  // Theorems about a run, for every choice of draws
  // ---------------------------------------------------------------------

  /** Without an eavesdropper the run succeeds, the two sifted keys are
      identical, no error is found and the run is judged secure. */
  lemma NoEavesdropperNoErrors(c: Config, rate: real, d: Draws)
    requires ValidConfig(c) && DrawsFor(d, TransmissionCount(c))
    ensures Run(c, false, rate, d).Ok?
    ensures Run(c, false, rate, d).value.siftedAliceBits == Run(c, false, rate, d).value.siftedBobBits
    ensures Run(c, false, rate, d).value.errorsFound == 0 && Run(c, false, rate, d).value.errorRate == 0.0
    ensures Run(c, false, rate, d).value.isSecure
    ensures !Run(c, false, rate, d).value.eavesdropperPresent && Run(c, false, rate, d).value.eavesdropperStats.None?
  {
    var p := AlicePrepare(c, d.aliceBits, d.aliceBases);
    var m := BobMeasure(p.qubits, d.bobBases, d.bobCoins);
    var s := Sift(p.bits, p.bases, m.bits, m.bases);
    SiftCorrect(p.bits, p.bases, m.bits, m.bases);
    assert s.alice == s.bob by {
      forall j | 0 <= j < |s.indices|
        ensures s.alice[j] == s.bob[j]
      {
        var i := s.indices[j];
        assert p.bases[i] == m.bases[i];
      }
    }
    ErrorFreeIff(c, s.alice, s.bob, d.picks);
  }

  /** With an eavesdropper, a sifted position where Alice's and Bob's bits
      differ is one Eve intercepted, in a basis other than Alice's, and it is
      listed in her statistics. */
  lemma MismatchOnlyAtWrongBasisInterception(c: Config, rate: real, d: Draws, j: int)
    requires ValidConfig(c) && DrawsFor(d, TransmissionCount(c)) && 0.0 <= rate <= 1.0
    requires 0 <= j < |Run(c, true, rate, d).value.siftedAliceBits|
    requires Run(c, true, rate, d).value.siftedAliceBits[j] != Run(c, true, rate, d).value.siftedBobBits[j]
    ensures 0 <= Run(c, true, rate, d).value.matchingIndices[j] < TransmissionCount(c)
    ensures Intercepts(rate, d.eve[Run(c, true, rate, d).value.matchingIndices[j]])
    ensures d.eve[Run(c, true, rate, d).value.matchingIndices[j]].basis != d.aliceBases[Run(c, true, rate, d).value.matchingIndices[j]]
    ensures Run(c, true, rate, d).value.eavesdropperStats.Some?
    ensures Run(c, true, rate, d).value.matchingIndices[j] in Run(c, true, rate, d).value.eavesdropperStats.value.interceptionIndices
  {
    var n := TransmissionCount(c);
    var p := AlicePrepare(c, d.aliceBits, d.aliceBases);
    var t := InterceptAll(p.qubits, rate, d.eve);
    var m := BobMeasure(t.out, d.bobBases, d.bobCoins);
    var s := Sift(p.bits, p.bases, m.bits, m.bases);
    SiftCorrect(p.bits, p.bases, m.bits, m.bases);
    InterceptedOutput(p.qubits, rate, d.eve, n);
    InterceptedIndices(p.qubits, rate, d.eve, n);
    var i := s.indices[j];
    assert p.bases[i] == m.bases[i];
  }

  /** The bookkeeping of a successful run: `n = key_length * multiplier`
      qubits are sent, `min(sample_size, total_sifted)` indices are checked
      and the final key has `min(key_length, total_sifted - checked)` bits. */
  lemma RunSizes(c: Config, withEve: bool, rate: real, d: Draws)
    requires ValidConfig(c) && DrawsFor(d, TransmissionCount(c))
    requires !withEve || 0.0 <= rate <= 1.0
    ensures Run(c, withEve, rate, d).value.totalTransmitted == c.keyLength * c.transmissionMultiplier
    ensures Run(c, withEve, rate, d).value.totalSifted <= Run(c, withEve, rate, d).value.totalTransmitted
    ensures Run(c, withEve, rate, d).value.sampleSize == SampleSize(Run(c, withEve, rate, d).value.totalSifted)
    ensures |Run(c, withEve, rate, d).value.checkedIndices|
      == Min(Run(c, withEve, rate, d).value.sampleSize, Run(c, withEve, rate, d).value.totalSifted)
    ensures Run(c, withEve, rate, d).value.finalKeyLength
      == Min(c.keyLength, Run(c, withEve, rate, d).value.totalSifted - |Run(c, withEve, rate, d).value.checkedIndices|)
    ensures Run(c, withEve, rate, d).value.eavesdropperPresent == withEve
    ensures Run(c, withEve, rate, d).value.eavesdropperStats.Some? <==> withEve
  {
    var p := AlicePrepare(c, d.aliceBits, d.aliceBases);
    var (transmitted, stats) := Transmit(p.qubits, withEve, rate, d.eve);
    var m := BobMeasure(transmitted, d.bobBases, d.bobCoins);
    var s := Sift(p.bits, p.bases, m.bits, m.bases);
    var e := ErrorEstimation(c, s.alice, s.bob, d.picks);
    assert ValidPicks(d.picks, |s.alice|);
    Distinctness(e.checked);
    FinalKeySpec(c, s.alice, e.checked);
  }
}
