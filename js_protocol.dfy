/** The browser-side BB84 simulation of raw.py (`Qubit`, `BB84Protocol` and
    the dashboard's `bitsToHex`). Its qubit is the plain `Qubits.Qubit`,
    with 'rectilinear' as Z and 'diagonal' as X, and `measure` is
    `Qubits.MeasureIn`. Preparation, Bob's measurement, sifting and the
    unchecked-bit filter do what bb84.py does and reuse the `Protocol`
    members; what differs is the factor 4, the error check (up to 50
    indices drawn one by one with `splice`, in drawing order, and an error
    rate that is NaN when nothing was sifted), the JavaScript `slice`, an
    eavesdropper with no range check, and the unpadded hex encoder. Every
    `Math.random()` draw of a run is given in a `JsDraws` value. */
module JsProtocol {
  import opened Basics
  import opened Qubits
  import opened Eavesdropping
  import opened IndexSets
  import opened Protocol
  import KeyUtils

  /** `this.transmissionMultiplier = 4`. */
  const Multiplier: nat := 4

  /** `sampleSize = 50`, the default `execute` relies on. */
  const CheckSampleSize: nat := 50

  /** `keyLength * 4` as an array length: `Array.from` turns a negative
      length into 0. */
  function JsTransmissionCount(keyLength: int): (n: nat)
    ensures keyLength > 0 ==> n == keyLength * Multiplier
    ensures keyLength <= 0 ==> n == 0
  {
    if keyLength > 0 then keyLength * Multiplier else 0
  }

  /** `alicePrepare`: n random bits and bases, and qubit i built from bit i
      and basis i. */
  function JsAlicePrepare(keyLength: int, bitDraws: seq<Bit>, basisDraws: seq<Basis>): (p: Preparation)
    requires |bitDraws| == JsTransmissionCount(keyLength) && |basisDraws| == JsTransmissionCount(keyLength)
    ensures p.bits == bitDraws && p.bases == basisDraws
    ensures |p.qubits| == JsTransmissionCount(keyLength)
    ensures forall i :: 0 <= i < |p.qubits| ==> p.qubits[i] == Qubit(p.bases[i], p.bits[i])
  {
    var n := JsTransmissionCount(keyLength);
    Preparation(bitDraws, basisDraws, seq(n, i requires 0 <= i < n => Qubit(basisDraws[i], bitDraws[i])))
  }

  // ---------------------------------------------------------------------
  // The eavesdropper
  // ---------------------------------------------------------------------

  /** `eveIntercept`: every qubit is mapped on its own; the rate is not
      checked. */
  function JsEveIntercept(qubits: seq<Qubit>, rate: real, draws: seq<EveDraw>): (r: seq<Qubit>)
    requires |draws| == |qubits|
    ensures |r| == |qubits|
    ensures forall i :: 0 <= i < |qubits| && !Intercepts(rate, draws[i]) ==> r[i] == qubits[i]
    ensures forall i :: 0 <= i < |qubits| && Intercepts(rate, draws[i]) ==>
      r[i] == Qubit(draws[i].basis, MeasureIn(qubits[i], draws[i].basis, draws[i].coin))
  {
    seq(|qubits|, i requires 0 <= i < |qubits| =>
      if Intercepts(rate, draws[i]) then Resend(qubits[i], draws[i]) else qubits[i])
  }

  /** With the same draws it forwards exactly what the Python eavesdropper's
      loop forwards. */
  lemma JsEveInterceptAgrees(qubits: seq<Qubit>, rate: real, draws: seq<EveDraw>)
    requires |draws| == |qubits|
    ensures JsEveIntercept(qubits, rate, draws) == InterceptAll(qubits, rate, draws).out
  {
    InterceptedOutput(qubits, rate, draws, |qubits|);
  }

  // ---------------------------------------------------------------------
  // Error estimation
  // ---------------------------------------------------------------------

  /** `Math.floor(roll * length)` for a roll in [0, 1): a valid index. */
  function Pick(roll: real, length: nat): (k: nat)
    requires 0.0 <= roll < 1.0 && length > 0
    ensures k < length
  {
    RollBelow(roll, length);
    (roll * length as real).Floor
  }

  lemma RollBelow(roll: real, length: nat)
    requires 0.0 <= roll < 1.0 && length > 0
    ensures 0.0 <= roll * length as real < length as real
  {
    assert (1.0 - roll) * length as real > 0.0;
  }

  /** Every roll is a possible value of `Math.random()`. */
  predicate Rolls(rolls: seq<real>)
  {
    forall i :: 0 <= i < |rolls| ==> 0.0 <= rolls[i] < 1.0
  }

  /** `list.splice(k, 1)` on the list: entry `k` removed. */
  function Splice(s: seq<int>, k: nat): (r: seq<int>)
    requires k < |s|
    ensures |r| == |s| - 1
    ensures forall i :: 0 <= i < |r| ==> r[i] == (if i < k then s[i] else s[i + 1])
    ensures forall x :: x in r ==> x in s
    ensures Distinct(s) ==> Distinct(r) && s[k] !in r
  {
    var r := s[..k] + s[k + 1..];
    assert forall i :: 0 <= i < |r| ==> r[i] == (if i < k then s[i] else s[i + 1]);
    r
  }

  /** The indices the sampling loop takes out of `available`, one per roll,
      in drawing order. */
  function Drawn(available: seq<int>, rolls: seq<real>): (c: seq<int>)
    requires Rolls(rolls) && |rolls| <= |available|
    ensures |c| == |rolls|
    decreases |rolls|
  {
    if rolls == [] then []
    else
      var k := Pick(rolls[0], |available|);
      [available[k]] + Drawn(Splice(available, k), rolls[1..])
  }

  /** Drawing from a duplicate-free list gives distinct members of it. */
  lemma {:induction false} DrawnDistinct(available: seq<int>, rolls: seq<real>)
    requires Rolls(rolls) && |rolls| <= |available| && Distinct(available)
    ensures Distinct(Drawn(available, rolls))
    ensures forall x :: x in Drawn(available, rolls) ==> x in available
    decreases |rolls|
  {
    if rolls != [] {
      var k := Pick(rolls[0], |available|);
      var rest := Splice(available, k);
      DrawnDistinct(rest, rolls[1..]);
      var c := Drawn(available, rolls);
      assert c == [available[k]] + Drawn(rest, rolls[1..]);
      assert available[k] !in Drawn(rest, rolls[1..]);
    }
  }

  /** Drawing from indices below `n` gives indices below `n`. */
  lemma {:induction false} DrawnBelow(available: seq<int>, rolls: seq<real>, n: int)
    requires Rolls(rolls) && |rolls| <= |available| && AllBelow(available, n)
    ensures AllBelow(Drawn(available, rolls), n)
    decreases |rolls|
  {
    if rolls != [] {
      var k := Pick(rolls[0], |available|);
      DrawnBelow(Splice(available, k), rolls[1..], n);
    }
  }

  /** The indices are drawn in drawing order, not sorted: from two sifted
      bits the rolls 0.5 and 0.0 check index 1 before index 0. */
  lemma DrawnInDrawingOrder()
    ensures Drawn(Range(2), [0.5, 0.0]) == [1, 0]
  {
    assert Pick(0.5, 2) == 1;
    assert Range(2) == [0, 1];
    assert Splice([0, 1], 1) == [0];
    assert Pick(0.0, 1) == 0;
    assert [0.5, 0.0][1..] == [0.0];
    assert Drawn([0], [0.0]) == [0] + Drawn(Splice([0], 0), []);
  }

  /** `{ errorRate, errors, checkedIndices, sampleSize: n }`; the error rate
      is `None` where JavaScript computes 0 / 0 = NaN. */
  datatype JsErrorCheck = JsErrorCheck(errorRate: Option<real>, errors: nat, checkedIndices: seq<int>, sampleSize: nat)

  /** `estimateError` on values. */
  function JsErrorEstimation(siftedAlice: seq<Bit>, siftedBob: seq<Bit>, sampleSize: nat, rolls: seq<real>)
    : (e: JsErrorCheck)
    requires |siftedBob| == |siftedAlice| && Rolls(rolls) && |rolls| >= Min(|siftedAlice|, sampleSize)
    ensures e.sampleSize == Min(|siftedAlice|, sampleSize) && |e.checkedIndices| == e.sampleSize
    ensures Distinct(e.checkedIndices) && AllBelow(e.checkedIndices, |siftedAlice|)
    ensures e.errors == CountMismatches(siftedAlice, siftedBob, e.checkedIndices) && e.errors <= e.sampleSize
    ensures e.errorRate.None? <==> e.sampleSize == 0
    ensures e.errorRate.Some? ==> e.errorRate.value == ErrorRate(e.errors, e.sampleSize)
  {
    var n := Min(|siftedAlice|, sampleSize);
    var checked := Drawn(Range(|siftedAlice|), rolls[..n]);
    DrawnDistinct(Range(|siftedAlice|), rolls[..n]);
    DrawnBelow(Range(|siftedAlice|), rolls[..n], |siftedAlice|);
    var errors := CountMismatches(siftedAlice, siftedBob, checked);
    JsErrorCheck(if n == 0 then None else Some(errors as real / n as real), errors, checked, n)
  }

  /** `estimateError`: `availableIndices` shrinks by one `splice` per
      sampled index and `errors` counts the mismatches. */
  method EstimateError(siftedAlice: seq<Bit>, siftedBob: seq<Bit>, sampleSize: nat, rolls: seq<real>)
    returns (e: JsErrorCheck)
    requires |siftedBob| == |siftedAlice| && Rolls(rolls) && |rolls| >= Min(|siftedAlice|, sampleSize)
    ensures e == JsErrorEstimation(siftedAlice, siftedBob, sampleSize, rolls)
  {
    var n := Min(|siftedAlice|, sampleSize);
    var errors := 0;
    var checkedIndices: seq<int> := [];
    var availableIndices := Range(|siftedAlice|);
    ghost var draws := rolls[..n];
    ghost var target := Drawn(Range(|siftedAlice|), draws);
    assert draws[0..] == draws;
    for i := 0 to n
      invariant |availableIndices| == |siftedAlice| - i
      invariant AllBelow(availableIndices, |siftedAlice|) && AllBelow(checkedIndices, |siftedAlice|)
      invariant checkedIndices + Drawn(availableIndices, draws[i..]) == target
      invariant errors == CountMismatches(siftedAlice, siftedBob, checkedIndices)
    {
      var randomIndex := Pick(rolls[i], |availableIndices|);
      var index := availableIndices[randomIndex];
      SampleStep(availableIndices, checkedIndices, draws, i, randomIndex, target);
      SpliceBelow(availableIndices, randomIndex, |siftedAlice|);
      CountStep(siftedAlice, siftedBob, checkedIndices, index);
      availableIndices := Splice(availableIndices, randomIndex);
      checkedIndices := checkedIndices + [index];
      if siftedAlice[index] != siftedBob[index] {
        errors := errors + 1;
      }
    }
    assert draws[n..] == [];
    assert checkedIndices == target;
    var errorRate := if n == 0 then None else Some(errors as real / n as real);
    e := JsErrorCheck(errorRate, errors, checkedIndices, n);
  }

  /** Taking an entry out of a list of indices below `n` leaves indices below `n`. */
  lemma SpliceBelow(s: seq<int>, k: nat, n: int)
    requires k < |s| && AllBelow(s, n)
    ensures AllBelow(Splice(s, k), n)
  {
  }

  /** Checking one more index adds one error exactly when the lists differ there. */
  lemma CountStep(a: seq<Bit>, b: seq<Bit>, checked: seq<int>, index: int)
    requires |a| == |b| && AllBelow(checked, |a|) && 0 <= index < |a|
    ensures AllBelow(checked + [index], |a|)
    ensures CountMismatches(a, b, checked + [index])
      == CountMismatches(a, b, checked) + (if a[index] != b[index] then 1 else 0)
  {
    assert (checked + [index])[..|checked|] == checked;
  }

  /** One iteration of the sampling loop keeps the drawn list on track. */
  lemma SampleStep(available: seq<int>, checked: seq<int>, rolls: seq<real>, i: nat, k: nat, target: seq<int>)
    requires Rolls(rolls) && i < |rolls| && |rolls| - i <= |available|
    requires k == Pick(rolls[i], |available|)
    requires checked + Drawn(available, rolls[i..]) == target
    ensures checked + [available[k]] + Drawn(Splice(available, k), rolls[i + 1..]) == target
  {
    DrawnStep(available, rolls, i);
    ConcatAssoc(checked, [available[k]], Drawn(Splice(available, k), rolls[i + 1..]));
  }

  /** One iteration of the sampling loop: `Drawn` over the rolls from `i`
      on starts with the index picked by roll `i`. */
  lemma DrawnStep(available: seq<int>, rolls: seq<real>, i: nat)
    requires Rolls(rolls) && i < |rolls| && |rolls| - i <= |available|
    ensures Drawn(available, rolls[i..])
      == [available[Pick(rolls[i], |available|)]] + Drawn(Splice(available, Pick(rolls[i], |available|)), rolls[i + 1..])
  {
    assert rolls[i..][0] == rolls[i] && rolls[i..][1..] == rolls[i + 1..];
  }

  // ---------------------------------------------------------------------
  // Privacy amplification
  // ---------------------------------------------------------------------

  /** `array.slice(0, end)`: a negative end counts from the back. */
  function SliceTo<T>(s: seq<T>, end: int): (r: seq<T>)
    ensures r <= s
    ensures end >= 0 ==> |r| == Min(end, |s|)
    ensures end < 0 ==> |r| == Max(0, |s| + end)
  {
    if end >= 0 then s[..Min(end, |s|)] else s[..Max(0, |s| + end)]
  }

  /** `privacyAmplification`: the bits at unchecked positions, then `slice(0, keyLength)`. */
  function JsPrivacyAmplification(keyLength: int, siftedAlice: seq<Bit>, checkedIndices: seq<int>): (key: seq<Bit>)
    ensures key <= Remaining(siftedAlice, checkedIndices)
  {
    SliceTo(Remaining(siftedAlice, checkedIndices), keyLength)
  }

  /** For a positive key length it is the Python step with the same key length. */
  lemma JsPrivacyAmplificationAgrees(keyLength: int, bits: seq<Bit>, checked: seq<int>)
    requires keyLength > 0
    ensures ValidConfig(Config(keyLength, Multiplier, QberThreshold))
    ensures JsPrivacyAmplification(keyLength, bits, checked)
      == PrivacyAmplification(Config(keyLength, Multiplier, QberThreshold), bits, checked)
  {
  }

  // ---------------------------------------------------------------------
  // The whole run
  // ---------------------------------------------------------------------

  /** Every `Math.random()` of a run: Alice's bits and bases, Eve's draws,
      Bob's bases and wrong-basis coins, and the sampling rolls. */
  datatype JsDraws = JsDraws(
    aliceBits: seq<Bit>,
    aliceBases: seq<Basis>,
    eve: seq<EveDraw>,
    bobBases: seq<Basis>,
    bobCoins: seq<Bit>,
    rolls: seq<real>)

  predicate JsDrawsFor(d: JsDraws, n: nat)
  {
    && |d.aliceBits| == n && |d.aliceBases| == n && |d.eve| == n
    && |d.bobBases| == n && |d.bobCoins| == n
    && Rolls(d.rolls) && |d.rolls| >= CheckSampleSize && EveRolls(d.eve)
  }

  /** `stats`; the efficiency is `None` where JavaScript computes 0 / 0 (its
      one-decimal string form is not modelled). */
  datatype JsStats = JsStats(transmitted: nat, sifted: nat, finalKeyLength: nat, siftingEfficiency: Option<real>)

  /** The object `execute` returns. */
  datatype JsResult = JsResult(
    aliceBits: seq<Bit>,
    aliceBases: seq<Basis>,
    bobBits: seq<Bit>,
    bobBases: seq<Basis>,
    siftedAlice: seq<Bit>,
    siftedBob: seq<Bit>,
    matchingIndices: seq<int>,
    errorCheck: JsErrorCheck,
    finalKey: seq<Bit>,
    stats: JsStats)

  function JsEfficiency(sifted: nat, transmitted: nat): Option<real>
  {
    if transmitted == 0 then None else Some(sifted as real / transmitted as real * 100.0)
  }

  /** What Bob receives. */
  function JsTransmit(qubits: seq<Qubit>, withEve: bool, rate: real, eve: seq<EveDraw>): seq<Qubit>
    requires |eve| == |qubits|
  {
    if withEve then JsEveIntercept(qubits, rate, eve) else qubits
  }

  /** `execute` on values: it never fails. */
  function JsRun(keyLength: int, withEve: bool, rate: real, d: JsDraws): (r: JsResult)
    requires JsDrawsFor(d, JsTransmissionCount(keyLength))
    ensures |r.aliceBits| == JsTransmissionCount(keyLength)
    ensures r.stats.transmitted == |r.aliceBits| && r.stats.sifted == |r.siftedAlice|
    ensures r.stats.finalKeyLength == |r.finalKey|
  {
    var p := JsAlicePrepare(keyLength, d.aliceBits, d.aliceBases);
    var transmitted := JsTransmit(p.qubits, withEve, rate, d.eve);
    var m := BobMeasure(transmitted, d.bobBases, d.bobCoins);
    var s := Sift(p.bits, p.bases, m.bits, m.bases);
    SiftCorrect(p.bits, p.bases, m.bits, m.bases);
    var e := JsErrorEstimation(s.alice, s.bob, CheckSampleSize, d.rolls);
    var finalKey := JsPrivacyAmplification(keyLength, s.alice, e.checkedIndices);
    JsResult(p.bits, p.bases, m.bits, m.bases, s.alice, s.bob, s.indices, e, finalKey,
             JsStats(|p.bits|, |s.alice|, |finalKey|, JsEfficiency(|s.alice|, |p.bits|)))
  }

  /** `execute`. */
  method Execute(keyLength: int, withEve: bool, rate: real, d: JsDraws) returns (r: JsResult)
    requires JsDrawsFor(d, JsTransmissionCount(keyLength))
    ensures r == JsRun(keyLength, withEve, rate, d)
  {
    var p := JsAlicePrepare(keyLength, d.aliceBits, d.aliceBases);
    var transmittedQubits := p.qubits;
    if withEve {
      transmittedQubits := JsEveIntercept(p.qubits, rate, d.eve);
    }
    var m := BobMeasure(transmittedQubits, d.bobBases, d.bobCoins);
    var s := BasisSifting(p.bits, p.bases, m.bits, m.bases);
    SiftCorrect(p.bits, p.bases, m.bits, m.bases);
    var errorCheck := EstimateError(s.alice, s.bob, CheckSampleSize, d.rolls);
    var finalKey := JsPrivacyAmplification(keyLength, s.alice, errorCheck.checkedIndices);
    r := JsResult(p.bits, p.bases, m.bits, m.bases, s.alice, s.bob, s.indices, errorCheck, finalKey,
                  JsStats(|p.bits|, |s.alice|, |finalKey|, JsEfficiency(|s.alice|, |p.bits|)));
  }

  /** Without an eavesdropper the sifted keys agree and no error is found;
      the error rate is 0, or NaN when nothing was sifted. */
  lemma JsNoEavesdropperNoErrors(keyLength: int, rate: real, d: JsDraws)
    requires JsDrawsFor(d, JsTransmissionCount(keyLength))
    ensures JsRun(keyLength, false, rate, d).siftedAlice == JsRun(keyLength, false, rate, d).siftedBob
    ensures JsRun(keyLength, false, rate, d).errorCheck.errors == 0
    ensures JsRun(keyLength, false, rate, d).errorCheck.errorRate
      == (if JsRun(keyLength, false, rate, d).siftedAlice == [] then None else Some(0.0))
  {
    var p := JsAlicePrepare(keyLength, d.aliceBits, d.aliceBases);
    var m := BobMeasure(p.qubits, d.bobBases, d.bobCoins);
    var s := Sift(p.bits, p.bases, m.bits, m.bases);
    SiftCorrect(p.bits, p.bases, m.bits, m.bases);
    assert s.alice == s.bob by {
      forall j | 0 <= j < |s.indices|
        ensures s.alice[j] == s.bob[j]
      {
        var i := s.indices[j];
        assert p.bases[i] == m.bases[i];
      }
    }
    var e := JsErrorEstimation(s.alice, s.bob, CheckSampleSize, d.rolls);
    NoMismatchIff(s.alice, s.bob, e.checkedIndices);
  }

  /** With an eavesdropper, a sifted mismatch sits at a position Eve
      intercepted in a basis other than Alice's. */
  lemma JsMismatchOnlyAtWrongBasisInterception(keyLength: int, rate: real, d: JsDraws, j: int)
    requires JsDrawsFor(d, JsTransmissionCount(keyLength))
    requires 0 <= j < |JsRun(keyLength, true, rate, d).siftedAlice|
    requires JsRun(keyLength, true, rate, d).siftedAlice[j] != JsRun(keyLength, true, rate, d).siftedBob[j]
    ensures 0 <= JsRun(keyLength, true, rate, d).matchingIndices[j] < JsTransmissionCount(keyLength)
    ensures Intercepts(rate, d.eve[JsRun(keyLength, true, rate, d).matchingIndices[j]])
    ensures d.eve[JsRun(keyLength, true, rate, d).matchingIndices[j]].basis
      != d.aliceBases[JsRun(keyLength, true, rate, d).matchingIndices[j]]
  {
    var p := JsAlicePrepare(keyLength, d.aliceBits, d.aliceBases);
    var t := JsEveIntercept(p.qubits, rate, d.eve);
    var m := BobMeasure(t, d.bobBases, d.bobCoins);
    var s := Sift(p.bits, p.bases, m.bits, m.bases);
    SiftCorrect(p.bits, p.bases, m.bits, m.bases);
    var i := s.indices[j];
    assert p.bases[i] == m.bases[i];
  }

  /** The bookkeeping of a run: `min(sifted, 50)` distinct indices are
      checked, the error rate is NaN exactly when nothing was sifted, and the
      final key has `min(keyLength, sifted - checked)` bits. */
  lemma JsRunSizes(keyLength: int, withEve: bool, rate: real, d: JsDraws)
    requires JsDrawsFor(d, JsTransmissionCount(keyLength))
    ensures |JsRun(keyLength, withEve, rate, d).errorCheck.checkedIndices|
      == Min(|JsRun(keyLength, withEve, rate, d).siftedAlice|, CheckSampleSize)
    ensures JsRun(keyLength, withEve, rate, d).errorCheck.errorRate.None?
      <==> JsRun(keyLength, withEve, rate, d).siftedAlice == []
    ensures keyLength > 0 ==> (|JsRun(keyLength, withEve, rate, d).finalKey|
      == Min(keyLength, |JsRun(keyLength, withEve, rate, d).siftedAlice| - |JsRun(keyLength, withEve, rate, d).errorCheck.checkedIndices|))
    ensures keyLength <= 0 ==> JsRun(keyLength, withEve, rate, d).finalKey == []
  {
    var r := JsRun(keyLength, withEve, rate, d);
    if keyLength > 0 {
      var c := Config(keyLength, Multiplier, QberThreshold);
      JsPrivacyAmplificationAgrees(keyLength, r.siftedAlice, r.errorCheck.checkedIndices);
      FinalKeySpec(c, r.siftedAlice, r.errorCheck.checkedIndices);
    } else {
      assert |r.siftedAlice| <= |r.aliceBits| == 0 by {
        var p := JsAlicePrepare(keyLength, d.aliceBits, d.aliceBases);
        var m := BobMeasure(JsTransmit(p.qubits, withEve, rate, d.eve), d.bobBases, d.bobCoins);
        SiftCorrect(p.bits, p.bases, m.bits, m.bases);
      }
    }
  }

  // ---------------------------------------------------------------------
  // The dashboard's hex encoder
  // ---------------------------------------------------------------------

  /** `bitsToHex`: each group of up to 4 bits read as a binary number; the
      last group is not padded. */
  function JsHexOf(bits: seq<Bit>): (h: string)
    ensures |h| == CeilDiv(|bits|, 4)
    decreases |bits|
  {
    if bits == [] then ""
    else
      var c := Min(4, |bits|);
      [KeyUtils.HexDigit(Nibble(bits[..c]))] + JsHexOf(bits[c..])
  }

  /** The value of a group of at most 4 bits, a hex digit's value. */
  function Nibble(s: seq<Bit>): (v: nat)
    requires |s| <= 4
    ensures v == KeyUtils.Pack(s) && v < 16
  {
    assert KeyUtils.Pow2(1) == 2 && KeyUtils.Pow2(2) == 4 && KeyUtils.Pow2(3) == 8 && KeyUtils.Pow2(4) == 16;
    KeyUtils.Pack(s)
  }

  /** `value.toString(16)` for a value below 16: a lower-case digit. */
  function LowerHexDigit(v: nat): (d: char)
    requires v < 16
    ensures KeyUtils.UpperHex(d) == KeyUtils.HexDigit(v)
  {
    "0123456789abcdef"[v]
  }

  /** `bitsToHex`: lower-case digits appended in a loop, then `toUpperCase`. */
  method JsBitsToHex(bits: seq<Bit>) returns (upper: string)
    ensures upper == JsHexOf(bits)
  {
    var hex := "";
    assert bits[0..] == bits;
    var i := 0;
    while i < |bits|
      invariant 0 <= i
      invariant JsHexOf(bits) == KeyUtils.UpperHexString(hex) + JsHexOf(bits[Min(i, |bits|)..])
    {
      var end := Min(i + 4, |bits|);
      var digit := LowerHexDigit(Nibble(bits[i..end]));
      HexStep(bits, hex, i, end, digit);
      hex := hex + [digit];
      i := i + 4;
    }
    upper := KeyUtils.UpperHexString(hex);
  }

  /** One iteration of the encoding loop keeps the encoded prefix on track. */
  lemma HexStep(bits: seq<Bit>, hex: string, i: nat, end: nat, d: char)
    requires i < |bits| && end == Min(i + 4, |bits|) && d == LowerHexDigit(Nibble(bits[i..end]))
    requires JsHexOf(bits) == KeyUtils.UpperHexString(hex) + JsHexOf(bits[i..])
    ensures JsHexOf(bits) == KeyUtils.UpperHexString(hex + [d]) + JsHexOf(bits[end..])
  {
    JsHexOfAt(bits, i, end);
    UpperHexStringSnoc(hex, d);
    ConcatAssoc(KeyUtils.UpperHexString(hex), [KeyUtils.UpperHex(d)], JsHexOf(bits[end..]));
  }

  lemma JsHexOfAt(bits: seq<Bit>, i: nat, end: nat)
    requires i < |bits| && end == Min(i + 4, |bits|)
    ensures JsHexOf(bits[i..]) == [KeyUtils.HexDigit(Nibble(bits[i..end]))] + JsHexOf(bits[end..])
  {
    assert bits[i..][..end - i] == bits[i..end];
    assert bits[i..][end - i..] == bits[end..];
  }

  lemma UpperHexStringSnoc(s: string, d: char)
    ensures KeyUtils.UpperHexString(s + [d]) == KeyUtils.UpperHexString(s) + [KeyUtils.UpperHex(d)]
  {
  }

  /** On whole nibbles it agrees with the padded Python encoder. */
  lemma {:induction false} JsHexOfWholeNibbles(bits: seq<Bit>)
    requires |bits| % 4 == 0
    ensures JsHexOf(bits) == KeyUtils.HexOf(bits)
    decreases |bits|
  {
    if bits != [] {
      assert bits[..4] + Zeros(0) == bits[..4];
      JsHexOfWholeNibbles(bits[4..]);
    }
  }

  /** A trailing partial group is read unpadded: one bit 1 is "1" here but
      "8" in the Python encoder. */
  lemma JsHexOfUnpadded()
    ensures JsHexOf([1]) == "1"
    ensures KeyUtils.HexOf([1]) == "8"
  {
    assert [1][..1] == [1] && [1][1..] == [];
    assert KeyUtils.Pack([1]) == 1;
    assert [1] + Zeros(3) == [1, 0, 0, 0];
    KeyUtils.NibbleValue([1, 0, 0, 0]);
  }
}
