/** backend/core/qiskit_bb84.py (`QiskitBB84Protocol`): the same six steps
    as `BB84Protocol`, with Alice's qubits held as `QiskitQubit`s. They are
    converted to plain qubits for Eve and back for Bob, and Bob's measurement
    is a circuit simulation, modelled as an oracle. Sifting, error
    estimation and privacy amplification are the same code as in bb84.py
    and reuse the `Protocol` members. */
module QiskitProtocol {
  import opened Basics
  import opened Qubits
  import opened Eavesdropping
  import opened Shuffling
  import opened Protocol

  /** A `QiskitQubit` as far as the protocol looks at it: its checked basis
      and bit (the circuit it carries is not modelled). */
  datatype QiskitQubit = QiskitQubit(basis: Basis, bitValue: Bit)

  /** The simulator's outcome for measuring qubit `q` in basis `b`, as the
      `k`-th measurement of the run. */
  type Oracle = (QiskitQubit, Basis, nat) -> Bit

  /** What the circuit guarantees: measured in its preparation basis, a
      basis state gives back the prepared bit. Other outcomes are unconstrained. */
  ghost predicate Faithful(o: Oracle)
  {
    forall q: QiskitQubit, k: nat :: o(q, q.basis, k) == q.bitValue
  }

  /** `[Qubit(q.basis, q.bit_value) for q in qubits]`. */
  function ToRegular(qs: seq<QiskitQubit>): (r: seq<Qubit>)
    ensures |r| == |qs|
    ensures forall i :: 0 <= i < |qs| ==> r[i].basis == qs[i].basis && r[i].bitValue == qs[i].bitValue
  {
    seq(|qs|, i requires 0 <= i < |qs| => Qubit(qs[i].basis, qs[i].bitValue))
  }

  /** `[QiskitQubit(q.basis, q.bit_value) for q in intercepted_regular]`. */
  function ToQiskit(qs: seq<Qubit>): (r: seq<QiskitQubit>)
    ensures |r| == |qs|
    ensures forall i :: 0 <= i < |qs| ==> r[i].basis == qs[i].basis && r[i].bitValue == qs[i].bitValue
  {
    seq(|qs|, i requires 0 <= i < |qs| => QiskitQubit(qs[i].basis, qs[i].bitValue))
  }

  /** The two conversions are inverse to each other. */
  lemma ConversionRoundTrip(qs: seq<QiskitQubit>, rs: seq<Qubit>)
    ensures ToQiskit(ToRegular(qs)) == qs
    ensures ToRegular(ToQiskit(rs)) == rs
  {
    assert forall i :: 0 <= i < |qs| ==> ToQiskit(ToRegular(qs))[i] == qs[i];
    assert forall i :: 0 <= i < |rs| ==> ToRegular(ToQiskit(rs))[i] == rs[i];
  }

  /** `_alice_prepare`: Alice's bits and bases as in bb84.py, as circuits. */
  function QiskitPrepare(c: Config, bitDraws: seq<Bit>, basisDraws: seq<Basis>): (qs: seq<QiskitQubit>)
    requires ValidConfig(c)
    requires |bitDraws| == TransmissionCount(c) && |basisDraws| == TransmissionCount(c)
    ensures |qs| == TransmissionCount(c)
    ensures forall i :: 0 <= i < |qs| ==> qs[i] == QiskitQubit(basisDraws[i], bitDraws[i])
  {
    ToQiskit(AlicePrepare(c, bitDraws, basisDraws).qubits)
  }

  /** `_bob_measure`: the k-th qubit measured in Bob's k-th basis by the simulator. */
  function QiskitBobMeasure(qs: seq<QiskitQubit>, basisDraws: seq<Basis>, o: Oracle): (m: Measurement)
    requires |basisDraws| == |qs|
    ensures |m.bits| == |qs| && m.bases == basisDraws
    ensures forall i :: 0 <= i < |qs| ==> m.bits[i] == o(qs[i], basisDraws[i], i)
  {
    Measurement(seq(|qs|, i requires 0 <= i < |qs| => o(qs[i], basisDraws[i], i)), basisDraws)
  }

  /** Step 2 on values: Eve works on converted plain qubits and her output is
      converted back. */
  function QiskitTransmit(qs: seq<QiskitQubit>, withEve: bool, rate: real, eve: seq<EveDraw>)
    : (seq<QiskitQubit>, Option<EveStats>)
    requires |eve| == |qs|
  {
    if withEve then
      var sent := Transmit(ToRegular(qs), true, rate, eve);
      (ToQiskit(sent.0), sent.1)
    else (qs, None)
  }

  /** `QiskitBB84Result`: the bb84.py fields plus the implementation tag. */
  datatype QiskitResult = QiskitResult(run: BB84Result, implementation: string)

  /** `execute` on values; Bob's wrong-basis coins of `d` are not used, the
      oracle decides every outcome. */
  function QiskitRun(c: Config, withEve: bool, rate: real, d: Draws, o: Oracle): (r: Result<QiskitResult>)
    requires ValidConfig(c) && DrawsFor(d, TransmissionCount(c))
    ensures r.Ok? <==> !withEve || 0.0 <= rate <= 1.0
    ensures r.Err? ==> r.error == InvalidProbability
    ensures r.Ok? ==> r.value.implementation == "Qiskit"
  {
    if withEve && !(0.0 <= rate <= 1.0) then Err(InvalidProbability)
    else
      var qs := QiskitPrepare(c, d.aliceBits, d.aliceBases);
      var (transmitted, stats) := QiskitTransmit(qs, withEve, rate, d.eve);
      var m := QiskitBobMeasure(transmitted, d.bobBases, o);
      Ok(QiskitResult(Conclude(c, d.aliceBits, d.aliceBases, m, d.picks, withEve, stats), "Qiskit"))
  }

  /** `execute`. */
  method Execute(c: Config, withEve: bool, rate: real, d: Draws, o: Oracle) returns (r: Result<QiskitResult>)
    requires ValidConfig(c) && DrawsFor(d, TransmissionCount(c))
    ensures r == QiskitRun(c, withEve, rate, d, o)
  {
    var qubits := QiskitPrepare(c, d.aliceBits, d.aliceBases);
    var transmitted := qubits;
    var eveStats: Option<EveStats> := None;
    if withEve {
      var regular := ToRegular(qubits);
      var sent := Transmission(regular, true, rate, d.eve);
      if sent.Err? {
        return Err(sent.error);
      }
      transmitted := ToQiskit(sent.value.0);
      eveStats := sent.value.1;
    }
    var m := QiskitBobMeasure(transmitted, d.bobBases, o);
    var res := Finish(c, d.aliceBits, d.aliceBases, m, d.picks, withEve, eveStats);
    r := Ok(QiskitResult(res, "Qiskit"));
  }

  /** With a faithful simulator and no eavesdropper, the sifted keys agree,
      no error is found and the run is secure. */
  lemma QiskitNoEavesdropperNoErrors(c: Config, rate: real, d: Draws, o: Oracle)
    requires ValidConfig(c) && DrawsFor(d, TransmissionCount(c)) && Faithful(o)
    ensures QiskitRun(c, false, rate, d, o).Ok?
    ensures QiskitRun(c, false, rate, d, o).value.run.siftedAliceBits == QiskitRun(c, false, rate, d, o).value.run.siftedBobBits
    ensures QiskitRun(c, false, rate, d, o).value.run.errorsFound == 0
    ensures QiskitRun(c, false, rate, d, o).value.run.isSecure
  {
    var qs := QiskitPrepare(c, d.aliceBits, d.aliceBases);
    var m := QiskitBobMeasure(qs, d.bobBases, o);
    var s := Sift(d.aliceBits, d.aliceBases, m.bits, m.bases);
    SiftCorrect(d.aliceBits, d.aliceBases, m.bits, m.bases);
    assert s.alice == s.bob by {
      forall j | 0 <= j < |s.indices|
        ensures s.alice[j] == s.bob[j]
      {
        var i := s.indices[j];
        assert d.aliceBases[i] == m.bases[i];
        assert m.bits[i] == o(qs[i], qs[i].basis, i);
      }
    }
    ErrorFreeIff(c, s.alice, s.bob, d.picks);
  }

  /** With a faithful simulator and an eavesdropper, a sifted mismatch lies at
      a position Eve intercepted in a basis other than Alice's. */
  lemma QiskitMismatchOnlyAtWrongBasisInterception(c: Config, rate: real, d: Draws, o: Oracle, j: int)
    requires ValidConfig(c) && DrawsFor(d, TransmissionCount(c)) && Faithful(o) && 0.0 <= rate <= 1.0
    requires 0 <= j < |QiskitRun(c, true, rate, d, o).value.run.siftedAliceBits|
    requires QiskitRun(c, true, rate, d, o).value.run.siftedAliceBits[j] != QiskitRun(c, true, rate, d, o).value.run.siftedBobBits[j]
    ensures 0 <= QiskitRun(c, true, rate, d, o).value.run.matchingIndices[j] < TransmissionCount(c)
    ensures Intercepts(rate, d.eve[QiskitRun(c, true, rate, d, o).value.run.matchingIndices[j]])
    ensures d.eve[QiskitRun(c, true, rate, d, o).value.run.matchingIndices[j]].basis
      != d.aliceBases[QiskitRun(c, true, rate, d, o).value.run.matchingIndices[j]]
  {
    var n := TransmissionCount(c);
    var qs := QiskitPrepare(c, d.aliceBits, d.aliceBases);
    var regular := ToRegular(qs);
    var t := InterceptAll(regular, rate, d.eve);
    var transmitted := ToQiskit(t.out);
    var m := QiskitBobMeasure(transmitted, d.bobBases, o);
    var s := Sift(d.aliceBits, d.aliceBases, m.bits, m.bases);
    SiftCorrect(d.aliceBits, d.aliceBases, m.bits, m.bases);
    InterceptedOutput(regular, rate, d.eve, n);
    var i := s.indices[j];
    assert d.aliceBases[i] == m.bases[i];
    assert m.bits[i] == o(transmitted[i], d.bobBases[i], i);
  }

  /** The bookkeeping of a successful Qiskit run: `key_length * multiplier`
      circuits are sent, the eavesdropper fields follow the request, and the
      final key has `min(key_length, total_sifted - checked)` bits. */
  lemma QiskitRunSizes(c: Config, withEve: bool, rate: real, d: Draws, o: Oracle)
    requires ValidConfig(c) && DrawsFor(d, TransmissionCount(c))
    requires !withEve || 0.0 <= rate <= 1.0
    ensures QiskitRun(c, withEve, rate, d, o).value.run.totalTransmitted == c.keyLength * c.transmissionMultiplier
    ensures QiskitRun(c, withEve, rate, d, o).value.run.eavesdropperPresent == withEve
    ensures QiskitRun(c, withEve, rate, d, o).value.run.eavesdropperStats.Some? <==> withEve
    ensures QiskitRun(c, withEve, rate, d, o).value.run.finalKeyLength <= c.keyLength
    ensures QiskitRun(c, withEve, rate, d, o).value.run.finalKeyLength
      == Min(c.keyLength, QiskitRun(c, withEve, rate, d, o).value.run.totalSifted
                          - |QiskitRun(c, withEve, rate, d, o).value.run.checkedIndices|)
  {
    var qs := QiskitPrepare(c, d.aliceBits, d.aliceBases);
    var (transmitted, stats) := QiskitTransmit(qs, withEve, rate, d.eve);
    var m := QiskitBobMeasure(transmitted, d.bobBases, o);
    var s := Sift(d.aliceBits, d.aliceBases, m.bits, m.bases);
    SiftCorrect(d.aliceBits, d.aliceBases, m.bits, m.bases);
    var e := ErrorEstimation(c, s.alice, s.bob, d.picks);
    assert ValidPicks(d.picks, |s.alice|);
    Distinctness(e.checked);
    FinalKeySpec(c, s.alice, e.checked);
  }
}
