/** The eavesdropper of backend/core/eavesdropper.py: Eve's intercept-resend
    attack over a list of qubits, with the records she keeps. Her random
    choices at position i (the `random.random()` roll, her basis and the coin
    of a wrong-basis measurement) are given as `draws[i]`. */
module Eavesdropping {
  import opened Basics
  import opened Qubits

  datatype Strategy = InterceptResend | Passive

  /** The two strategy literals the constructor accepts. */
  function ParseStrategy(s: string): Option<Strategy>
  {
    if s == "intercept-resend" then Some(InterceptResend)
    else if s == "passive" then Some(Passive)
    else None
  }

  /** Eve's random draws for one transmission slot. */
  datatype EveDraw = EveDraw(roll: real, basis: Basis, coin: Bit)

  /** Every roll is a possible value of `random.random()`, which lies in [0, 1). */
  predicate EveRolls(draws: seq<EveDraw>)
  {
    forall i :: 0 <= i < |draws| ==> 0.0 <= draws[i].roll < 1.0
  }

  /** `random.random() < intercept_probability`. */
  predicate Intercepts(p: real, d: EveDraw)
  {
    d.roll < p
  }

  /** `_intercept_and_resend` on values: Eve measures in her basis and sends a
      fresh qubit built from her basis and her outcome. */
  function Resend(q: Qubit, d: EveDraw): (r: Qubit)
    ensures r.basis == d.basis && r.bitValue == MeasureIn(q, d.basis, d.coin)
    ensures d.basis == q.basis ==> r == q
  {
    Qubit(d.basis, MeasureIn(q, d.basis, d.coin))
  }

  /** What one intercept-resend pass over a list produces: the forwarded
      list and what Eve appends to her three lists. */
  datatype Trace = Trace(out: seq<Qubit>, bits: seq<Bit>, bases: seq<Basis>, indices: seq<int>)

  /** The intercept-resend loop run over the first `k` positions. */
  function InterceptPrefix(qs: seq<Qubit>, p: real, draws: seq<EveDraw>, k: nat): (t: Trace)
    requires k <= |qs| == |draws|
    ensures |t.out| == k
    ensures |t.bits| == |t.indices| && |t.bases| == |t.indices|
  {
    if k == 0 then Trace([], [], [], [])
    else
      var t := InterceptPrefix(qs, p, draws, k - 1);
      var d := draws[k - 1];
      if Intercepts(p, d) then
        var q := Resend(qs[k - 1], d);
        Trace(t.out + [q], t.bits + [q.bitValue], t.bases + [q.basis], t.indices + [k - 1])
      else
        Trace(t.out + [qs[k - 1]], t.bits, t.bases, t.indices)
  }

  /** The output keeps length and order: an untouched position forwards the
      original qubit, an intercepted one carries Eve's basis and outcome. */
  lemma {:induction false} InterceptedOutput(qs: seq<Qubit>, p: real, draws: seq<EveDraw>, k: nat)
    requires k <= |qs| == |draws|
    ensures var t := InterceptPrefix(qs, p, draws, k);
      forall i :: 0 <= i < k ==>
        t.out[i] == (if Intercepts(p, draws[i]) then Resend(qs[i], draws[i]) else qs[i])
  {
    if k > 0 {
      InterceptedOutput(qs, p, draws, k - 1);
    }
  }

  /** The recorded indices are exactly the intercepted positions, in
      increasing order. */
  lemma {:induction false} InterceptedIndices(qs: seq<Qubit>, p: real, draws: seq<EveDraw>, k: nat)
    requires k <= |qs| == |draws|
    ensures var t := InterceptPrefix(qs, p, draws, k);
      && StrictlyIncreasing(t.indices) && AllBelow(t.indices, k)
      && forall i :: 0 <= i < k ==> (i in t.indices <==> Intercepts(p, draws[i]))
  {
    if k > 0 {
      InterceptedIndices(qs, p, draws, k - 1);
      var t := InterceptPrefix(qs, p, draws, k - 1);
      AppendAbove(t.indices, k - 1);
      if !Intercepts(p, draws[k - 1]) {
        assert forall i :: 0 <= i < |t.indices| ==> 0 <= t.indices[i] < k;
      }
    }
  }

  /** Entry j of Eve's records is her basis and outcome at the j-th
      intercepted position. */
  lemma {:induction false} InterceptedRecords(qs: seq<Qubit>, p: real, draws: seq<EveDraw>, k: nat)
    requires k <= |qs| == |draws|
    ensures forall j :: 0 <= j < |InterceptPrefix(qs, p, draws, k).indices| ==>
      0 <= InterceptPrefix(qs, p, draws, k).indices[j] < k
    ensures forall j :: 0 <= j < |InterceptPrefix(qs, p, draws, k).indices| ==>
      InterceptPrefix(qs, p, draws, k).bases[j] == draws[InterceptPrefix(qs, p, draws, k).indices[j]].basis
    ensures forall j :: 0 <= j < |InterceptPrefix(qs, p, draws, k).indices| ==>
      InterceptPrefix(qs, p, draws, k).bits[j]
        == MeasureIn(qs[InterceptPrefix(qs, p, draws, k).indices[j]], draws[InterceptPrefix(qs, p, draws, k).indices[j]].basis,
                     draws[InterceptPrefix(qs, p, draws, k).indices[j]].coin)
  {
    if k > 0 {
      InterceptedRecords(qs, p, draws, k - 1);
    }
  }

  /** The whole intercept-resend pass. */
  function InterceptAll(qs: seq<Qubit>, p: real, draws: seq<EveDraw>): Trace
    requires |qs| == |draws|
  {
    InterceptPrefix(qs, p, draws, |qs|)
  }

  /** At rate 0 no roll is below the rate: the first `k` qubits are forwarded
      unchanged and nothing is recorded. */
  lemma {:induction false} InterceptNonePrefix(qs: seq<Qubit>, draws: seq<EveDraw>, k: nat)
    requires k <= |qs| == |draws| && EveRolls(draws)
    ensures InterceptPrefix(qs, 0.0, draws, k) == Trace(qs[..k], [], [], [])
  {
    if k > 0 {
      InterceptNonePrefix(qs, draws, k - 1);
      assert qs[..k - 1] + [qs[k - 1]] == qs[..k];
    }
  }

  /** An intercept probability of 0 lets every qubit through untouched and
      leaves Eve's records empty. */
  lemma InterceptNoneAtZero(qs: seq<Qubit>, draws: seq<EveDraw>)
    requires |draws| == |qs| && EveRolls(draws)
    ensures InterceptAll(qs, 0.0, draws) == Trace(qs, [], [], [])
  {
    InterceptNonePrefix(qs, draws, |qs|);
    assert qs[..|qs|] == qs;
  }

  /** At rate 1 every roll is below the rate: each of the first `k` positions
      is intercepted, in order. */
  lemma {:induction false} InterceptEveryPrefix(qs: seq<Qubit>, draws: seq<EveDraw>, k: nat)
    requires k <= |qs| == |draws| && EveRolls(draws)
    ensures InterceptPrefix(qs, 1.0, draws, k).indices == seq(k, i => i)
    ensures forall i :: 0 <= i < k ==> InterceptPrefix(qs, 1.0, draws, k).out[i] == Resend(qs[i], draws[i])
  {
    if k > 0 {
      InterceptEveryPrefix(qs, draws, k - 1);
      assert seq(k - 1, i => i) + [k - 1] == seq(k, i => i);
    }
  }

  /** An intercept probability of 1 intercepts every position: Eve records
      every index and Bob receives only her resent qubits. */
  lemma InterceptEveryAtOne(qs: seq<Qubit>, draws: seq<EveDraw>)
    requires |draws| == |qs| && EveRolls(draws)
    ensures InterceptAll(qs, 1.0, draws).indices == seq(|qs|, i => i)
    ensures forall i :: 0 <= i < |qs| ==> InterceptAll(qs, 1.0, draws).out[i] == Resend(qs[i], draws[i])
  {
    InterceptEveryPrefix(qs, draws, |qs|);
  }

  /** Number of entries of `bases` equal to `b`. */
  function CountBasis(bases: seq<Basis>, b: Basis): nat
  {
    if bases == [] then 0
    else CountBasis(bases[..|bases| - 1], b) + (if bases[|bases| - 1] == b then 1 else 0)
  }

  /** Number of entries of `bits` equal to `v`. */
  function CountBit(bits: seq<Bit>, v: Bit): nat
  {
    if bits == [] then 0
    else CountBit(bits[..|bits| - 1], v) + (if bits[|bits| - 1] == v then 1 else 0)
  }

  lemma {:induction false} BasisCountsPartition(bases: seq<Basis>)
    ensures CountBasis(bases, Z) + CountBasis(bases, X) == |bases|
  {
    if bases != [] {
      BasisCountsPartition(bases[..|bases| - 1]);
    }
  }

  lemma {:induction false} BitCountsPartition(bits: seq<Bit>)
    ensures CountBit(bits, 0) + CountBit(bits, 1) == |bits|
  {
    if bits != [] {
      BitCountsPartition(bits[..|bits| - 1]);
    }
  }

  /** The dictionary `get_statistics` returns. */
  datatype EveStats = EveStats(
    totalIntercepted: nat,
    interceptRate: real,
    zCount: nat,
    xCount: nat,
    zeroCount: nat,
    oneCount: nat,
    interceptionIndices: seq<int>)

  /** The statistics snapshot of a set of records: basis counts add up to the
      number of bases recorded and bit counts to the number of bits. */
  function StatsOf(count: nat, p: real, bits: seq<Bit>, bases: seq<Basis>, indices: seq<int>): (s: EveStats)
    ensures s.zCount + s.xCount == |bases|
    ensures s.zeroCount + s.oneCount == |bits|
    ensures s.totalIntercepted == count && s.interceptRate == p && s.interceptionIndices == indices
  {
    BasisCountsPartition(bases);
    BitCountsPartition(bits);
    EveStats(count, p, CountBasis(bases, Z), CountBasis(bases, X), CountBit(bits, 0), CountBit(bits, 1), indices)
  }

  class Eavesdropper {
    const interceptProbability: real
    const strategy: Strategy
    var interceptedCount: nat
    var eveBits: seq<Bit>
    var eveBases: seq<Basis>
    var interceptionIndices: seq<int>

    /** The configuration is in range and the four records grow in lockstep. */
    ghost predicate Valid()
      reads this
    {
      && 0.0 <= interceptProbability <= 1.0
      && interceptedCount == |eveBits|
      && interceptedCount == |eveBases|
      && interceptedCount == |interceptionIndices|
    }

    predicate IsEmpty()
      reads this
    {
      interceptedCount == 0 && eveBits == [] && eveBases == [] && interceptionIndices == []
    }

    /** `__init__` once its arguments have been checked by `Create`. */
    constructor (p: real, s: Strategy)
      requires 0.0 <= p <= 1.0
      ensures Valid() && IsEmpty()
      ensures interceptProbability == p && strategy == s
    {
      interceptProbability := p;
      strategy := s;
      interceptedCount := 0;
      eveBits := [];
      eveBases := [];
      interceptionIndices := [];
    }

    /** `__init__` with its checks: the probability first, then the strategy. */
    static method Create(p: real, strategy: string) returns (r: Result<Eavesdropper>)
      ensures r.Ok? <==> 0.0 <= p <= 1.0 && ParseStrategy(strategy).Some?
      ensures !(0.0 <= p <= 1.0) ==> r == Err(InvalidProbability)
      ensures 0.0 <= p <= 1.0 && ParseStrategy(strategy).None? ==> r == Err(InvalidStrategy)
      ensures r.Ok? ==> fresh(r.value) && r.value.Valid() && r.value.IsEmpty()
      ensures r.Ok? ==> r.value.interceptProbability == p && Some(r.value.strategy) == ParseStrategy(strategy)
    {
      if !(0.0 <= p <= 1.0) {
        return Err(InvalidProbability);
      }
      match ParseStrategy(strategy)
      case None =>
        r := Err(InvalidStrategy);
      case Some(s) =>
        var eve := new Eavesdropper(p, s);
        r := Ok(eve);
    }

    /** `_intercept_and_resend`: records Eve's outcome and basis and returns
        the qubit she sends on. */
    method InterceptAndResend(q: Qubit, d: EveDraw) returns (r: Qubit)
      modifies this
      ensures r == Resend(q, d)
      ensures eveBits == old(eveBits) + [r.bitValue]
      ensures eveBases == old(eveBases) + [d.basis]
      ensures interceptedCount == old(interceptedCount)
      ensures interceptionIndices == old(interceptionIndices)
    {
      var eveBasis := d.basis;
      var eveMeasurement := MeasureIn(q, eveBasis, d.coin);
      eveBits := eveBits + [eveMeasurement];
      eveBases := eveBases + [eveBasis];
      r := Qubit(eveBasis, eveMeasurement);
    }

    /** `intercept`: the passive strategy forwards the list untouched; the
        intercept-resend strategy forwards or replaces each qubit and appends
        to the records what `InterceptAll` says. */
    method Intercept(qubits: seq<Qubit>, draws: seq<EveDraw>) returns (r: seq<Qubit>)
      requires Valid() && |draws| == |qubits| && EveRolls(draws)
      modifies this
      ensures Valid()
      ensures strategy == Passive ==>
        && r == qubits
        && interceptedCount == old(interceptedCount)
        && eveBits == old(eveBits)
        && eveBases == old(eveBases)
        && interceptionIndices == old(interceptionIndices)
      ensures strategy == InterceptResend ==>
        var t := InterceptAll(qubits, interceptProbability, draws);
        && r == t.out
        && eveBits == old(eveBits) + t.bits
        && eveBases == old(eveBases) + t.bases
        && interceptionIndices == old(interceptionIndices) + t.indices
        && interceptedCount == old(interceptedCount) + |t.indices|
    {
      if strategy == Passive {
        return qubits;
      }
      var modified: seq<Qubit> := [];
      var idx := 0;
      while idx < |qubits|
        invariant 0 <= idx <= |qubits|
        invariant Valid()
        invariant
          var t := InterceptPrefix(qubits, interceptProbability, draws, idx);
          && modified == t.out
          && eveBits == old(eveBits) + t.bits
          && eveBases == old(eveBases) + t.bases
          && interceptionIndices == old(interceptionIndices) + t.indices
          && interceptedCount == old(interceptedCount) + |t.indices|
      {
        if draws[idx].roll < interceptProbability {
          var interceptedQubit := InterceptAndResend(qubits[idx], draws[idx]);
          modified := modified + [interceptedQubit];
          interceptionIndices := interceptionIndices + [idx];
          interceptedCount := interceptedCount + 1;
        } else {
          modified := modified + [qubits[idx]];
        }
        idx := idx + 1;
      }
      r := modified;
    }

    /** `reset`: empties the records; probability and strategy are constants. */
    method Reset()
      requires Valid()
      modifies this
      ensures Valid() && IsEmpty()
    {
      interceptedCount := 0;
      eveBits := [];
      eveBases := [];
      interceptionIndices := [];
    }

    /** `get_statistics`: a read-only snapshot of the records. */
    function GetStatistics(): (s: EveStats)
      reads this
      requires Valid()
      ensures s == StatsOf(interceptedCount, interceptProbability, eveBits, eveBases, interceptionIndices)
      ensures s.zCount + s.xCount == |eveBases| && s.zeroCount + s.oneCount == |eveBits|
      ensures s.totalIntercepted == |eveBases| && s.totalIntercepted == |interceptionIndices|
    {
      StatsOf(interceptedCount, interceptProbability, eveBits, eveBases, interceptionIndices)
    }
  }

  /** `calculate_expected_qber`: a quarter of the intercept rate, refused
      outside [0, 1]; the result lies in [0, 0.25]. */
  function CalculateExpectedQber(rate: real): (r: Result<real>)
    ensures r.Ok? <==> 0.0 <= rate <= 1.0
    ensures r.Err? ==> r.error == InvalidProbability
    ensures r.Ok? ==> 0.0 <= r.value <= 0.25 && r.value * 4.0 == rate
  {
    if !(0.0 <= rate <= 1.0) then Err(InvalidProbability) else Ok(rate * 0.25)
  }

  /** `simulate_interception`: a fresh intercept-resend eavesdropper run once
      over the list. */
  method SimulateInterception(qubits: seq<Qubit>, rate: real, draws: seq<EveDraw>)
    returns (r: Result<(seq<Qubit>, Eavesdropper)>)
    requires |draws| == |qubits| && EveRolls(draws)
    ensures r.Ok? <==> 0.0 <= rate <= 1.0
    ensures r.Err? ==> r.error == InvalidProbability
    ensures r.Ok? ==>
      var t := InterceptAll(qubits, rate, draws);
      var eve := r.value.1;
      && fresh(eve) && eve.Valid()
      && r.value.0 == t.out
      && eve.interceptProbability == rate && eve.strategy == InterceptResend
      && eve.eveBits == t.bits && eve.eveBases == t.bases && eve.interceptionIndices == t.indices
  {
    var created := Eavesdropper.Create(rate, "intercept-resend");
    match created
    case Err(e) =>
      r := Err(e);
    case Ok(eve) =>
      var modified := eve.Intercept(qubits, draws);
      r := Ok((modified, eve));
  }
}
