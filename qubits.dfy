/** The qubit value type of backend/core/qubit.py: a (basis, bit) pair whose
    domain is checked when it is built, and the measurement rule on which the
    protocol's security rests. The random bit drawn for a wrong-basis
    measurement (`random.choice([0, 1])`) is an explicit `coin` argument. */
module Qubits {
  import opened Basics

  /** Z is the computational basis, X the Hadamard basis. */
  datatype Basis = Z | X

  /** The literal the Python code uses for a basis. */
  function BasisName(b: Basis): string
  {
    match b
    case Z => "Z"
    case X => "X"
  }

  /** Reads a basis literal; only "Z" and "X" are accepted. */
  function ParseBasis(s: string): (r: Option<Basis>)
    ensures r.Some? ==> BasisName(r.value) == s
  {
    if s == "Z" then Some(Z) else if s == "X" then Some(X) else None
  }

  predicate IsBasisName(s: string)
  {
    s == "Z" || s == "X"
  }

  /** A prepared qubit. Its fields are never reassigned after construction. */
  datatype Qubit = Qubit(basis: Basis, bitValue: Bit)

  /** `Qubit.__init__`: the basis is checked first, then the bit value. */
  function NewQubit(basis: string, bitValue: int): (r: Result<Qubit>)
    ensures r.Ok? <==> IsBasisName(basis) && (bitValue == 0 || bitValue == 1)
    ensures !IsBasisName(basis) ==> r == Err(InvalidBasis)
    ensures IsBasisName(basis) && bitValue != 0 && bitValue != 1 ==> r == Err(InvalidBit)
    ensures r.Ok? ==> BasisName(r.value.basis) == basis && r.value.bitValue == bitValue
  {
    match ParseBasis(basis)
    case None => Err(InvalidBasis)
    case Some(b) => if bitValue == 0 || bitValue == 1 then Ok(Qubit(b, bitValue)) else Err(InvalidBit)
  }

  /** `_calculate_state`: the ket label of the prepared state, `|s⟩` with a
      digit for the Z basis and a sign for the X basis; the symbol is `0` or
      `+` exactly for the bit 0. */
  function State(q: Qubit): (s: string)
    ensures |s| == 3 && s[0] == '|' && s[2] == '\U{27E9}'
    ensures q.basis == Z <==> s[1] in "01"
    ensures q.bitValue == 0 <==> s[1] in "0+"
  {
    match q.basis
    case Z => if q.bitValue == 0 then "|0\U{27E9}" else "|1\U{27E9}"
    case X => if q.bitValue == 0 then "|+\U{27E9}" else "|\U{2212}\U{27E9}"
  }

  /** The four labels are pairwise different, so the label determines the qubit. */
  lemma StateInjective(p: Qubit, q: Qubit)
    ensures State(p) == State(q) <==> p == q
  {
    if State(p) == State(q) {
      assert State(p)[1] == State(q)[1];
    }
  }

  /** `measure` with a basis already known to be Z or X: the preparation basis
      gives back the prepared bit, any other basis gives the random draw. */
  function MeasureIn(q: Qubit, b: Basis, coin: Bit): (r: Bit)
    ensures b == q.basis ==> r == q.bitValue
    ensures b != q.basis ==> r == coin
  {
    if b == q.basis then q.bitValue else coin
  }

  /** `measure` as called with a basis literal: anything but "Z" / "X" fails. */
  function Measure(q: Qubit, basis: string, coin: Bit): (r: Result<Bit>)
    ensures r.Ok? <==> IsBasisName(basis)
    ensures r.Err? ==> r.error == InvalidBasis
    ensures basis == BasisName(q.basis) ==> r == Ok(q.bitValue)
    ensures IsBasisName(basis) && basis != BasisName(q.basis) ==> r == Ok(coin)
  {
    match ParseBasis(basis)
    case None => Err(InvalidBasis)
    case Some(b) => Ok(MeasureIn(q, b, coin))
  }

  /** The outcome ignores the random draw exactly when the measurement basis
      is the preparation basis: a wrong-basis measurement carries no trace of
      the prepared bit. */
  lemma OutcomeIndependentOfDrawIff(q: Qubit, b: Basis)
    ensures (forall c1: Bit, c2: Bit :: MeasureIn(q, b, c1) == MeasureIn(q, b, c2)) <==> b == q.basis
  {
    if b != q.basis {
      assert MeasureIn(q, b, 0) != MeasureIn(q, b, 1);
    }
  }

  /** Repeating a measurement in the preparation basis, with any draws, always
      reproduces the prepared bit; measuring leaves the qubit as it was. */
  lemma RepeatedMeasurementStable(q: Qubit, coins: seq<Bit>)
    ensures forall i :: 0 <= i < |coins| ==> MeasureIn(q, q.basis, coins[i]) == q.bitValue
  {
  }

  /** `create_random_qubit` with its two draws given. */
  function CreateRandomQubit(basisDraw: Basis, bitDraw: Bit): (q: Qubit)
    ensures q.basis == basisDraw && q.bitValue == bitDraw
  {
    Qubit(basisDraw, bitDraw)
  }

  /** `create_qubit_batch(count)`: `range(count)` is empty for a negative count. */
  function CreateQubitBatch(count: int, draws: seq<(Basis, Bit)>): (r: seq<Qubit>)
    requires |draws| >= count
    ensures |r| == Max(0, count)
    ensures forall i :: 0 <= i < |r| ==> r[i] == Qubit(draws[i].0, draws[i].1)
  {
    if count <= 0 then [] else seq(count, i requires 0 <= i < count => CreateRandomQubit(draws[i].0, draws[i].1))
  }

  /** `measure_qubit_batch`: lengths must agree, then every basis literal must
      be valid (the first bad one raises); otherwise entry i is the
      measurement of qubit i in basis i. */
  function MeasureQubitBatch(qubits: seq<Qubit>, bases: seq<string>, coins: seq<Bit>): (r: Result<seq<Bit>>)
    requires |coins| == |qubits|
    ensures |qubits| != |bases| ==> r == Err(LengthMismatch)
    ensures r.Ok? <==> |qubits| == |bases| && forall i :: 0 <= i < |bases| ==> IsBasisName(bases[i])
    ensures r.Ok? ==> |r.value| == |qubits|
    ensures r.Ok? ==> forall i :: 0 <= i < |qubits| ==> Measure(qubits[i], bases[i], coins[i]) == Ok(r.value[i])
  {
    if |qubits| != |bases| then Err(LengthMismatch)
    else if forall i :: 0 <= i < |bases| ==> IsBasisName(bases[i]) then
      Ok(seq(|qubits|, i requires 0 <= i < |qubits| => MeasureIn(qubits[i], ParseBasis(bases[i]).value, coins[i])))
    else Err(InvalidBasis)
  }
}
