/** Shared vocabulary of the BB84 model: classical bits, the error-or-value
    wrapper that stands for a raised ValueError, and small facts about index
    lists. */
module Basics {

  /** A classical bit as the Python code stores it: the int 0 or 1. */
  type Bit = b: int | 0 <= b <= 1

  /** The reasons for which the source raises ValueError. */
  datatype Error =
    | InvalidBasis          // basis other than 'Z' / 'X'
    | InvalidBit            // bit value other than 0 / 1
    | InvalidProbability    // probability or rate outside [0, 1]
    | InvalidStrategy       // strategy other than 'intercept-resend' / 'passive'
    | InvalidKeyLength      // key_length <= 0
    | InvalidMultiplier     // transmission_multiplier < 2
    | LengthMismatch        // parallel lists of different lengths
    | InvalidCharacter      // a character the parser does not accept
    | InvalidFormat         // unknown display format

  datatype Result<+T> = Ok(value: T) | Err(error: Error)

  datatype Option<+T> = None | Some(value: T)

  function Min(a: int, b: int): int { if a <= b then a else b }

  function Max(a: int, b: int): int { if a >= b then a else b }

  /** Number of chunks of size `k` needed to hold `n` items (the last one may be short). */
  function CeilDiv(n: nat, k: nat): nat
    requires k > 0
  {
    (n + k - 1) / k
  }

  /** `k` zero bits, the padding the encoders append. */
  function Zeros(k: nat): (z: seq<Bit>)
    ensures |z| == k && forall i :: 0 <= i < k ==> z[i] == 0
  {
    seq(k, _ => 0)
  }

  /** Concatenation is associative. */
  lemma ConcatAssoc<T>(a: seq<T>, b: seq<T>, c: seq<T>)
    ensures a + (b + c) == a + b + c
  {
  }

  predicate StrictlyIncreasing(s: seq<int>)
  {
    forall i, j :: 0 <= i < j < |s| ==> s[i] < s[j]
  }

  predicate Distinct(s: seq<int>)
  {
    forall i, j :: 0 <= i < j < |s| ==> s[i] != s[j]
  }

  /** Every entry is a valid index into a list of length `n`. */
  predicate AllBelow(s: seq<int>, n: int)
  {
    forall i :: 0 <= i < |s| ==> 0 <= s[i] < n
  }

  /** Appending an index above all entries keeps a list ascending. */
  lemma AppendAbove(s: seq<int>, x: int)
    requires StrictlyIncreasing(s) && AllBelow(s, x) && 0 <= x
    ensures StrictlyIncreasing(s + [x]) && AllBelow(s + [x], x + 1)
    ensures x !in s
    ensures forall y :: y in s + [x] <==> y in s || y == x
  {
    assert forall i :: 0 <= i < |s| ==> (s + [x])[i] == s[i];
  }

  /** Ordering survives multiplication by a natural number. */
  lemma MulMono(a: int, b: int, m: nat)
    requires a <= b
    ensures a * m <= b * m
  {
    assert b * m - a * m == (b - a) * m;
  }

  /** Quotient and remainder are the unique pair with `n == q * m + r` and
      `0 <= r < m`. */
  lemma DivModUnique(n: int, m: int, q: int, r: int)
    requires m > 0 && 0 <= r < m && n == q * m + r
    ensures n / m == q && n % m == r
  {
    var q', r' := n / m, n % m;
    assert n == q' * m + r' && 0 <= r' < m;
    if q' > q {
      assert (q + 1) * m == q * m + m;
      MulMono(q + 1, q', m);
    } else if q' < q {
      assert (q' + 1) * m == q' * m + m;
      MulMono(q' + 1, q, m);
    }
  }

  /** `j / m` and `j % m` one block of `m` further on. */
  lemma DivModStep(j: nat, m: nat)
    requires m > 0
    ensures (j + m) / m == j / m + 1 && (j + m) % m == j % m
  {
    var q, r := j / m, j % m;
    assert j == q * m + r;
    assert (q + 1) * m == q * m + m;
    DivModUnique(j + m, m, q + 1, r);
  }

  /** One block of `k` fewer needs one block fewer. */
  lemma CeilDivStep(n: nat, k: nat)
    requires 0 < k < n
    ensures CeilDiv(n, k) == CeilDiv(n - k, k) + 1
  {
    DivModStep(n - k + k - 1, k);
  }

  /** At most one block holds up to `k` items. */
  lemma CeilDivSmall(n: nat, k: nat)
    requires 0 < k && n <= k
    ensures CeilDiv(n, k) <= 1
  {
    var r := n + k - 1;
    if r < k {
      DivModUnique(r, k, 0, r);
    } else {
      DivModUnique(r, k, 1, r - k);
    }
  }
}
