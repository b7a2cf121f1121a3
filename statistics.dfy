/** The count-based statistics of backend/utils/statistics.py: the three
    guarded ratios, the security verdict, the secure key rate and efficiency
    score, the rating bands, the per-run summary and the comparison of runs.
    The binary entropy (a log2 formula) is a parameter `h`; every value is
    kept unrounded. */
module Statistics {
  import opened Basics
  import Eavesdropping
  import Protocol

  /** The binary entropy H(p) that `calculate_mutual_information` computes with log2. */
  type Entropy = real -> real

  /** The QBER above which no key is secure (11%). */
  const Threshold: real := 0.11

  function RMin(a: real, b: real): real { if a <= b then a else b }

  // ---------------------------------------------------------------------
  // Guarded ratios
  // ---------------------------------------------------------------------

  /** `numerator / denominator`, or 0.0 when the denominator is 0: the shape
      shared by the sifting efficiency, the QBER and the key rate. */
  function Ratio(numerator: int, denominator: int): (r: real)
    ensures denominator == 0 ==> r == 0.0
    ensures denominator != 0 ==> r * denominator as real == numerator as real
    ensures 0 <= numerator <= denominator ==> 0.0 <= r <= 1.0
    ensures 0 <= numerator <= denominator ==> (r == 0.0 <==> numerator == 0)
  {
    if denominator == 0 then 0.0 else numerator as real / denominator as real
  }

  /** `calculate_sifting_efficiency`: the fraction of transmitted qubits that
      survive sifting, 0.0 when nothing was transmitted. */
  function SiftingEfficiency(transmitted: int, sifted: int): (r: real)
    ensures transmitted == 0 ==> r == 0.0
    ensures transmitted != 0 ==> r * transmitted as real == sifted as real
    ensures 0 <= sifted <= transmitted ==> 0.0 <= r <= 1.0
  {
    Ratio(sifted, transmitted)
  }

  /** `calculate_qber`: the fraction of checked bits that differ, 0.0 when
      nothing was checked. */
  function Qber(errors: int, totalChecked: int): (r: real)
    ensures totalChecked == 0 ==> r == 0.0
    ensures totalChecked != 0 ==> r * totalChecked as real == errors as real
    ensures 0 <= errors <= totalChecked ==> 0.0 <= r <= 1.0 && (r == 0.0 <==> errors == 0)
  {
    Ratio(errors, totalChecked)
  }

  /** `calculate_key_rate`: the fraction of transmitted qubits that end up
      in the final key, 0.0 when nothing was transmitted. */
  function KeyRate(finalKeyLength: int, totalTransmitted: int): (r: real)
    ensures totalTransmitted == 0 ==> r == 0.0
    ensures totalTransmitted != 0 ==> r * totalTransmitted as real == finalKeyLength as real
    ensures 0 <= finalKeyLength <= totalTransmitted ==> 0.0 <= r <= 1.0
  {
    Ratio(finalKeyLength, totalTransmitted)
  }

  /** The QBER the protocol's error estimation reports is `calculate_qber` of
      its error count and sample size, and its verdict is `is_secure` of it. */
  lemma QberMatchesErrorEstimation(errors: nat, sampleSize: nat)
    requires errors <= sampleSize
    ensures Qber(errors, sampleSize) == Protocol.ErrorRate(errors, sampleSize)
    ensures IsSecure(Qber(errors, sampleSize), Threshold)
      <==> Protocol.ErrorRate(errors, sampleSize) <= Protocol.QberThreshold
  {
  }

  // ---------------------------------------------------------------------
  // Security
  // ---------------------------------------------------------------------

  /** `is_secure`: a QBER at the threshold still counts as secure. */
  function IsSecure(qber: real, threshold: real): (b: bool)
    ensures b <==> qber <= threshold
  {
    qber <= threshold
  }

  /** `calculate_mutual_information`: 1 - H(qber), and exactly 1.0 at the two
      endpoints, where the log2 formula is not evaluated. */
  function MutualInformation(qber: real, h: Entropy): (m: real)
    ensures qber == 0.0 || qber == 1.0 ==> m == 1.0
    ensures qber != 0.0 && qber != 1.0 ==> m == 1.0 - h(qber)
  {
    if qber == 0.0 || qber == 1.0 then 1.0 else 1.0 - h(qber)
  }

  /** With an entropy symmetric around 1/2, as binary entropy is, a QBER of
      q and of 1 - q carry the same information. */
  lemma MutualInformationSymmetric(qber: real, h: Entropy)
    requires forall p :: h(p) == h(1.0 - p)
    ensures MutualInformation(qber, h) == MutualInformation(1.0 - qber, h)
  {
    if qber != 0.0 && qber != 1.0 {
      assert h(qber) == h(1.0 - qber);
    }
  }

  /** `calculate_secure_key_rate`: nothing at or above 11%, otherwise the
      sifting efficiency times the mutual information. */
  function SecureKeyRate(qber: real, siftingEfficiency: real, h: Entropy): (r: real)
    ensures qber >= Threshold ==> r == 0.0
    ensures qber < Threshold ==> r == siftingEfficiency * MutualInformation(qber, h)
  {
    if qber >= Threshold then 0.0 else siftingEfficiency * MutualInformation(qber, h)
  }

  /** The two checks disagree at the threshold itself: a QBER of exactly 11%
      is secure by `is_secure` but yields no secure key. Below it a run is
      secure, above it it is insecure and yields none. */
  lemma SecureKeyRateAgainstVerdict(qber: real, siftingEfficiency: real, h: Entropy)
    ensures qber < Threshold ==>
      (IsSecure(qber, Threshold) && SecureKeyRate(qber, siftingEfficiency, h) == siftingEfficiency * MutualInformation(qber, h))
    ensures qber > Threshold ==> !IsSecure(qber, Threshold) && SecureKeyRate(qber, siftingEfficiency, h) == 0.0
    ensures IsSecure(Threshold, Threshold) && SecureKeyRate(Threshold, siftingEfficiency, h) == 0.0
  {
  }

  /** With no error the secure key rate is the whole sifting efficiency. */
  lemma ErrorFreeKeyRate(siftingEfficiency: real, h: Entropy)
    ensures SecureKeyRate(0.0, siftingEfficiency, h) == siftingEfficiency
  {
  }

  /** `calculate_expected_qber_from_intercept`: a quarter of the rate, with
      no range check. */
  function ExpectedQberFromIntercept(interceptRate: real): (q: real)
    ensures q * 4.0 == interceptRate
  {
    interceptRate * 0.25
  }

  /** It agrees with the eavesdropper's own estimate wherever that accepts the
      rate, and also answers for rates outside [0, 1], where that one fails. */
  lemma ExpectedQberAgreesWithEavesdropper(rate: real)
    ensures Eavesdropping.CalculateExpectedQber(rate).Ok? ==>
      Eavesdropping.CalculateExpectedQber(rate).value == ExpectedQberFromIntercept(rate)
    ensures !(0.0 <= rate <= 1.0) ==> Eavesdropping.CalculateExpectedQber(rate).Err?
  {
  }

  /** By the expected QBER, an intercept-resend attack stays undetected
      exactly when it intercepts at most 44% of the qubits. */
  lemma DetectableInterceptRate(rate: real)
    ensures IsSecure(ExpectedQberFromIntercept(rate), Threshold) <==> rate <= 0.44
  {
  }

  // ---------------------------------------------------------------------
  // Efficiency score and rating
  // ---------------------------------------------------------------------

  /** The QBER term `(1 - min(qber / 0.11, 1.0)) * 30`. */
  function QberScore(qber: real): (s: real)
    ensures qber >= Threshold ==> s == 0.0
    ensures qber >= 0.0 ==> 0.0 <= s <= 30.0
    ensures qber == 0.0 ==> s == 30.0
  {
    (1.0 - RMin(qber / Threshold, 1.0)) * 30.0
  }

  /** A higher QBER never scores better. */
  lemma QberScoreNonIncreasing(q1: real, q2: real)
    requires q1 <= q2
    ensures QberScore(q2) <= QberScore(q1)
  {
    assert q1 / Threshold <= q2 / Threshold;
  }

  /** `calculate_protocol_efficiency_score`: 40% sifting, 30% low QBER, 30% key rate. */
  function EfficiencyScore(siftingEff: real, qber: real, keyRate: real): (s: real)
    ensures 0.0 <= siftingEff <= 1.0 && 0.0 <= keyRate <= 1.0 && qber >= 0.0 ==> 0.0 <= s <= 100.0
  {
    siftingEff * 40.0 + QberScore(qber) + keyRate * 30.0
  }

  /** The score grows with the sifting efficiency and the key rate and falls
      with the QBER. */
  lemma EfficiencyScoreMonotone(s1: real, q1: real, k1: real, s2: real, q2: real, k2: real)
    requires s1 <= s2 && q2 <= q1 && k1 <= k2
    ensures EfficiencyScore(s1, q1, k1) <= EfficiencyScore(s2, q2, k2)
  {
    QberScoreNonIncreasing(q2, q1);
  }

  datatype Rating = Excellent | Good | Fair | Poor | Critical

  /** Position of a rating, 4 for Excellent down to 0 for Critical. */
  function Rank(r: Rating): nat
  {
    match r
    case Excellent => 4
    case Good => 3
    case Fair => 2
    case Poor => 1
    case Critical => 0
  }

  function RatingName(r: Rating): string
  {
    match r
    case Excellent => "Excellent"
    case Good => "Good"
    case Fair => "Fair"
    case Poor => "Poor"
    case Critical => "Critical"
  }

  /** `_get_efficiency_rating`: bands of 20 points from 20 up, Excellent from 80. */
  function EfficiencyRating(score: real): (r: Rating)
    ensures score >= 80.0 <==> r == Excellent
    ensures 60.0 <= score < 80.0 <==> r == Good
    ensures 40.0 <= score < 60.0 <==> r == Fair
    ensures 20.0 <= score < 40.0 <==> r == Poor
    ensures score < 20.0 <==> r == Critical
  {
    if score >= 80.0 then Excellent
    else if score >= 60.0 then Good
    else if score >= 40.0 then Fair
    else if score >= 20.0 then Poor
    else Critical
  }

  /** A higher score never gets a lower rating. */
  lemma RatingMonotone(s1: real, s2: real)
    requires s1 <= s2
    ensures Rank(EfficiencyRating(s1)) <= Rank(EfficiencyRating(s2))
  {
  }

  // ---------------------------------------------------------------------
  // Summary of one run
  // ---------------------------------------------------------------------

  /** `int(x)` on a float: truncation toward zero. */
  function Truncate(x: real): (n: int)
    ensures x >= 0.0 ==> 0 <= n && n as real <= x < n as real + 1.0
    ensures x < 0.0 ==> n <= 0 && n as real - 1.0 < x <= n as real
  {
    if x >= 0.0 then x.Floor else -((-x).Floor)
  }

  /** The dictionary `generate_statistics_summary` returns, with the
      percentages kept unrounded. */
  datatype Summary = Summary(
    totalQubits: int, siftedBits: int, finalKeyBits: int,
    siftingEfficiency: real,    // percent
    keyGenerationRate: real,    // percent
    qber: real,                 // percent
    errorsFound: int, bitsChecked: int,
    isSecure: bool, securityThreshold: real, eavesdropperDetected: bool,
    mutualInformation: real,
    secureKeyRate: real,        // percent
    expectedFinalBits: int,
    efficiencyScore: real, rating: Rating)

  /** `generate_statistics_summary`. */
  function StatisticsSummary(transmitted: int, sifted: int, finalKeyLength: int, errors: int, checked: int,
                             eavesdropperPresent: bool, h: Entropy): (s: Summary)
    ensures s.isSecure <==> Qber(errors, checked) <= Threshold
    ensures s.eavesdropperDetected <==> eavesdropperPresent && !s.isSecure
    ensures s.securityThreshold == Threshold * 100.0
    ensures s.rating == EfficiencyRating(s.efficiencyScore)
    ensures 0 <= sifted <= transmitted && 0 <= finalKeyLength <= transmitted && 0 <= errors <= checked
      ==> (0.0 <= s.siftingEfficiency <= 100.0 && 0.0 <= s.keyGenerationRate <= 100.0
        && 0.0 <= s.qber <= 100.0 && 0.0 <= s.efficiencyScore <= 100.0)
  {
    var siftingEff := SiftingEfficiency(transmitted, sifted);
    var qber := Qber(errors, checked);
    var keyRate := KeyRate(finalKeyLength, transmitted);
    var secureRate := SecureKeyRate(qber, siftingEff, h);
    var secure := IsSecure(qber, Threshold);
    var score := EfficiencyScore(siftingEff, qber, keyRate);
    Summary(transmitted, sifted, finalKeyLength,
            siftingEff * 100.0, keyRate * 100.0, qber * 100.0,
            errors, checked,
            secure, 11.0, eavesdropperPresent && !secure,
            MutualInformation(qber, h), secureRate * 100.0,
            Truncate(transmitted as real * secureRate),
            score, EfficiencyRating(score))
  }

  /** Without an eavesdropper nothing is ever reported as detected, and a run
      with no error found is secure with the full QBER score. */
  lemma SummaryFlags(transmitted: int, sifted: int, finalKeyLength: int, errors: int, checked: int, h: Entropy)
    ensures !StatisticsSummary(transmitted, sifted, finalKeyLength, errors, checked, false, h).eavesdropperDetected
    ensures errors == 0 ==>
      (StatisticsSummary(transmitted, sifted, finalKeyLength, errors, checked, true, h).isSecure
      && !StatisticsSummary(transmitted, sifted, finalKeyLength, errors, checked, true, h).eavesdropperDetected)
  {
  }

  // ---------------------------------------------------------------------
  // Comparing runs
  // ---------------------------------------------------------------------

  /** Sum of a field over the runs. */
  function SumOf(runs: seq<Summary>, f: Summary -> real): real
  {
    if runs == [] then 0.0 else SumOf(runs[..|runs| - 1], f) + f(runs[|runs| - 1])
  }

  /** A sum of values within [lo, hi] lies within [n lo, n hi]. */
  lemma {:induction false} SumOfBounds(runs: seq<Summary>, f: Summary -> real, lo: real, hi: real)
    requires forall i :: 0 <= i < |runs| ==> lo <= f(runs[i]) <= hi
    ensures |runs| as real * lo <= SumOf(runs, f) <= |runs| as real * hi
  {
    if runs != [] {
      SumOfBounds(runs[..|runs| - 1], f, lo, hi);
    }
  }

  /** `sum(1 for r in runs if r["security"]["is_secure"])`. */
  function SecureCount(runs: seq<Summary>): (c: nat)
    ensures c <= |runs|
  {
    if runs == [] then 0 else SecureCount(runs[..|runs| - 1]) + (if runs[|runs| - 1].isSecure then 1 else 0)
  }

  /** Every run is secure exactly when the count reaches the number of runs. */
  lemma {:induction false} SecureCountAll(runs: seq<Summary>)
    ensures SecureCount(runs) == |runs| <==> forall i :: 0 <= i < |runs| ==> runs[i].isSecure
  {
    if runs != [] {
      SecureCountAll(runs[..|runs| - 1]);
      assert forall i :: 0 <= i < |runs| - 1 ==> runs[..|runs| - 1][i] == runs[i];
    }
  }

  /** `max(runs, key=score)`: the position of the first run with the highest score. */
  function BestIndex(runs: seq<Summary>): (k: nat)
    requires runs != []
    ensures k < |runs|
    ensures forall i :: 0 <= i < |runs| ==> runs[i].efficiencyScore <= runs[k].efficiencyScore
    ensures forall i :: 0 <= i < k ==> runs[i].efficiencyScore < runs[k].efficiencyScore
  {
    if |runs| == 1 then 0
    else
      var b := BestIndex(runs[..|runs| - 1]);
      assert forall i :: 0 <= i < |runs| - 1 ==> runs[..|runs| - 1][i] == runs[i];
      if runs[|runs| - 1].efficiencyScore > runs[b].efficiencyScore then |runs| - 1 else b
  }

  /** `min(runs, key=score)`: the position of the first run with the lowest score. */
  function WorstIndex(runs: seq<Summary>): (k: nat)
    requires runs != []
    ensures k < |runs|
    ensures forall i :: 0 <= i < |runs| ==> runs[k].efficiencyScore <= runs[i].efficiencyScore
    ensures forall i :: 0 <= i < k ==> runs[k].efficiencyScore < runs[i].efficiencyScore
  {
    if |runs| == 1 then 0
    else
      var w := WorstIndex(runs[..|runs| - 1]);
      assert forall i :: 0 <= i < |runs| - 1 ==> runs[..|runs| - 1][i] == runs[i];
      if runs[|runs| - 1].efficiencyScore < runs[w].efficiencyScore then |runs| - 1 else w
  }

  /** The dictionary `compare_protocol_runs` returns for a non-empty list. */
  datatype Comparison = Comparison(
    totalRuns: nat,
    averageSiftingEfficiency: real, averageQber: real, averageKeyGenerationRate: real,
    secureRuns: nat, insecureRuns: nat, successRate: real,
    bestRun: Summary, worstRun: Summary)

  /** `compare_protocol_runs`; `None` stands for the empty dictionary. */
  function CompareProtocolRuns(runs: seq<Summary>): (r: Option<Comparison>)
    ensures r.None? <==> runs == []
    ensures r.Some? ==>
      (r.value.totalRuns == |runs|
      && r.value.secureRuns + r.value.insecureRuns == r.value.totalRuns
      && r.value.bestRun in runs && r.value.worstRun in runs
      && 0.0 <= r.value.successRate <= 100.0)
    ensures r.Some? ==> forall i :: 0 <= i < |runs| ==>
      r.value.worstRun.efficiencyScore <= runs[i].efficiencyScore <= r.value.bestRun.efficiencyScore
  {
    if runs == [] then None
    else
      var n := |runs|;
      var secure := SecureCount(runs);
      Some(Comparison(
        n,
        SumOf(runs, (x: Summary) => x.siftingEfficiency) / n as real,
        SumOf(runs, (x: Summary) => x.qber) / n as real,
        SumOf(runs, (x: Summary) => x.keyGenerationRate) / n as real,
        secure, n - secure, Ratio(secure, n) * 100.0,
        runs[BestIndex(runs)], runs[WorstIndex(runs)]))
  }

  /** An average of values in [lo, hi] is in [lo, hi]. */
  lemma AverageBounds(runs: seq<Summary>, f: Summary -> real, lo: real, hi: real)
    requires runs != []
    requires forall i :: 0 <= i < |runs| ==> lo <= f(runs[i]) <= hi
    ensures lo <= SumOf(runs, f) / |runs| as real <= hi
  {
    SumOfBounds(runs, f, lo, hi);
    var n := |runs| as real;
    var sum := SumOf(runs, f);
    assert sum / n * n == sum;
  }

  /** The averages of percentages stay percentages. */
  lemma AveragesArePercentages(runs: seq<Summary>)
    requires runs != []
    requires forall i :: 0 <= i < |runs| ==> 0.0 <= runs[i].siftingEfficiency <= 100.0
    requires forall i :: 0 <= i < |runs| ==> 0.0 <= runs[i].qber <= 100.0
    requires forall i :: 0 <= i < |runs| ==> 0.0 <= runs[i].keyGenerationRate <= 100.0
    ensures 0.0 <= CompareProtocolRuns(runs).value.averageSiftingEfficiency <= 100.0
    ensures 0.0 <= CompareProtocolRuns(runs).value.averageQber <= 100.0
    ensures 0.0 <= CompareProtocolRuns(runs).value.averageKeyGenerationRate <= 100.0
  {
    AverageBounds(runs, (x: Summary) => x.siftingEfficiency, 0.0, 100.0);
    AverageBounds(runs, (x: Summary) => x.qber, 0.0, 100.0);
    AverageBounds(runs, (x: Summary) => x.keyGenerationRate, 0.0, 100.0);
  }

  /** The success rate is 100% exactly when every run is secure. */
  lemma SuccessRateFull(runs: seq<Summary>)
    requires runs != []
    ensures CompareProtocolRuns(runs).value.successRate == 100.0 <==> forall i :: 0 <= i < |runs| ==> runs[i].isSecure
  {
    SecureCountAll(runs);
    var secure := SecureCount(runs);
    assert CompareProtocolRuns(runs).value.successRate == Ratio(secure, |runs|) * 100.0;
    FullPercentage(secure, |runs|);
  }

  /** A count out of `n` is 100% exactly when it is all of them. */
  lemma FullPercentage(k: nat, n: nat)
    requires n > 0
    ensures Ratio(k, n) * 100.0 == 100.0 <==> k == n
  {
    assert Ratio(k, n) * n as real == k as real;
  }
}
