/** What an evidence priority is (analytics/prioritization/baseline.py, `_record_contribution`, `_abstention_reasons`
    and `_assess_core`): a formula over the record's own fields, without rounding, and how close to it the rounded
    points, bounds, penalties and the index stay. */
module PriorityPoints {
  import opened Basics
  import opened PriorityRounding
  import opened PrioritySelection
  import opened PriorityAssessment

  /** Half a unit in the sixth decimal place: what one rounding moves a value by at most. */
  const HALF := 0.0000005

  predicate Close(x: real, y: real, roundings: nat) {
    -HALF * roundings as real <= x - y <= HALF * roundings as real
  }

  /** The nearest value from 0 to `high`. */
  function Between(x: real, high: real): real { if x <= 0.0 then 0.0 else if high <= x then high else x }

  // ----- the formula -----

  /** What one factor is worth: its weight times its value, moved by `shift` within 0 to 1; a missing one
      costs the penalty instead. */
  function Worth(value: Option<real>, weight: real, penalty: real, shift: real): real {
    match value
    case None => -(weight * penalty)
    case Some(v) => weight * Between(v + shift, 1.0)
  }

  /** The points of a record before rounding, with every known value moved by `shift`. */
  function Formula(c: Config, r: Record, asOf: Instant, shift: real): real {
    var p := c.missingPenalty;
    100.0 * (Worth(r.quality, c.weights.quality, p, shift)
             + Worth(Some(c.recency(asOf - r.observedAt)), c.weights.recency, p, shift)
             + Worth(r.corroboration, c.weights.corroboration, p, shift)
             + Worth(r.change, c.weights.change, p, shift)
             + Worth(r.coverage, c.weights.coverage, p, shift))
  }

  /** What a factor costs if it is missing. */
  function Charge(value: Option<real>, weight: real, penalty: real): real {
    if value.None? then 100.0 * (weight * penalty) else 0.0
  }

  /** What the missing factors of a record cost it. */
  function MissingCost(c: Config, r: Record): real {
    100.0 * c.missingPenalty
    * ((if r.quality.None? then c.weights.quality else 0.0)
       + (if r.corroboration.None? then c.weights.corroboration else 0.0)
       + (if r.change.None? then c.weights.change else 0.0) + (if r.coverage.None? then c.weights.coverage else 0.0))
  }

  function KnownFactors(r: Record): nat {
    1 + (if r.quality.Some? then 1 else 0) + (if r.corroboration.Some? then 1 else 0)
    + (if r.change.Some? then 1 else 0) + (if r.coverage.Some? then 1 else 0)
  }

  // ----- one factor -----

  lemma RoundIsClose(x: real)
    requires 0.0 <= x <= 100.0
    ensures Close(Round(x), x, 1)
  {
    RoundIsSound(x, x);
    hide Round;
  }

  lemma RoundedIsClose(x: real, y: real, n: nat)
    requires Close(x, y, n)
    ensures Close(Round(x), Between(y, 100.0), n + 1)
  {
    RoundIsSound(x, x);
    hide Round;
  }

  lemma Product(v: real, w: real)
    requires 0.0 <= v <= 1.0 && 0.0 <= w <= 1.0
    ensures 0.0 <= v * w * 100.0 <= 100.0
  {
    assert 0.0 <= v * w <= 1.0 * w;
  }

  lemma Commutes(v: real, w: real)
    ensures 100.0 * (w * v) == v * w * 100.0
  {
  }

  /** Each of a factor's figures, less its penalty, is one rounding away from what the factor is worth. */
  ghost predicate FactorClose(c: Config, f: Factor, value: Option<real>, weight: real) {
    var p := c.missingPenalty;
    && Close(f.points - f.penalty, 100.0 * Worth(value, weight, p, 0.0), 1)
    && Close(f.lower - f.penalty, 100.0 * Worth(value, weight, p, -c.margin), 1)
    && Close(f.upper - f.penalty, 100.0 * Worth(value, weight, p, c.margin), 1)
    && Close(f.penalty, Charge(value, weight, p), 1)
    && (f.value.Some? <==> value.Some?)
    && (value.None? ==> f.points == f.lower == f.upper == 0.0)
    && (value.Some? ==> Close(f.value.value, value.value, 1) && f.penalty == 0.0)
  }

  lemma FactorIsWorth(c: Config, value: Option<real>, weight: real)
    requires UnitOrMissing(value) && Unit(weight) && Unit(c.margin) && Unit(c.missingPenalty)
    ensures FactorClose(c, FactorOf(c, value, weight), value, weight)
  {
    hide Round, Worth, Weighted, Between;
    var p, f := c.missingPenalty, FactorOf(c, value, weight);
    if value.None? {
      MissingIsWorth(weight, p, 0.0);
      MissingIsWorth(weight, p, -c.margin);
      MissingIsWorth(weight, p, c.margin);
      assert value == None;
    } else {
      var v := value.value;
      Shifted(v, c.margin);
      FigureIsWorth(v, weight, p, 0.0, v);
      FigureIsWorth(v, weight, p, -c.margin, AtLeastZero(v - c.margin));
      FigureIsWorth(v, weight, p, c.margin, AtMostOne(v + c.margin));
      assert value == Some(v);
      RoundIsClose(v);
      Exact();
    }
  }

  lemma Exact()
    ensures Close(0.0, 0.0, 1)
  {
  }

  lemma Shifted(v: real, margin: real)
    requires Unit(v) && Unit(margin)
    ensures v == Between(v + 0.0, 1.0) && AtLeastZero(v - margin) == Between(v + -margin, 1.0)
    ensures AtMostOne(v + margin) == Between(v + margin, 1.0)
  {
  }

  lemma MissingIsWorth(weight: real, penalty: real, shift: real)
    requires Unit(weight) && Unit(penalty)
    ensures Close(0.0 - Round(Weighted(penalty, weight)), 100.0 * Worth(None, weight, penalty, shift), 1)
    ensures Close(Round(Weighted(penalty, weight)), 100.0 * (weight * penalty), 1)
  {
    hide Round;
    Product(penalty, weight);
    RoundIsClose(penalty * weight * 100.0);
    Commutes(penalty, weight);
  }

  lemma FigureIsWorth(v: real, weight: real, penalty: real, shift: real, moved: real)
    requires Unit(weight) && moved == Between(v + shift, 1.0)
    ensures Close(Round(Weighted(moved, weight)) - 0.0, 100.0 * Worth(Some(v), weight, penalty, shift), 1)
  {
    Product(moved, weight);
    WorthOf(v, weight, penalty, shift, moved);
    hide Round, Worth, Between;
    RoundIsClose(Weighted(moved, weight));
  }

  lemma WorthOf(v: real, weight: real, penalty: real, shift: real, moved: real)
    requires moved == Between(v + shift, 1.0)
    ensures 100.0 * Worth(Some(v), weight, penalty, shift) == Weighted(moved, weight)
  {
    hide Between;
    assert Worth(Some(v), weight, penalty, shift) == weight * moved;
    Commutes(moved, weight);
  }

  // ----- one record -----

  lemma SumOfFive(s: seq<real>)
    requires |s| == 5
    ensures Sum(s) == s[0] + s[1] + s[2] + s[3] + s[4]
  {
    var d, e, f, g := s[..4], s[..3], s[..2], s[..1];
    assert d[..3] == e && e[..2] == f && f[..1] == g && g[..0] == [];
    assert Sum(s) == Sum(d) + s[4] && Sum(d) == Sum(e) + s[3] && Sum(e) == Sum(f) + s[2];
    assert Sum(f) == Sum(g) + s[1] && Sum(g) == Sum([]) + s[0];
  }

  /** The factors of a record, in the order of the source's factor names. */
  lemma FactorsAre(c: Config, r: Record, asOf: Instant)
    requires ValidConfig(c) && ValidRecord(r) && r.observedAt <= asOf
    ensures var f := ContributionOf(c, r, asOf).factors;
      && |f| == 5
      && f[0] == FactorOf(c, r.quality, c.weights.quality)
      && f[1] == FactorOf(c, Some(c.recency(asOf - r.observedAt)), c.weights.recency)
      && f[2] == FactorOf(c, r.corroboration, c.weights.corroboration)
      && f[3] == FactorOf(c, r.change, c.weights.change)
      && f[4] == FactorOf(c, r.coverage, c.weights.coverage)
    ensures UnitOrMissing(Some(c.recency(asOf - r.observedAt)))
    ensures Unit(c.weights.quality) && Unit(c.weights.recency) && Unit(c.weights.corroboration)
    ensures Unit(c.weights.change) && Unit(c.weights.coverage) && Unit(c.margin) && Unit(c.missingPenalty)
  {
    hide FactorOf;
    var w := WeightList(c);
    assert w[0] in w && w[1] in w && w[2] in w && w[3] in w && w[4] in w;
  }

  lemma AllWorth(c: Config, r: Record, asOf: Instant)
    requires ValidConfig(c) && ValidRecord(r) && r.observedAt <= asOf
    ensures var f, p := ContributionOf(c, r, asOf).factors, c.missingPenalty;
      && |f| == 5 && FactorClose(c, f[0], r.quality, c.weights.quality)
      && FactorClose(c, f[1], Some(c.recency(asOf - r.observedAt)), c.weights.recency)
      && FactorClose(c, f[2], r.corroboration, c.weights.corroboration)
      && FactorClose(c, f[3], r.change, c.weights.change) && FactorClose(c, f[4], r.coverage, c.weights.coverage)
      && Five(f, Formula(c, r, asOf, 0.0), Formula(c, r, asOf, -c.margin), Formula(c, r, asOf, c.margin))
      && Close(f[0].penalty + f[1].penalty + f[2].penalty + f[3].penalty + f[4].penalty, MissingCost(c, r), 5)
      && Observed(f) == KnownFactors(r)
  {
    hide FactorOf, Worth, Factors, ContributionFrom, ValidConfig, FactorClose, Five, Formula, Close, MissingCost;
    hide Observed;
    FactorsAre(c, r, asOf);
    var f, p := ContributionOf(c, r, asOf).factors, c.missingPenalty;
    hide ContributionOf;
    var recency := Some(c.recency(asOf - r.observedAt));
    FactorIsWorth(c, r.quality, c.weights.quality);
    FactorIsWorth(c, recency, c.weights.recency);
    FactorIsWorth(c, r.corroboration, c.weights.corroboration);
    FactorIsWorth(c, r.change, c.weights.change);
    FactorIsWorth(c, r.coverage, c.weights.coverage);
    FiveClose(c, r, asOf, f);
  }

  lemma FiveClose(c: Config, r: Record, asOf: Instant, f: seq<Factor>)
    requires |f| == 5 && FactorClose(c, f[0], r.quality, c.weights.quality)
    requires FactorClose(c, f[1], Some(c.recency(asOf - r.observedAt)), c.weights.recency)
    requires FactorClose(c, f[2], r.corroboration, c.weights.corroboration)
    requires FactorClose(c, f[3], r.change, c.weights.change) && FactorClose(c, f[4], r.coverage, c.weights.coverage)
    ensures Five(f, Formula(c, r, asOf, 0.0), Formula(c, r, asOf, -c.margin), Formula(c, r, asOf, c.margin))
    ensures Close(f[0].penalty + f[1].penalty + f[2].penalty + f[3].penalty + f[4].penalty, MissingCost(c, r), 5)
    ensures Observed(f) == KnownFactors(r)
  {
    hide Worth, Charge, Observed, MissingCost;
    ObservedFive(f);
    var p, m, age := c.missingPenalty, c.margin, Some(c.recency(asOf - r.observedAt));
    assert Close(f[0].penalty + f[1].penalty + f[2].penalty + f[3].penalty + f[4].penalty, MissingCost(c, r), 5) by {
      MissingParts(c, r, asOf);
    }
    FormulaParts(c, r, asOf, 0.0);
    FormulaParts(c, r, asOf, -m);
    FormulaParts(c, r, asOf, m);
    hide Formula;
  }

  lemma FormulaParts(c: Config, r: Record, asOf: Instant, shift: real)
    ensures var p := c.missingPenalty;
      Formula(c, r, asOf, shift) == 100.0 * Worth(r.quality, c.weights.quality, p, shift)
        + 100.0 * Worth(Some(c.recency(asOf - r.observedAt)), c.weights.recency, p, shift)
        + 100.0 * Worth(r.corroboration, c.weights.corroboration, p, shift)
        + 100.0 * Worth(r.change, c.weights.change, p, shift)
        + 100.0 * Worth(r.coverage, c.weights.coverage, p, shift)
  {
    hide Worth;
  }

  lemma MissingParts(c: Config, r: Record, asOf: Instant)
    ensures var p := c.missingPenalty;
      MissingCost(c, r) == Charge(r.quality, c.weights.quality, p)
        + Charge(Some(c.recency(asOf - r.observedAt)), c.weights.recency, p)
        + Charge(r.corroboration, c.weights.corroboration, p) + Charge(r.change, c.weights.change, p)
        + Charge(r.coverage, c.weights.coverage, p)
  {
  }

  lemma ObservedFive(f: seq<Factor>)
    requires |f| == 5
    ensures Observed(f) == (if f[0].value.Some? then 1 else 0) + (if f[1].value.Some? then 1 else 0)
        + (if f[2].value.Some? then 1 else 0) + (if f[3].value.Some? then 1 else 0)
          + (if f[4].value.Some? then 1 else 0)
  {
    var d, e, g, h := f[..4], f[..3], f[..2], f[..1];
    assert d[..3] == e && e[..2] == g && g[..1] == h && h[..0] == [];
    assert Observed(h) == if f[0].value.Some? then 1 else 0;
    assert Observed(g) == Observed(h) + if f[1].value.Some? then 1 else 0;
    assert Observed(e) == Observed(g) + if f[2].value.Some? then 1 else 0;
    assert Observed(d) == Observed(e) + if f[3].value.Some? then 1 else 0;
  }

  /** The sums over five factors, each five roundings away from its formula. */
  predicate Five(f: seq<Factor>, points: real, lower: real, upper: real)
    requires |f| == 5
  {
    var penalty := f[0].penalty + f[1].penalty + f[2].penalty + f[3].penalty + f[4].penalty;
    && Close(f[0].points + f[1].points + f[2].points + f[3].points + f[4].points - penalty, points, 5)
    && Close(f[0].lower + f[1].lower + f[2].lower + f[3].lower + f[4].lower - penalty, lower, 5)
    && Close(f[0].upper + f[1].upper + f[2].upper + f[3].upper + f[4].upper - penalty, upper, 5)
  }

  lemma ContributionSums(dep: Dep, f: seq<Factor>)
    requires |f| == 5
    ensures var x := ContributionFrom(dep, f);
      var penalty := f[0].penalty + f[1].penalty + f[2].penalty + f[3].penalty + f[4].penalty;
      && PenaltyOf(x) == penalty
      && x.points == Round(f[0].points + f[1].points + f[2].points + f[3].points + f[4].points - penalty)
      && x.lower == Round(f[0].lower + f[1].lower + f[2].lower + f[3].lower + f[4].lower - penalty)
      && x.upper == Round(f[0].upper + f[1].upper + f[2].upper + f[3].upper + f[4].upper - penalty)
  {
    hide Round, Sum;
    SumOfFive(Map(f, (x: Factor) => x.points));
    SumOfFive(Map(f, (x: Factor) => x.lower));
    SumOfFive(Map(f, (x: Factor) => x.upper));
    SumOfFive(Map(f, (x: Factor) => x.penalty));
  }

  /** What a contribution says, told by the record alone: each factor is worth what it should be; the points are
      the formula kept within 0 to 100, and the bounds the same with every known value lowered and raised by the
      margin, up to six roundings; what it is charged for missing factors is their cost, up to five. */
  ghost predicate Priced(c: Config, r: Record, asOf: Instant, x: Contribution) {
    var f := x.factors;
    && x.dep == r.dep && |f| == 5
    && FactorClose(c, f[0], r.quality, c.weights.quality)
    && FactorClose(c, f[1], Some(c.recency(asOf - r.observedAt)), c.weights.recency)
    && FactorClose(c, f[2], r.corroboration, c.weights.corroboration)
    && FactorClose(c, f[3], r.change, c.weights.change) && FactorClose(c, f[4], r.coverage, c.weights.coverage)
    && Close(x.points, Between(Formula(c, r, asOf, 0.0), 100.0), 6)
    && Close(x.lower, Between(Formula(c, r, asOf, -c.margin), 100.0), 6)
    && Close(x.upper, Between(Formula(c, r, asOf, c.margin), 100.0), 6)
  }

  lemma PointsAreTheFormula(c: Config, r: Record, asOf: Instant)
    requires ValidConfig(c) && ValidRecord(r) && r.observedAt <= asOf
    ensures var x := ContributionOf(c, r, asOf);
      Priced(c, r, asOf, x) && Close(PenaltyOf(x), MissingCost(c, r), 5) && Observed(x.factors) == KnownFactors(r)
  {
    hide Round, Formula, MissingCost, Factors, ValidConfig, Between, FactorClose, Observed;
    AllWorth(c, r, asOf);
    var x := ContributionOf(c, r, asOf);
    ContributionSums(r.dep, x.factors);
    var f := x.factors;
    var penalty := f[0].penalty + f[1].penalty + f[2].penalty + f[3].penalty + f[4].penalty;
    RoundedIsClose(f[0].points + f[1].points + f[2].points + f[3].points + f[4].points - penalty,
      Formula(c, r, asOf, 0.0), 5);
    RoundedIsClose(f[0].lower + f[1].lower + f[2].lower + f[3].lower + f[4].lower - penalty,
      Formula(c, r, asOf, -c.margin), 5);
    RoundedIsClose(f[0].upper + f[1].upper + f[2].upper + f[3].upper + f[4].upper - penalty,
      Formula(c, r, asOf, c.margin), 5);
  }

  // ----- the whole assessment -----

  function Total(records: seq<Record>, g: Record -> real): real {
    if records == [] then 0.0 else Total(records[..|records| - 1], g) + g(records[|records| - 1])
  }

  function KnownTotal(records: seq<Record>): nat {
    if records == [] then 0 else KnownTotal(records[..|records| - 1]) + KnownFactors(records[|records| - 1])
  }

  /** The points of a record without rounding, every known value moved by `shift`. */
  function Points(c: Config, asOf: Instant, shift: real): Record -> real {
    (r: Record) => Between(Formula(c, r, asOf, shift), 100.0)
  }

  function Costs(c: Config): Record -> real { (r: Record) => MissingCost(c, r) }

  /** Close to the mean of the given figures over the records. */
  ghost predicate NearMean(x: real, records: seq<Record>, g: Record -> real, roundings: nat) {
    records != [] && Close(x, Total(records, g) / |records| as real, roundings)
  }

  /** The whole assessment of the selected records, told without rounding: whether and why it abstains; the index and
      its bounds as the mean of the records' formulas, seven roundings away at most; and the mean cost of what is
      missing. */
  ghost predicate Accounted(c: Config, records: seq<Record>, asOf: Instant, a: Assessment) {
    && |a.contributions| == |records| && |a.deps| == |records|
    && (forall i | 0 <= i < |records| :: a.deps[i] == records[i].dep && Priced(c, records[i], asOf, a.contributions[i]))
    && (MinimumEvidence in a.reasons <==> |records| < c.minCount)
    && (MinimumCoverage in a.reasons <==>
        records == [] || KnownTotal(records) as real < c.minFraction * (5 * |records|) as real)
    && |a.reasons| <= 2 && (|a.reasons| == 2 ==> a.reasons == [MinimumEvidence, MinimumCoverage])
    && (a.index.Some? <==> a.reasons == []) && (a.interval.Some? <==> a.reasons == [])
    && (a.index.Some? && a.interval.Some? ==>
          && NearMean(a.index.value, records, Points(c, asOf, 0.0), 7)
          && NearMean(a.interval.value.0, records, Points(c, asOf, -c.margin), 7)
          && NearMean(a.interval.value.1, records, Points(c, asOf, c.margin), 7))
    && (if records == [] then a.penalty == 0.0
        else Close(a.penalty, Between(Total(records, Costs(c)) / |records| as real, 100.0), 6))
  }

  lemma {:induction false} TotalClose(s: seq<real>, records: seq<Record>, g: Record -> real, e: real)
    requires |s| == |records| && forall i | 0 <= i < |s| :: -e <= s[i] - g(records[i]) <= e
    ensures -e * |s| as real <= Sum(s) - Total(records, g) <= e * |s| as real
  {
    if s != [] {
      var n := |s| - 1;
      TotalClose(s[..n], records[..n], g, e);
      assert e * |s| as real == e * n as real + e;
    }
  }

  lemma Share(x: real, y: real, e: real, n: real)
    requires n > 0.0 && -e * n <= x - y <= e * n
    ensures -e <= x / n - y / n <= e
  {
    assert x / n - y / n == (x - y) / n;
    assert (e * n) / n == e && (-e * n) / n == -e;
    Quotient(-e * n, x - y, n);
    Quotient(x - y, e * n, n);
  }

  lemma MeanClose(s: seq<real>, records: seq<Record>, g: Record -> real, k: nat)
    requires s != [] && |s| == |records| && forall i | 0 <= i < |s| :: Close(s[i], g(records[i]), k)
    ensures Close(Mean(s), Total(records, g) / |records| as real, k)
  {
    TotalClose(s, records, g, HALF * k as real);
    hide Sum, Total;
    Share(Sum(s), Total(records, g), HALF * k as real, |s| as real);
  }

  lemma {:induction false} SumWithin(s: seq<real>)
    requires forall i | 0 <= i < |s| :: 0.0 <= s[i] <= 100.0
    ensures 0.0 <= Sum(s) <= 100.0 * |s| as real
  {
    if s != [] { SumWithin(s[..|s| - 1]); }
  }

  /** One more rounding for the mean. */
  lemma RoundedMean(s: seq<real>, records: seq<Record>, g: Record -> real)
    requires s != [] && |s| == |records| && forall i | 0 <= i < |s| :: Close(s[i], g(records[i]), 6)
    requires forall i | 0 <= i < |s| :: 0.0 <= s[i] <= 100.0
    ensures NearMean(Round(Mean(s)), records, g, 7)
  {
    MeanClose(s, records, g, 6);
    SumWithin(s);
    hide Sum, Total, Round;
    Quotient(0.0, Sum(s), |s| as real);
    Quotient(Sum(s), 100.0 * |s| as real, |s| as real);
    RoundIsClose(Mean(s));
  }

  lemma {:induction false} KnownOf(s: seq<Contribution>, records: seq<Record>)
    requires |s| == |records| && forall i | 0 <= i < |s| :: Observed(s[i].factors) == KnownFactors(records[i])
    ensures ObservedAll(s) == KnownTotal(records)
  {
    if s != [] { KnownOf(s[..|s| - 1], records[..|s| - 1]); }
  }

  lemma Fraction(x: real, n: real, f: real)
    requires n > 0.0
    ensures x / n < f <==> x < f * n
  {
    assert x / n * n == x;
  }

  lemma ReasonsAre(c: Config, s: seq<Contribution>, records: seq<Record>)
    requires |s| == |records| && forall i | 0 <= i < |s| :: Observed(s[i].factors) == KnownFactors(records[i])
    ensures var reasons := Reasons(c, s);
      && (MinimumEvidence in reasons <==> |records| < c.minCount)
      && (MinimumCoverage in reasons <==>
          records == [] || KnownTotal(records) as real < c.minFraction * (5 * |records|) as real)
      && |reasons| <= 2 && (|reasons| == 2 ==> reasons == [MinimumEvidence, MinimumCoverage])
      && (records == [] ==> reasons != [])
  {
    ScarceIs(c, s, records);
    hide ScarcelyObserved, KnownTotal;
    ReasonList(|s| < c.minCount, ScarcelyObserved(c, s));
  }

  lemma ReasonList(few: bool, scarce: bool)
    ensures var reasons := (if few then [MinimumEvidence] else []) + (if scarce then [MinimumCoverage] else []);
      && (MinimumEvidence in reasons <==> few) && (MinimumCoverage in reasons <==> scarce)
      && |reasons| <= 2 && (|reasons| == 2 ==> reasons == [MinimumEvidence, MinimumCoverage])
  {
    if few { assert ([MinimumEvidence] + (if scarce then [MinimumCoverage] else []))[0] == MinimumEvidence; }
  }

  lemma ScarceIs(c: Config, s: seq<Contribution>, records: seq<Record>)
    requires |s| == |records| && forall i | 0 <= i < |s| :: Observed(s[i].factors) == KnownFactors(records[i])
    ensures ScarcelyObserved(c, s) <==>
      records == [] || KnownTotal(records) as real < c.minFraction * (5 * |records|) as real
  {
    hide *;
    KnownOf(s, records);
    Scarce(c, s, KnownTotal(records));
  }

  lemma Scarce(c: Config, s: seq<Contribution>, known: nat)
    requires ObservedAll(s) == known
    ensures ScarcelyObserved(c, s) <==> s == [] || known as real < c.minFraction * (5 * |s|) as real
  {
    hide ObservedAll;
    if s != [] { Fraction(known as real, (5 * |s|) as real, c.minFraction); }
  }

  lemma PenaltyIs(c: Config, s: seq<real>, records: seq<Record>)
    requires |s| == |records| && forall i | 0 <= i < |s| :: Close(s[i], Costs(c)(records[i]), 5)
    ensures var penalty := Round(Sum(s) / (if |records| < 1 then 1 else |records|) as real);
      if records == [] then penalty == 0.0
      else Close(penalty, Between(Total(records, Costs(c)) / |records| as real, 100.0), 6)
  {
    hide Costs, Total, Round;
    if records == [] {
      assert Sum(s) == 0.0;
      RoundIsClose(0.0);
      assert Round(0.0) == 0.0 by { RoundZero(); }
    } else {
      hide Sum;
      MeanClose(s, records, Costs(c), 5);
      RoundedIsClose(Mean(s), Total(records, Costs(c)) / |records| as real, 5);
    }
  }

  lemma RoundZero()
    ensures Round(0.0) == 0.0
  {
    NearestOfInteger(0);
  }

  /** Every assessment is the one the formula accounts for. */
  lemma AssessmentAccounted(c: Config, records: seq<Record>, excluded: seq<Dep>, asOf: Instant)
    requires ValidConfig(c) && forall r | r in records :: ValidRecord(r) && r.observedAt <= asOf
    ensures Accounted(c, records, asOf, Assess(c, records, excluded, asOf))
  {
    hide Round, ContributionOf, Reasons, PenaltyOf, ValidConfig, Mean, Priced, Formula, MissingCost, KnownFactors;
    hide Observed, Close, NearMean, Between, Total, KnownTotal, Sum;
    var s := Contributions(c, records, asOf);
    forall i | 0 <= i < |s|
      ensures s[i] == ContributionOf(c, records[i], asOf) && Priced(c, records[i], asOf, s[i])
      ensures Close(PenaltyOf(s[i]), MissingCost(c, records[i]), 5)
          && Observed(s[i].factors) == KnownFactors(records[i])
      ensures 0.0 <= s[i].lower <= s[i].points <= s[i].upper <= 100.0
      ensures Close(s[i].points, Points(c, asOf, 0.0)(records[i]), 6)
      ensures Close(s[i].lower, Points(c, asOf, -c.margin)(records[i]), 6)
      ensures Close(s[i].upper, Points(c, asOf, c.margin)(records[i]), 6)
    {
      assert records[i] in records;
      PointsAreTheFormula(c, records[i], asOf);
      ContributionInOrder(c, records[i], asOf);
      PricedPoints(c, records[i], asOf, s[i]);
    }
    ReasonsAre(c, s, records);
    PenaltyIs(c, Map(s, (x: Contribution) => PenaltyOf(x)), records);
    if records != [] {
      RoundedMean(PointsOf(s), records, Points(c, asOf, 0.0));
      RoundedMean(LowerOf(s), records, Points(c, asOf, -c.margin));
      RoundedMean(UpperOf(s), records, Points(c, asOf, c.margin));
    }
  }

  lemma PricedPoints(c: Config, r: Record, asOf: Instant, x: Contribution)
    requires Priced(c, r, asOf, x)
    ensures Close(x.points, Points(c, asOf, 0.0)(r), 6) && Close(x.lower, Points(c, asOf, -c.margin)(r), 6)
    ensures Close(x.upper, Points(c, asOf, c.margin)(r), 6)
  {
    hide Formula, Between, Close, FactorClose;
  }

  // ----- what follows for single factors -----

  /** Nothing is missing, and everything is at its best. */
  predicate FullMarks(c: Config, r: Record, asOf: Instant) {
    && r.quality == Some(1.0) && r.corroboration == Some(1.0) && r.change == Some(1.0) && r.coverage == Some(1.0)
    && c.recency(asOf - r.observedAt) == 1.0
  }

  /** Nothing but full marks gives an index of 100, up to the roundings and the tolerance on the weights' sum. */
  lemma FullMarksGiveHundred(c: Config, records: seq<Record>, asOf: Instant, a: Assessment)
    requires ValidConfig(c) && Accounted(c, records, asOf, a) && a.index.Some?
    requires forall r | r in records :: FullMarks(c, r, asOf)
    ensures Close(a.index.value, 100.0, 8)
  {
    hide Priced, ValidConfig, FullMarks, Formula, Between, Total, KnownTotal, Close, Points, Costs;
    forall i | 0 <= i < |records|
      ensures -0.0000000001 <= 100.0 - Points(c, asOf, 0.0)(records[i]) <= 0.0000000001
    {
      assert records[i] in records;
      FullMarksPoints(c, records[i], asOf);
    }
    assert records != [];
    var full := Hundreds(records);
    TotalClose(full, records, Points(c, asOf, 0.0), 0.0000000001);
    Share(Sum(full), Total(records, Points(c, asOf, 0.0)), 0.0000000001, |records| as real);
    HundredsMean(records);
    Near(a.index.value, Total(records, Points(c, asOf, 0.0)) / |records| as real);
  }

  lemma Near(x: real, y: real)
    requires Close(x, y, 7) && -0.0000000001 <= 100.0 - y <= 0.0000000001
    ensures Close(x, 100.0, 8)
  {
  }

  function Hundreds(records: seq<Record>): (s: seq<real>)
    ensures |s| == |records| && forall i | 0 <= i < |s| :: s[i] == 100.0
  {
    if records == [] then [] else Hundreds(records[..|records| - 1]) + [100.0]
  }

  lemma {:induction false} HundredsSum(records: seq<Record>)
    ensures Sum(Hundreds(records)) == 100.0 * |records| as real
  {
    if records != [] { HundredsSum(records[..|records| - 1]); }
  }

  lemma HundredsMean(records: seq<Record>)
    requires records != []
    ensures Sum(Hundreds(records)) / |records| as real == 100.0
  {
    HundredsSum(records);
    hide *;
    Same(Sum(Hundreds(records)), |records| as real);
  }

  lemma Same(x: real, n: real)
    requires n > 0.0 && x == 100.0 * n
    ensures x / n == 100.0
  {
  }

  lemma WeightsSum(c: Config)
    requires ValidConfig(c)
    ensures var w := c.weights;
      -0.000000000001 <= w.quality + w.recency + w.corroboration + w.change + w.coverage - 1.0 <= 0.000000000001
  {
    SumOfFive(WeightList(c));
    hide Sum;
  }

  lemma FullMarksPoints(c: Config, r: Record, asOf: Instant)
    requires ValidConfig(c) && FullMarks(c, r, asOf)
    ensures -0.0000000001 <= 100.0 - Points(c, asOf, 0.0)(r) <= 0.0000000001
  {
    WeightsSum(c);
    hide ValidConfig;
  }

  /** The same record with one factor not known. */
  predicate LosesQuality(r: Record, s: Record) { r.quality.Some? && s == r.(quality := None) }

  predicate LosesCorroboration(r: Record, s: Record) { r.corroboration.Some? && s == r.(corroboration := None) }

  predicate LosesChange(r: Record, s: Record) { r.change.Some? && s == r.(change := None) }

  predicate LosesCoverage(r: Record, s: Record) { r.coverage.Some? && s == r.(coverage := None) }

  /** A factor that is not known any more costs its weight times its value, and its weight times the penalty. */
  lemma MissingFactorCosts(c: Config, r: Record, s: Record, asOf: Instant)
    ensures var (before, after, w) := (Formula(c, r, asOf, 0.0), Formula(c, s, asOf, 0.0), c.weights);
      && (LosesQuality(r, s) ==> before - after == Loss(c, r.quality, w.quality))
      && (LosesCorroboration(r, s) ==> before - after == Loss(c, r.corroboration, w.corroboration))
      && (LosesChange(r, s) ==> before - after == Loss(c, r.change, w.change))
      && (LosesCoverage(r, s) ==> before - after == Loss(c, r.coverage, w.coverage))
  {
    hide Between;
  }

  function Loss(c: Config, value: Option<real>, weight: real): real
    requires value.Some?
  {
    100.0 * weight * (Between(value.value, 1.0) + c.missingPenalty)
  }
}
