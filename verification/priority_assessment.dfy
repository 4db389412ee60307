/** The evidence-priority assessment (analytics/prioritization/baseline.py, `_record_contribution`,
    `_assess_core`): weighted and rounded points with an interval, abstention, and the effect of
    removing a record. The recency value is a function of age that the configuration supplies. */
module PriorityAssessment {
  import opened Basics
  import opened PriorityRounding
  import opened PrioritySelection

  datatype Weights = Weights(quality: real, recency: real, corroboration: real, change: real, coverage: real)

  datatype Config = Config(weights: Weights, recency: int -> real, missingPenalty: real, margin: real, minCount: int,
      minFraction: real)

  predicate Unit(x: real) { 0.0 <= x <= 1.0 }

  ghost predicate ValidConfig(c: Config) {
    && (forall w | w in WeightList(c) :: Unit(w))
    && -0.000000000001 <= Sum(WeightList(c)) - 1.0 <= 0.000000000001
    && (forall age: int | age >= 0 :: 0.0 < c.recency(age) <= 1.0)
    && (forall age, older: int | 0 <= age <= older :: c.recency(older) <= c.recency(age))
    && Unit(c.missingPenalty) && Unit(c.margin) && c.minCount >= 1 && Unit(c.minFraction)
  }

  predicate UnitOrMissing(v: Option<real>) { v.Some? ==> Unit(v.value) }

  /** What the constructor of a record insists on. */
  predicate ValidRecord(r: Record) {
    && r.dep.version >= 1 && r.observedAt <= r.recordedAt
    && UnitOrMissing(r.quality) && UnitOrMissing(r.corroboration) && UnitOrMissing(r.change)
       && UnitOrMissing(r.coverage)
  }

  // ----- factors -----

  function WeightList(c: Config): seq<real> {
    [c.weights.quality, c.weights.recency, c.weights.corroboration, c.weights.change, c.weights.coverage]
  }

  function ValueList(c: Config, r: Record, asOf: Instant): seq<Option<real>> {
    [r.quality, Some(c.recency(asOf - r.observedAt)), r.corroboration, r.change, r.coverage]
  }

  datatype Factor = Factor(value: Option<real>, points: real, lower: real, upper: real, penalty: real)

  function Weighted(value: real, weight: real): real { value * weight * 100.0 }

  function AtLeastZero(x: real): real { if x < 0.0 then 0.0 else x }

  function AtMostOne(x: real): real { if x > 1.0 then 1.0 else x }

  function FactorOf(c: Config, value: Option<real>, weight: real): Factor {
    match value
    case None => Factor(None, 0.0, 0.0, 0.0, Round(Weighted(c.missingPenalty, weight)))
    case Some(v) =>
      Factor(Some(Round(v)), Round(Weighted(v, weight)), Round(Weighted(AtLeastZero(v - c.margin), weight)),
             Round(Weighted(AtMostOne(v + c.margin), weight)), 0.0)
  }

  function Factors(c: Config, values: seq<Option<real>>, weights: seq<real>): (r: seq<Factor>)
    requires |values| == |weights|
    ensures |r| == |values| && forall i | 0 <= i < |r| :: r[i] == FactorOf(c, values[i], weights[i])
  {
    if values == [] then []
    else
      Factors(c, values[..|values| - 1], weights[..|weights| - 1])
      + [FactorOf(c, values[|values| - 1], weights[|weights| - 1])]
  }

  function Sum(s: seq<real>): real {
    if s == [] then 0.0 else Sum(s[..|s| - 1]) + s[|s| - 1]
  }

  datatype Contribution = Contribution(dep: Dep, factors: seq<Factor>, points: real, lower: real, upper: real)

  function ContributionFrom(dep: Dep, factors: seq<Factor>): Contribution {
    var penalty := Sum(Map(factors, (f: Factor) => f.penalty));
    Contribution(dep, factors,
                 Round(Sum(Map(factors, (f: Factor) => f.points)) - penalty),
                 Round(Sum(Map(factors, (f: Factor) => f.lower)) - penalty),
                 Round(Sum(Map(factors, (f: Factor) => f.upper)) - penalty))
  }

  function ContributionOf(c: Config, r: Record, asOf: Instant): Contribution {
    ContributionFrom(r.dep, Factors(c, ValueList(c, r, asOf), WeightList(c)))
  }

  function Contributions(c: Config, records: seq<Record>, asOf: Instant): seq<Contribution> {
    Map(records, (r: Record) => ContributionOf(c, r, asOf))
  }

  // ----- the assessment -----

  datatype Reason = MinimumEvidence | MinimumCoverage

  datatype AssessError = DuplicateEvidence | UnavailableCorroboration

  datatype Assessment = Assessment(index: Option<real>, interval: Option<(real, real)>, deps: seq<Dep>,
      excluded: seq<Dep>, contributions: seq<Contribution>, penalty: real, reasons: seq<Reason>)

  function Observed(values: seq<Factor>): nat {
    if values == [] then 0 else Observed(values[..|values| - 1]) + if values[|values| - 1].value.Some? then 1 else 0
  }

  function ObservedAll(s: seq<Contribution>): nat {
    if s == [] then 0 else ObservedAll(s[..|s| - 1]) + Observed(s[|s| - 1].factors)
  }

  function Reasons(c: Config, contributions: seq<Contribution>): seq<Reason> {
    (if |contributions| < c.minCount then [MinimumEvidence] else [])
    + (if ScarcelyObserved(c, contributions) then [MinimumCoverage] else [])
  }

  predicate ScarcelyObserved(c: Config, contributions: seq<Contribution>) {
    |contributions| == 0 || ObservedAll(contributions) as real / (5 * |contributions|) as real < c.minFraction
  }

  function Deps(s: seq<Record>): seq<Dep> { Map(s, (r: Record) => r.dep) }

  /** Every corroborated dependency is among the selected ones. */
  predicate LinksAvailable(records: seq<Record>) {
    forall r | r in records :: forall d | d in r.corroborates :: d in Deps(records)
  }

  function PenaltyOf(x: Contribution): real { Sum(Map(x.factors, (f: Factor) => f.penalty)) }

  function Mean(s: seq<real>): real
    requires s != []
  {
    Sum(s) / |s| as real
  }

  function PointsOf(s: seq<Contribution>): seq<real> { Map(s, (x: Contribution) => x.points) }

  function LowerOf(s: seq<Contribution>): seq<real> { Map(s, (x: Contribution) => x.lower) }

  function UpperOf(s: seq<Contribution>): seq<real> { Map(s, (x: Contribution) => x.upper) }

  /** From the selected records on. */
  function Assess(c: Config, records: seq<Record>, excluded: seq<Dep>, asOf: Instant): Assessment {
    var contributions := Contributions(c, records, asOf);
    var reasons := Reasons(c, contributions);
    var count := if |records| < 1 then 1 else |records|;
    var penalty := Round(Sum(Map(contributions, (x: Contribution) => PenaltyOf(x))) / count as real);
    if reasons != [] || contributions == []
      then Assessment(None, None, Deps(records), excluded, contributions, penalty, reasons)
    else
      Assessment(Some(Round(Mean(PointsOf(contributions)))),
                 Some((Round(Mean(LowerOf(contributions))), Round(Mean(UpperOf(contributions))))),
                 Deps(records), excluded, contributions, penalty, [])
  }

  // ----- arithmetic -----

  lemma WeightedMonotone(a: real, b: real, w: real)
    requires a <= b && w >= 0.0
    ensures Weighted(a, w) <= Weighted(b, w)
  {
    assert (b - a) * w >= 0.0;
  }

  lemma {:induction false} SumMonotone(s: seq<real>, t: seq<real>)
    requires |s| == |t| && forall i | 0 <= i < |s| :: s[i] <= t[i]
    ensures Sum(s) <= Sum(t)
  {
    if s != [] { SumMonotone(s[..|s| - 1], t[..|t| - 1]); }
  }

  lemma MeanMonotone(s: seq<real>, t: seq<real>)
    requires s != [] && |s| == |t| && forall i | 0 <= i < |s| :: s[i] <= t[i]
    ensures Mean(s) <= Mean(t)
  {
    SumMonotone(s, t);
    hide Sum;
    Quotient(Sum(s), Sum(t), |s| as real);
  }

  lemma Quotient(a: real, b: real, n: real)
    requires a <= b && n > 0.0
    ensures a / n <= b / n
  {
  }

  /** Lower, value and upper points of a factor are in order. */
  lemma FactorInOrder(c: Config, value: Option<real>, weight: real)
    requires UnitOrMissing(value) && Unit(weight) && Unit(c.margin)
    ensures var f := FactorOf(c, value, weight);
        0.0 <= f.lower <= f.points <= f.upper <= 100.0 && 0.0 <= f.penalty <= 100.0
  {
    hide Round, Weighted;
    RoundIsSound(Weighted(c.missingPenalty, weight), Weighted(c.missingPenalty, weight));
    if value.Some? {
      var v := value.value;
      WeightedMonotone(AtLeastZero(v - c.margin), v, weight);
      WeightedMonotone(v, AtMostOne(v + c.margin), weight);
      RoundIsSound(Weighted(AtLeastZero(v - c.margin), weight), Weighted(v, weight));
      RoundIsSound(Weighted(v, weight), Weighted(AtMostOne(v + c.margin), weight));
    }
  }

  lemma ValuesAreUnit(c: Config, r: Record, asOf: Instant)
    requires ValidConfig(c) && ValidRecord(r) && r.observedAt <= asOf
    ensures forall i | 0 <= i < |ValueList(c, r, asOf)| :: UnitOrMissing(ValueList(c, r, asOf)[i])
    ensures forall i | 0 <= i < |WeightList(c)| :: Unit(WeightList(c)[i])
  {
    forall i | 0 <= i < |WeightList(c)| ensures Unit(WeightList(c)[i]) { assert WeightList(c)[i] in WeightList(c); }
  }

  lemma ContributionInOrder(c: Config, r: Record, asOf: Instant)
    requires ValidConfig(c) && ValidRecord(r) && r.observedAt <= asOf
    ensures var x := ContributionOf(c, r, asOf); 0.0 <= x.lower <= x.points <= x.upper <= 100.0
  {
    var values, weights := ValueList(c, r, asOf), WeightList(c);
    var factors := Factors(c, values, weights);
    ValuesAreUnit(c, r, asOf);
    forall i | 0 <= i < |factors| ensures factors[i].lower <= factors[i].points <= factors[i].upper {
      FactorInOrder(c, values[i], weights[i]);
    }
    hide Round, Sum, FactorOf, ValueList, WeightList;
    var low, mid, high := Map(factors, (f: Factor) => f.lower), Map(factors, (f: Factor) => f.points),
      Map(factors, (f: Factor) => f.upper);
    SumMonotone(low, mid);
    SumMonotone(mid, high);
    var penalty := Sum(Map(factors, (f: Factor) => f.penalty));
    RoundIsSound(Sum(low) - penalty, Sum(mid) - penalty);
    RoundIsSound(Sum(mid) - penalty, Sum(high) - penalty);
  }

  /** An ordered assessment lies within its interval, and both within 0 and 100, through every
      clamp and rounding; and it abstains exactly when it gives a reason. */
  lemma IndexWithinInterval(c: Config, records: seq<Record>, excluded: seq<Dep>, asOf: Instant)
    requires ValidConfig(c) && forall r | r in records :: ValidRecord(r) && r.observedAt <= asOf
    ensures var a := Assess(c, records, excluded, asOf);
      && (a.index.Some? <==> a.reasons == []) && (a.index.Some? <==> a.interval.Some?)
      && (a.index.Some? ==> 0.0 <= a.interval.value.0 <= a.index.value <= a.interval.value.1 <= 100.0)
      && 0.0 <= a.penalty <= 100.0
  {
    hide Round, ContributionOf, Reasons, PenaltyOf, ValidConfig, Mean, PointsOf, LowerOf, UpperOf;
    var s := Contributions(c, records, asOf);
    var total := Sum(Map(s, (x: Contribution) => PenaltyOf(x))) / (if |records| < 1 then 1 else |records|) as real;
    RoundIsSound(total, total);
    NoRecordsNoOrder(c, s);
    if s != [] {
      forall i | 0 <= i < |s| ensures s[i].lower <= s[i].points <= s[i].upper {
        assert records[i] in records;
        ContributionInOrder(c, records[i], asOf);
      }
      MeansInOrder(s);
      RoundIsSound(Mean(LowerOf(s)), Mean(PointsOf(s)));
      RoundIsSound(Mean(PointsOf(s)), Mean(UpperOf(s)));
    }
  }

  lemma MeansInOrder(s: seq<Contribution>)
    requires s != [] && forall i | 0 <= i < |s| :: s[i].lower <= s[i].points <= s[i].upper
    ensures LowerOf(s) != [] && PointsOf(s) != [] && UpperOf(s) != []
    ensures Mean(LowerOf(s)) <= Mean(PointsOf(s)) <= Mean(UpperOf(s))
  {
    hide Mean;
    MeanMonotone(LowerOf(s), PointsOf(s));
    MeanMonotone(PointsOf(s), UpperOf(s));
  }

  lemma NoRecordsNoOrder(c: Config, s: seq<Contribution>)
    ensures s == [] ==> Reasons(c, s) != []
  {
  }
}
