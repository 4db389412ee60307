/** The methods of the baseline (analytics/prioritization/baseline.py, `_record_contribution`,
    `_assess_core`, `assess_priority`), and how an assessment answers to its evidence: raising a
    factor, removing a record. */
module PrioritySensitivity {
  import opened Basics
  import opened PriorityRounding
  import opened PrioritySelection
  import opened PriorityAssessment
  import opened PriorityPoints

  // ----- the loops -----

  /** `_record_contribution` */
  method RecordContribution(c: Config, r: Record, asOf: Instant) returns (x: Contribution)
    ensures x == ContributionOf(c, r, asOf)
    ensures ValidConfig(c) && ValidRecord(r) && r.observedAt <= asOf ==> Priced(c, r, asOf, x)
  {
    hide FactorOf, Round, Sum, ValidConfig, ValidRecord, Priced;
    if ValidConfig(c) && ValidRecord(r) && r.observedAt <= asOf { PointsAreTheFormula(c, r, asOf); }
    var values, weights := ValueList(c, r, asOf), WeightList(c);
    var factors: seq<Factor> := [];
    for i := 0 to |values|
      invariant factors == Factors(c, values[..i], weights[..i])
    {
      assert values[..i + 1][..i] == values[..i] && weights[..i + 1][..i] == weights[..i];
      factors := factors + [FactorOf(c, values[i], weights[i])];
    }
    assert values[..|values|] == values && weights[..|values|] == weights;
    x := ContributionFrom(r.dep, factors);
  }

  /** What a call of `_assess_core` without sensitivities may return. */
  ghost predicate Assessed(c: Config, evidence: seq<Record>, asOf: Instant, a: Assessment) {
    exists selected, excluded ::
      SelectionExact(evidence, asOf, selected, excluded) && a == Assess(c, selected, excluded, asOf)
  }

  /** What every record and the configuration insist on when they are made. */
  ghost predicate ValidInput(c: Config, evidence: seq<Record>) {
    ValidConfig(c) && forall r | r in evidence :: ValidRecord(r)
  }

  /** The same, told by the formula over the highest visible version of every record. */
  ghost predicate Explained(c: Config, evidence: seq<Record>, asOf: Instant, a: Assessment) {
    exists selected :: SelectionExact(evidence, asOf, selected, a.excluded) && Accounted(c, selected, asOf, a)
  }

  lemma AssessedIsExplained(c: Config, evidence: seq<Record>, asOf: Instant, a: Assessment)
    requires ValidInput(c, evidence) && Assessed(c, evidence, asOf, a)
    ensures Explained(c, evidence, asOf, a)
  {
    hide ValidConfig, ValidRecord, Accounted, Assess, SelectionExact, Highest;
    var selected, excluded :| SelectionExact(evidence, asOf, selected, excluded)
      && a == Assess(c, selected, excluded, asOf);
    forall r | r in selected ensures ValidRecord(r) && r.observedAt <= asOf {
      SelectedInTime(evidence, asOf, selected, excluded, r);
    }
    AssessmentAccounted(c, selected, excluded, asOf);
    AssessExcluded(c, selected, excluded, asOf);
  }

  lemma SelectedInTime(evidence: seq<Record>, asOf: Instant, selected: seq<Record>, excluded: seq<Dep>, r: Record)
    requires SelectionExact(evidence, asOf, selected, excluded) && r in selected
    ensures r in evidence && r.observedAt <= asOf
  {
  }

  lemma AssessExcluded(c: Config, selected: seq<Record>, excluded: seq<Dep>, asOf: Instant)
    ensures Assess(c, selected, excluded, asOf).excluded == excluded
  {
    hide Deps, Contributions, Reasons, Round, Mean, PointsOf, LowerOf, UpperOf, Sum;
  }

  /** Selected records corroborate selected records only. */
  ghost predicate LinksOk(evidence: seq<Record>, asOf: Instant) {
    forall r, d | Highest(evidence, asOf, r) && d in r.corroborates ::
      exists x :: Highest(evidence, asOf, x) && x.dep == d
  }

  lemma DepsMembers(evidence: seq<Record>, asOf: Instant, selected: seq<Record>, excluded: seq<Dep>)
    requires SelectionExact(evidence, asOf, selected, excluded)
    ensures forall d :: d in Deps(selected) <==> exists r :: Highest(evidence, asOf, r) && r.dep == d
  {
    hide Highest;
    var deps := Deps(selected);
    forall d ensures d in deps <==> exists r :: Highest(evidence, asOf, r) && r.dep == d {
      if d in deps {
        var i :| 0 <= i < |deps| && deps[i] == d;
        assert selected[i] in selected;
      }
      if r :| Highest(evidence, asOf, r) && r.dep == d {
        var i :| 0 <= i < |selected| && selected[i] == r;
        assert deps[i] == d;
      }
    }
  }

  lemma LinksChecked(evidence: seq<Record>, asOf: Instant, selected: seq<Record>, excluded: seq<Dep>)
    requires SelectionExact(evidence, asOf, selected, excluded)
    ensures LinksAvailable(selected) <==> LinksOk(evidence, asOf)
  {
    hide Highest, Deps;
    DepsMembers(evidence, asOf, selected, excluded);
  }

  method AssessCore(c: Config, evidence: seq<Record>, asOf: Instant) returns (result: Result<Assessment, AssessError>)
    ensures result == Err(DuplicateEvidence) <==> !DistinctBy(evidence, DepOf)
    ensures result.Ok? <==> DistinctBy(evidence, DepOf) && LinksOk(evidence, asOf)
    ensures result.Ok? ==> Assessed(c, evidence, asOf, result.value)
    ensures result.Ok? && ValidInput(c, evidence) ==> Explained(c, evidence, asOf, result.value)
  {
    hide ValidInput, Explained, ValidConfig, ValidRecord, Priced, DistinctBy, SelectionExact, LinksAvailable, LinksOk;
    hide Highest, ContributionOf, Reasons, Round, Mean;
    var selection := SelectKnownRevisions(evidence, asOf);
    if selection.Err? { return Err(DuplicateEvidence); }
    var records, excluded := selection.value.0, selection.value.1;
    LinksChecked(evidence, asOf, records, excluded);
    if !LinksAvailable(records) { return Err(UnavailableCorroboration); }
    var contributions: seq<Contribution> := [];
    for i := 0 to |records|
      invariant contributions == Contributions(c, records[..i], asOf)
    {
      assert records[..i + 1][..i] == records[..i];
      var x := RecordContribution(c, records[i], asOf);
      contributions := contributions + [x];
    }
    assert records[..|records|] == records;
    result := Ok(Assess(c, records, excluded, asOf));
    assert Assessed(c, evidence, asOf, result.value);
    if ValidInput(c, evidence) { AssessedIsExplained(c, evidence, asOf, result.value); }
  }

  datatype Sensitivity = Sensitivity(removed: Dep, index: Option<real>, change: Option<real>)

  function Without(evidence: seq<Record>, d: Dep): (r: seq<Record>)
    ensures forall x :: x in r <==> x in evidence && x.dep != d
  {
    if evidence == [] then []
    else
      var rest, last := evidence[..|evidence| - 1], evidence[|evidence| - 1];
      assert evidence == rest + [last];
      if last.dep != d then Without(rest, d) + [last] else Without(rest, d)
  }

  function ChangeOf(before: Option<real>, after: Option<real>): Option<real> {
    if before.None? || after.None? then None else Some(RoundSigned(after.value - before.value))
  }

  ghost predicate RemovalsOk(evidence: seq<Record>, asOf: Instant) {
    forall r | Highest(evidence, asOf, r) :: LinksOk(Without(evidence, r.dep), asOf)
  }

  /** A sensitivity tells what the assessment of the remaining evidence is. */
  ghost predicate SensitivityTrue(c: Config, evidence: seq<Record>, asOf: Instant, index: Option<real>,
        s: Sensitivity) {
    exists a ::
      Assessed(c, Without(evidence, s.removed), asOf, a) && s.index == a.index && s.change == ChangeOf(index, a.index)
  }

  /** The same, told by the formula: what the index would be, and how far it would move, up to one rounding. */
  ghost predicate SensitivityExplained(c: Config, evidence: seq<Record>, asOf: Instant, index: Option<real>,
        s: Sensitivity) {
    exists a ::
      && Explained(c, Without(evidence, s.removed), asOf, a) && s.index == a.index
      && (s.change.Some? <==> index.Some? && a.index.Some?)
      && (s.change.Some? && index.Some? && a.index.Some? ==> Close(s.change.value, a.index.value - index.value, 1))
  }

  lemma SensitivityIsExplained(c: Config, evidence: seq<Record>, asOf: Instant, index: Option<real>, s: Sensitivity)
    requires ValidInput(c, evidence) && SensitivityTrue(c, evidence, asOf, index, s)
    requires index.Some? ==> 0.0 <= index.value <= 100.0
    ensures SensitivityExplained(c, evidence, asOf, index, s)
  {
    hide ValidConfig, ValidRecord, Assessed, Explained, RoundSigned, Close;
    var a :| Assessed(c, Without(evidence, s.removed), asOf, a) && s.index == a.index
      && s.change == ChangeOf(index, a.index);
    AssessedIsExplained(c, Without(evidence, s.removed), asOf, a);
    IndexInRange(c, Without(evidence, s.removed), asOf, a);
    if index.Some? && a.index.Some? { RoundSignedIsClose(a.index.value - index.value); }
  }

  lemma RoundSignedIsClose(x: real)
    requires -100.0 <= x <= 100.0
    ensures Close(RoundSigned(x), x, 1)
  {
    NearestIsClose(x * SCALE);
    hide Nearest;
  }

  lemma IndexInRange(c: Config, evidence: seq<Record>, asOf: Instant, a: Assessment)
    requires Assessed(c, evidence, asOf, a)
    ensures a.index.Some? ==> 0.0 <= a.index.value <= 100.0
  {
    hide Mean, Round, SelectionExact, Contributions, Reasons, PenaltyOf, LowerOf, UpperOf;
    var selected, excluded :| SelectionExact(evidence, asOf, selected, excluded)
      && a == Assess(c, selected, excluded, asOf);
    if a.index.Some? {
      var m := Mean(PointsOf(Contributions(c, selected, asOf)));
      RoundIsSound(m, m);
    }
  }

  /** `assess_priority`: one sensitivity for each selected dependency, in order. It fails exactly
      when the selection or one of the removals leaves a corroboration without its record. */
  method AssessPriority(c: Config, evidence: seq<Record>, asOf: Instant)
    returns (result: Result<(Assessment, seq<Sensitivity>), AssessError>)
    ensures result.Ok? <==> DistinctBy(evidence, DepOf) && LinksOk(evidence, asOf) && RemovalsOk(evidence, asOf)
    ensures result.Ok? ==>
      var (a, s) := result.value;
      && Assessed(c, evidence, asOf, a) && |s| == |a.deps|
      && (forall i | 0 <= i < |s| :: s[i].removed == a.deps[i] && SensitivityTrue(c, evidence, asOf, a.index, s[i]))
    ensures result.Ok? && ValidInput(c, evidence) ==>
      var (a, s) := result.value;
      && Explained(c, evidence, asOf, a)
      && forall i | 0 <= i < |s| :: SensitivityExplained(c, evidence, asOf, a.index, s[i])
  {
    hide ValidInput, Explained, SensitivityExplained, DistinctBy, LinksOk, Highest, Without, Assessed;
    var core := AssessCore(c, evidence, asOf);
    if core.Err? { return Err(core.error); }
    var a := core.value;
    AssessedDeps(c, evidence, asOf, a);
    WithoutDistinct(evidence);
    var s: seq<Sensitivity> := [];
    for i := 0 to |a.deps|
      invariant |s| == i
      invariant forall j | 0 <= j < i :: s[j].removed == a.deps[j] && SensitivityTrue(c, evidence, asOf, a.index, s[j])
      invariant forall j | 0 <= j < i :: LinksOk(Without(evidence, a.deps[j]), asOf)
    {
      assert a.deps[i] in a.deps;
      var reduced := AssessCore(c, Without(evidence, a.deps[i]), asOf);
      if reduced.Err? { return Err(reduced.error); }
      var item := Sensitivity(a.deps[i], reduced.value.index, ChangeOf(a.index, reduced.value.index));
      assert SensitivityTrue(c, evidence, asOf, a.index, item);
      s := s + [item];
    }
    forall r | Highest(evidence, asOf, r) ensures LinksOk(Without(evidence, r.dep), asOf) {
      assert r.dep in a.deps;
      var j :| 0 <= j < |a.deps| && a.deps[j] == r.dep;
    }
    if ValidInput(c, evidence) {
      IndexInRange(c, evidence, asOf, a);
      forall i | 0 <= i < |s| ensures SensitivityExplained(c, evidence, asOf, a.index, s[i]) {
        SensitivityIsExplained(c, evidence, asOf, a.index, s[i]);
      }
    }
    return Ok((a, s));
  }

  lemma AssessedDeps(c: Config, evidence: seq<Record>, asOf: Instant, a: Assessment)
    requires Assessed(c, evidence, asOf, a)
    ensures forall d :: d in a.deps <==> exists r :: Highest(evidence, asOf, r) && r.dep == d
  {
    hide Highest, Assess, Deps, SelectionExact;
    var selected, excluded :| SelectionExact(evidence, asOf, selected, excluded)
      && a == Assess(c, selected, excluded, asOf);
    AssessDeps(c, selected, excluded, asOf);
    DepsMembers(evidence, asOf, selected, excluded);
  }

  lemma AssessDeps(c: Config, selected: seq<Record>, excluded: seq<Dep>, asOf: Instant)
    ensures Assess(c, selected, excluded, asOf).deps == Deps(selected)
  {
    hide Deps, Contributions, Reasons, Round, Mean, PointsOf, LowerOf, UpperOf, Sum;
  }

  lemma WithoutDistinct(evidence: seq<Record>)
    requires DistinctBy(evidence, DepOf)
    ensures forall d :: DistinctBy(Without(evidence, d), DepOf)
  {
    forall d ensures DistinctBy(Without(evidence, d), DepOf) { RemainsDistinct(evidence, d); }
  }

  lemma {:induction false} RemainsDistinct(evidence: seq<Record>, d: Dep)
    requires DistinctBy(evidence, DepOf)
    ensures DistinctBy(Without(evidence, d), DepOf)
  {
    if evidence != [] {
      var rest, last := evidence[..|evidence| - 1], evidence[|evidence| - 1];
      RemainsDistinct(rest, d);
      var t := Without(rest, d);
      forall i | 0 <= i < |t| ensures t[i].dep != last.dep {
        assert t[i] in rest;
        var k :| 0 <= k < |rest| && rest[k] == t[i];
        SameKeySamePlace(evidence, DepOf, k, |evidence| - 1);
      }
    }
  }

  // ----- when an assessment with sensitivities exists -----

  /** Selected records corroborate at most themselves. */
  ghost predicate OwnLinks(evidence: seq<Record>, asOf: Instant) {
    forall r | Highest(evidence, asOf, r) :: r.corroborates <= {r.dep}
  }

  /** The version that is selected once the selected one is gone: the next highest visible one. */
  predicate RunnerUp(evidence: seq<Record>, asOf: Instant, r: Record, s: Record) {
    && s in evidence && Visible(s, asOf) && s.dep.record == r.dep.record && s.dep != r.dep
    && forall x | x in evidence && Visible(x, asOf) && x.dep.record == r.dep.record && x.dep != r.dep ::
         x.dep.version <= s.dep.version
  }

  /** Whatever a removal brings back corroborates itself or records selected beside it. */
  ghost predicate RunnersUpOk(evidence: seq<Record>, asOf: Instant) {
    forall r, s, d | Highest(evidence, asOf, r) && RunnerUp(evidence, asOf, r, s) && d in s.corroborates ::
      d == s.dep || OtherSelected(evidence, asOf, r, d)
  }

  ghost predicate OtherSelected(evidence: seq<Record>, asOf: Instant, r: Record, d: Dep) {
    exists x :: Highest(evidence, asOf, x) && x != r && x.dep == d
  }

  /** Taking a selected record out leaves the other selected ones and brings in its runner-up. */
  lemma SelectedWithout(evidence: seq<Record>, asOf: Instant, r: Record, x: Record)
    requires DistinctBy(evidence, DepOf) && Highest(evidence, asOf, r)
    ensures Highest(Without(evidence, r.dep), asOf, x) <==>
      (Highest(evidence, asOf, x) && x != r) || RunnerUp(evidence, asOf, r, x)
  {
    hide DistinctBy, Visible;
    if x in evidence { SameKeySameElement(evidence, DepOf, x, r); }
  }

  /** Exactly when nothing is left without its corroboration: selected records corroborate at most
      themselves, and runners-up themselves or other selected records. */
  lemma CrossCorroborationFails(evidence: seq<Record>, asOf: Instant)
    requires DistinctBy(evidence, DepOf)
    ensures LinksOk(evidence, asOf) && RemovalsOk(evidence, asOf) <==>
        OwnLinks(evidence, asOf) && RunnersUpOk(evidence, asOf)
  {
    hide Highest, RunnerUp, Without, DistinctBy;
    if LinksOk(evidence, asOf) && RemovalsOk(evidence, asOf) {
      forall r, d | Highest(evidence, asOf, r) && d in r.corroborates ensures d == r.dep {
        if d != r.dep {
          var x :| Highest(evidence, asOf, x) && x.dep == d;
          CrossLinkBreaks(evidence, asOf, r, x);
        }
      }
      forall r, s, d | Highest(evidence, asOf, r) && RunnerUp(evidence, asOf, r, s) && d in s.corroborates
        ensures d == s.dep || OtherSelected(evidence, asOf, r, d)
      {
        RunnerUpLinked(evidence, asOf, r, s, d);
      }
    }
    if OwnLinks(evidence, asOf) && RunnersUpOk(evidence, asOf) {
      forall r | Highest(evidence, asOf, r) ensures LinksOk(Without(evidence, r.dep), asOf) {
        RemovalLinked(evidence, asOf, r);
      }
    }
  }

  lemma RunnerUpLinked(evidence: seq<Record>, asOf: Instant, r: Record, s: Record, d: Dep)
    requires DistinctBy(evidence, DepOf) && Highest(evidence, asOf, r) && RunnerUp(evidence, asOf, r, s)
    requires LinksOk(Without(evidence, r.dep), asOf) && d in s.corroborates
    ensures d == s.dep || OtherSelected(evidence, asOf, r, d)
  {
    SelectedWithout(evidence, asOf, r, s);
    var x :| Highest(Without(evidence, r.dep), asOf, x) && x.dep == d;
    SelectedWithout(evidence, asOf, r, x);
    if RunnerUp(evidence, asOf, r, x) { OneRunnerUp(evidence, asOf, r, s, x); }
  }

  lemma OneRunnerUp(evidence: seq<Record>, asOf: Instant, r: Record, s: Record, x: Record)
    requires DistinctBy(evidence, DepOf) && RunnerUp(evidence, asOf, r, s) && RunnerUp(evidence, asOf, r, x)
    ensures s == x
  {
    SameKeySameElement(evidence, DepOf, s, x);
  }

  lemma RemovalLinked(evidence: seq<Record>, asOf: Instant, r: Record)
    requires DistinctBy(evidence, DepOf) && Highest(evidence, asOf, r)
    requires OwnLinks(evidence, asOf) && RunnersUpOk(evidence, asOf)
    ensures LinksOk(Without(evidence, r.dep), asOf)
  {
    hide Highest, RunnerUp, Without, DistinctBy;
    var rest := Without(evidence, r.dep);
    forall s, d | Highest(rest, asOf, s) && d in s.corroborates
      ensures exists x :: Highest(rest, asOf, x) && x.dep == d
    {
      SelectedWithout(evidence, asOf, r, s);
      if d == s.dep {
        assert Highest(rest, asOf, s) && s.dep == d;
      } else {
        var x :| Highest(evidence, asOf, x) && x != r && x.dep == d;
        SelectedWithout(evidence, asOf, r, x);
      }
    }
  }

  // ----- two inputs that fail -----

  function Example(record: string, version: nat, corroborates: set<Dep>): Record {
    Record(Dep(record, version), 0, 0, Some(1.0), Some(1.0), Some(1.0), Some(1.0), corroborates)
  }

  /** One record corroborates another, both are selected. */
  function CrossExample(): seq<Record> { [Example("A", 1, {Dep("B", 1)}), Example("B", 1, {})] }

  lemma CrossExampleFails()
    ensures DistinctBy(CrossExample(), DepOf) && LinksOk(CrossExample(), 0) && !RemovalsOk(CrossExample(), 0)
  {
    var e := CrossExample();
    var a, b := e[0], e[1];
    assert e == [a, b] && a in e && b in e && forall x | x in e :: x == a || x == b;
    assert Highest(e, 0, a) && Highest(e, 0, b);
    CrossCorroborationFails(e, 0);
  }

  /** An old version corroborates an old version of another record; both were revised since, and
      selected records corroborate nothing. Taking the revision out brings the old version back,
      without the version it corroborates. */
  function RevisedExample(): seq<Record> {
    [Example("A", 1, {Dep("B", 1)}), Example("B", 1, {}), Example("A", 2, {}), Example("B", 2, {})]
  }

  lemma RevisedExampleFails()
    ensures DistinctBy(RevisedExample(), DepOf) && LinksOk(RevisedExample(), 0) && OwnLinks(RevisedExample(), 0)
    ensures !RemovalsOk(RevisedExample(), 0)
  {
    var e := RevisedExample();
    var a, a', b' := Example("A", 1, {Dep("B", 1)}), Example("A", 2, {}), Example("B", 2, {});
    RevisedMembers();
    RevisedSelected(e);
    RevisedDistinct();
    hide DistinctBy, RevisedExample, Highest, RunnerUp, RemovalsOk;
    CrossCorroborationFails(e, 0);
    assert Dep("B", 1) in a.corroborates && Dep("B", 1) != a.dep && !OtherSelected(e, 0, a', Dep("B", 1));
  }

  lemma RevisedMembers()
    ensures forall x :: x in RevisedExample() <==> IsRevised(x)
  {
    var e := RevisedExample();
    assert e[0] in e && e[1] in e && e[2] in e && e[3] in e;
  }

  lemma RevisedDistinct()
    ensures DistinctBy(RevisedExample(), DepOf)
  {
  }

  predicate IsRevised(x: Record) {
    || x == Example("A", 1, {Dep("B", 1)}) || x == Example("B", 1, {})
    || x == Example("A", 2, {}) || x == Example("B", 2, {})
  }

  lemma RevisedSelected(e: seq<Record>)
    requires forall x :: x in e <==> IsRevised(x)
    ensures forall x :: Highest(e, 0, x) <==> x == Example("A", 2, {}) || x == Example("B", 2, {})
    ensures RunnerUp(e, 0, Example("A", 2, {}), Example("A", 1, {Dep("B", 1)}))
  {
    var a, b, a', b' := Example("A", 1, {Dep("B", 1)}), Example("B", 1, {}), Example("A", 2, {}), Example("B", 2, {});
    assert a in e && b in e && a' in e && b' in e;
    forall x | Highest(e, 0, x) ensures x == a' || x == b' {
      assert x == a ==> a'.dep.version > x.dep.version;
      assert x == b ==> b'.dep.version > x.dep.version;
    }
  }

  lemma CrossLinkBreaks(evidence: seq<Record>, asOf: Instant, r: Record, x: Record)
    requires Highest(evidence, asOf, r) && x.dep in r.corroborates && x.dep != r.dep
    ensures !LinksOk(Without(evidence, x.dep), asOf)
  {
    StillHighest(evidence, asOf, r, x.dep);
    NothingThere(evidence, asOf, x.dep);
    hide Highest, Without;
  }

  lemma StillHighest(evidence: seq<Record>, asOf: Instant, r: Record, d: Dep)
    requires Highest(evidence, asOf, r) && r.dep != d
    ensures Highest(Without(evidence, d), asOf, r)
  {
  }

  lemma NothingThere(evidence: seq<Record>, asOf: Instant, d: Dep)
    ensures forall x | Highest(Without(evidence, d), asOf, x) :: x.dep != d
  {
  }

  // ----- raising a factor -----

  predicate ValueRaised(v: Option<real>, w: Option<real>) { v.Some? == w.Some? && (v.Some? ==> v.value <= w.value) }

  /** The same record with some known factors raised, or observed more recently. */
  predicate Raised(r: Record, s: Record, asOf: Instant) {
    && s.dep == r.dep && s.recordedAt == r.recordedAt && s.corroborates == r.corroborates
    && r.observedAt <= s.observedAt && (r.observedAt <= asOf ==> s.observedAt <= asOf)
    && ValueRaised(r.quality, s.quality) && ValueRaised(r.corroboration, s.corroboration)
    && ValueRaised(r.change, s.change) && ValueRaised(r.coverage, s.coverage)
  }

  lemma FactorRaised(c: Config, v: Option<real>, w: Option<real>, weight: real)
    requires ValueRaised(v, w) && weight >= 0.0
    ensures var f, g := FactorOf(c, v, weight), FactorOf(c, w, weight);
      f.points <= g.points && f.lower <= g.lower && f.upper <= g.upper && f.penalty == g.penalty
        && (f.value.Some? <==> g.value.Some?)
  {
    hide Round, Weighted;
    if v.Some? {
      var a, b := v.value, w.value;
      WeightedMonotone(a, b, weight);
      WeightedMonotone(AtLeastZero(a - c.margin), AtLeastZero(b - c.margin), weight);
      WeightedMonotone(AtMostOne(a + c.margin), AtMostOne(b + c.margin), weight);
      RoundIsSound(Weighted(a, weight), Weighted(b, weight));
      RoundIsSound(Weighted(AtLeastZero(a - c.margin), weight), Weighted(AtLeastZero(b - c.margin), weight));
      RoundIsSound(Weighted(AtMostOne(a + c.margin), weight), Weighted(AtMostOne(b + c.margin), weight));
    }
  }

  /** Pointwise at least as high, and as complete. */
  ghost predicate FactorsRaised(s: seq<Factor>, t: seq<Factor>) {
    |s| == |t| && forall i | 0 <= i < |s| ::
      s[i].points <= t[i].points && s[i].lower <= t[i].lower && s[i].upper <= t[i].upper && s[i].penalty == t[i].penalty
      && (s[i].value.Some? <==> t[i].value.Some?)
  }

  lemma {:induction false} ObservedSame(s: seq<Factor>, t: seq<Factor>)
    requires FactorsRaised(s, t)
    ensures Observed(s) == Observed(t)
  {
    if s != [] { ObservedSame(s[..|s| - 1], t[..|t| - 1]); }
  }

  ghost predicate ContributionRaised(x: Contribution, y: Contribution) {
    x.points <= y.points && x.lower <= y.lower && x.upper <= y.upper && Observed(x.factors) == Observed(y.factors)
  }

  lemma RaisedContribution(c: Config, r: Record, s: Record, asOf: Instant)
    requires ValidConfig(c) && Raised(r, s, asOf) && r.observedAt <= asOf
    ensures ContributionRaised(ContributionOf(c, r, asOf), ContributionOf(c, s, asOf))
  {
    var v, w, weights := ValueList(c, r, asOf), ValueList(c, s, asOf), WeightList(c);
    var f, g := Factors(c, v, weights), Factors(c, w, weights);
    forall i | 0 <= i < |weights| ensures weights[i] >= 0.0 { assert weights[i] in WeightList(c); }
    forall i | 0 <= i < |v| ensures ValueRaised(v[i], w[i]) {}
    hide Round, Sum, FactorOf, ValueList, WeightList, ValidConfig, Raised, ValueRaised;
    forall i | 0 <= i < |f|
      ensures f[i].points <= g[i].points && f[i].lower <= g[i].lower && f[i].upper <= g[i].upper
          && f[i].penalty == g[i].penalty
      ensures f[i].value.Some? <==> g[i].value.Some?
    {
      FactorRaised(c, v[i], w[i], weights[i]);
    }
    ObservedSame(f, g);
    RaisedTotals(r.dep, f, g);
  }

  lemma RaisedTotals(dep: Dep, f: seq<Factor>, g: seq<Factor>)
    requires FactorsRaised(f, g)
    ensures var x, y := ContributionFrom(dep, f), ContributionFrom(dep, g);
        x.points <= y.points && x.lower <= y.lower && x.upper <= y.upper
  {
    hide Round, Sum;
    var penalty := Sum(Map(f, (f: Factor) => f.penalty));
    assert Map(f, (f: Factor) => f.penalty) == Map(g, (f: Factor) => f.penalty);
    SumMonotone(Map(f, (f: Factor) => f.points), Map(g, (f: Factor) => f.points));
    SumMonotone(Map(f, (f: Factor) => f.lower), Map(g, (f: Factor) => f.lower));
    SumMonotone(Map(f, (f: Factor) => f.upper), Map(g, (f: Factor) => f.upper));
    RoundIsSound(Sum(Map(f, (f: Factor) => f.points)) - penalty, Sum(Map(g, (f: Factor) => f.points)) - penalty);
    RoundIsSound(Sum(Map(f, (f: Factor) => f.lower)) - penalty, Sum(Map(g, (f: Factor) => f.lower)) - penalty);
    RoundIsSound(Sum(Map(f, (f: Factor) => f.upper)) - penalty, Sum(Map(g, (f: Factor) => f.upper)) - penalty);
  }

  lemma {:induction false} ObservedAllSame(s: seq<Contribution>, t: seq<Contribution>)
    requires |s| == |t| && forall i | 0 <= i < |s| :: Observed(s[i].factors) == Observed(t[i].factors)
    ensures ObservedAll(s) == ObservedAll(t)
  {
    if s != [] { ObservedAllSame(s[..|s| - 1], t[..|t| - 1]); }
  }

  ghost predicate AllRaised(s: seq<Record>, t: seq<Record>, asOf: Instant) {
    |s| == |t| && forall i | 0 <= i < |s| :: Raised(s[i], t[i], asOf)
  }

  predicate NotLower(a: Assessment, b: Assessment) {
    && a.index.Some? && b.index.Some? && a.interval.Some? && b.interval.Some? && a.index.value <= b.index.value
    && a.interval.value.0 <= b.interval.value.0 && a.interval.value.1 <= b.interval.value.1
  }

  /** Neither the index nor its bounds fall, and no assessment is withheld. */
  lemma RaisedAssessment(c: Config, s: seq<Record>, t: seq<Record>, e: seq<Dep>, e': seq<Dep>, asOf: Instant)
    requires ValidConfig(c) && AllRaised(s, t, asOf) && forall r | r in s :: r.observedAt <= asOf
    ensures var a, b := Assess(c, s, e, asOf), Assess(c, t, e', asOf);
      && (a.index.Some? <==> b.index.Some?) && (a.index.Some? <==> a.interval.Some?)
         && (b.index.Some? <==> b.interval.Some?)
      && (a.index.Some? ==> NotLower(a, b))
  {
    hide Round, ContributionOf, ValidConfig, Raised, Mean, ContributionRaised, PenaltyOf;
    var x, y := Contributions(c, s, asOf), Contributions(c, t, asOf);
    forall i | 0 <= i < |x| ensures ContributionRaised(x[i], y[i]) {
      assert s[i] in s;
      RaisedContribution(c, s[i], t[i], asOf);
    }
    ReasonsSame(c, x, y);
    hide Reasons;
    if x != [] { RaisedMeans(x, y); }
  }

  lemma ReasonsSame(c: Config, x: seq<Contribution>, y: seq<Contribution>)
    requires |x| == |y| && forall i | 0 <= i < |x| :: ContributionRaised(x[i], y[i])
    ensures Reasons(c, x) == Reasons(c, y)
  {
    ObservedAllSame(x, y);
  }

  lemma RaisedMeans(x: seq<Contribution>, y: seq<Contribution>)
    requires x != [] && |x| == |y| && forall i | 0 <= i < |x| :: ContributionRaised(x[i], y[i])
    ensures Round(Mean(PointsOf(x))) <= Round(Mean(PointsOf(y))) && Round(Mean(LowerOf(x))) <= Round(Mean(LowerOf(y)))
    ensures Round(Mean(UpperOf(x))) <= Round(Mean(UpperOf(y)))
  {
    hide Mean, Round;
    MeanMonotone(PointsOf(x), PointsOf(y));
    MeanMonotone(LowerOf(x), LowerOf(y));
    MeanMonotone(UpperOf(x), UpperOf(y));
    RoundIsSound(Mean(PointsOf(x)), Mean(PointsOf(y)));
    RoundIsSound(Mean(LowerOf(x)), Mean(LowerOf(y)));
    RoundIsSound(Mean(UpperOf(x)), Mean(UpperOf(y)));
  }

  // ----- selection of raised evidence -----

  lemma DepsOf(evidence: seq<Record>, asOf: Instant, selected: seq<Record>, excluded: seq<Dep>)
    requires DistinctBy(evidence, DepOf) && SelectionExact(evidence, asOf, selected, excluded)
    ensures Sorted(Deps(selected), DepLe) && NoDuplicates(Deps(selected))
    ensures forall d :: d in Deps(selected) <==> exists r :: Highest(evidence, asOf, r) && r.dep == d
  {
    forall r | Highest(evidence, asOf, r) ensures r in evidence {}
    hide Highest, DepLe;
    DepsMembers(evidence, asOf, selected, excluded);
    var deps := Deps(selected);
    forall i, j | 0 <= i < j < |deps| ensures DepLe(deps[i], deps[j]) && deps[i] != deps[j] {
      assert ByDep(selected[i], selected[j]) && selected[i] != selected[j] && selected[i] in selected
        && selected[j] in selected;
      SameKeySameElement(evidence, DepOf, selected[i], selected[j]);
    }
  }

  lemma RaisedHighest(evidence: seq<Record>, raised: seq<Record>, asOf: Instant, i: nat)
    requires AllRaised(evidence, raised, asOf) && i < |evidence|
    ensures Highest(evidence, asOf, evidence[i]) <==> Highest(raised, asOf, raised[i])
  {
    hide ValueRaised;
    if Highest(evidence, asOf, evidence[i]) {
      forall x | x in raised && Visible(x, asOf) && x.dep.record == raised[i].dep.record
        ensures x.dep.version <= raised[i].dep.version
      {
        var k :| 0 <= k < |raised| && raised[k] == x;
        assert evidence[k] in evidence;
      }
    }
    if Highest(raised, asOf, raised[i]) {
      forall x | x in evidence && Visible(x, asOf) && x.dep.record == evidence[i].dep.record
        ensures x.dep.version <= evidence[i].dep.version
      {
        var k :| 0 <= k < |evidence| && evidence[k] == x;
        assert raised[k] in raised;
      }
    }
  }

  lemma RaisedDistinct(evidence: seq<Record>, raised: seq<Record>, asOf: Instant)
    requires AllRaised(evidence, raised, asOf) && DistinctBy(evidence, DepOf)
    ensures DistinctBy(raised, DepOf)
  {
    hide ValueRaised;
  }

  lemma RaisedSelection(evidence: seq<Record>, raised: seq<Record>, asOf: Instant, s: seq<Record>, e: seq<Dep>,
        t: seq<Record>, e': seq<Dep>)
    requires AllRaised(evidence, raised, asOf) && DistinctBy(evidence, DepOf)
    requires SelectionExact(evidence, asOf, s, e) && SelectionExact(raised, asOf, t, e')
    ensures AllRaised(s, t, asOf)
  {
    hide Highest, DepLe, ValueRaised, SelectionExact;
    RaisedDistinct(evidence, raised, asOf);
    DepsOf(evidence, asOf, s, e);
    DepsOf(raised, asOf, t, e');
    forall d ensures d in Deps(s) <==> d in Deps(t) { RaisedDep(evidence, raised, asOf, d); }
    DistinctCounts(Deps(s), Deps(t));
    DepOrder();
    SortedUnique(Deps(s), Deps(t), DepLe);
    SelectedInside(evidence, asOf, s, e);
    SelectedInside(raised, asOf, t, e');
    assert |s| == |Deps(s)| && |t| == |Deps(t)|;
    forall i | 0 <= i < |s| ensures Raised(s[i], t[i], asOf) {
      assert Deps(s)[i] == s[i].dep && Deps(t)[i] == t[i].dep;
      assert s[i] in evidence && t[i] in raised;
      var m :| 0 <= m < |evidence| && evidence[m] == s[i];
      var n :| 0 <= n < |raised| && raised[n] == t[i];
      assert Raised(evidence[n], raised[n], asOf);
      SameKeySamePlace(evidence, DepOf, m, n);
    }
  }

  lemma SelectedInside(evidence: seq<Record>, asOf: Instant, s: seq<Record>, e: seq<Dep>)
    requires SelectionExact(evidence, asOf, s, e)
    ensures forall i | 0 <= i < |s| :: s[i] in evidence && Highest(evidence, asOf, s[i])
  {
    forall i | 0 <= i < |s| ensures s[i] in evidence && Highest(evidence, asOf, s[i]) { assert s[i] in s; }
  }

  lemma RaisedDep(evidence: seq<Record>, raised: seq<Record>, asOf: Instant, d: Dep)
    requires AllRaised(evidence, raised, asOf)
    ensures (exists r :: Highest(evidence, asOf, r) && r.dep == d) <==>
        (exists r :: Highest(raised, asOf, r) && r.dep == d)
  {
    forall r | Highest(evidence, asOf, r) ensures r in evidence {}
    forall r | Highest(raised, asOf, r) ensures r in raised {}
    hide Highest, ValueRaised;
    if r :| Highest(evidence, asOf, r) && r.dep == d {
      var i :| 0 <= i < |evidence| && evidence[i] == r;
      RaisedHighest(evidence, raised, asOf, i);
      assert Highest(raised, asOf, raised[i]) && raised[i].dep == d;
    }
    if r :| Highest(raised, asOf, r) && r.dep == d {
      var i :| 0 <= i < |raised| && raised[i] == r;
      RaisedHighest(evidence, raised, asOf, i);
      assert Highest(evidence, asOf, evidence[i]) && evidence[i].dep == d;
    }
  }

  lemma SelectedObserved(evidence: seq<Record>, asOf: Instant, s: seq<Record>, e: seq<Dep>, r: Record)
    requires SelectionExact(evidence, asOf, s, e) && r in s
    ensures r.observedAt <= asOf
  {
  }

  /** Raising known factors anywhere in the evidence, or observing later, never lowers the index or its bounds. */
  lemma RaisingNeverLowers(c: Config, evidence: seq<Record>, raised: seq<Record>, asOf: Instant, a: Assessment,
        b: Assessment)
    requires ValidConfig(c) && DistinctBy(evidence, DepOf) && AllRaised(evidence, raised, asOf)
    requires Assessed(c, evidence, asOf, a) && Assessed(c, raised, asOf, b)
    ensures a.index.Some? <==> b.index.Some?
    ensures a.index.Some? ==> NotLower(a, b)
  {
    hide ValidConfig, DistinctBy, AllRaised, SelectionExact, Assess;
    var s, e :| SelectionExact(evidence, asOf, s, e) && a == Assess(c, s, e, asOf);
    var t, e' :| SelectionExact(raised, asOf, t, e') && b == Assess(c, t, e', asOf);
    RaisedSelection(evidence, raised, asOf, s, e, t, e');
    forall r: Record | r in s ensures r.observedAt <= asOf { SelectedObserved(evidence, asOf, s, e, r); }
    RaisedAssessment(c, s, t, e, e', asOf);
  }

  // ----- removing a record -----

  lemma {:induction false} SumDrop(s: seq<real>, i: nat)
    requires i < |s|
    ensures Sum(s) == Sum(Drop(s, i)) + s[i]
  {
    var n := |s| - 1;
    if i < n {
      SumDrop(s[..n], i);
      assert Drop(s, i)[..n - 1] == Drop(s[..n], i);
    } else {
      assert Drop(s, i) == s[..n];
    }
  }

  /** Taking out a value that is at least the mean does not raise the mean, and the other way round. */
  lemma MeanDrop(s: seq<real>, i: nat)
    requires i < |s| && |s| >= 2
    ensures Drop(s, i) != []
    ensures s[i] >= Mean(s) <==> Mean(Drop(s, i)) <= Mean(s)
    ensures s[i] <= Mean(s) <==> Mean(Drop(s, i)) >= Mean(s)
  {
    SumDrop(s, i);
    hide Sum;
    MeanArithmetic(Sum(s), s[i], |s| as real);
  }

  lemma MeanArithmetic(total: real, p: real, n: real)
    requires n >= 2.0
    ensures p >= total / n <==> (total - p) / (n - 1.0) <= total / n
    ensures p <= total / n <==> (total - p) / (n - 1.0) >= total / n
  {
    var m := total / n;
    assert total == m * n;
    var k := (total - p) / (n - 1.0);
    assert k * (n - 1.0) == total - p;
    assert (k - m) * (n - 1.0) == m - p;
  }

  lemma DropAssessment(c: Config, s: seq<Record>, i: nat, e: seq<Dep>, e': seq<Dep>, asOf: Instant)
    requires i < |s| && Assess(c, s, e, asOf).index.Some? && Assess(c, Drop(s, i), e', asOf).index.Some?
    ensures PointsOf(Contributions(c, s, asOf)) != []
    ensures var points, before, after :=
        PointsOf(Contributions(c, s, asOf)), Assess(c, s, e, asOf).index.value,
          Assess(c, Drop(s, i), e', asOf).index.value;
      && (points[i] >= Mean(points) ==> after <= before) && (points[i] <= Mean(points) ==> after >= before)
  {
    hide Round, ContributionOf, Reasons, Mean, PenaltyOf, LowerOf, UpperOf;
    var points, rest := PointsOf(Contributions(c, s, asOf)), PointsOf(Contributions(c, Drop(s, i), asOf));
    assert rest == Drop(points, i) by { DropPoints(c, s, i, asOf); }
    assert rest != [] by { hide Map; }
    hide Map, PointsOf;
    MeanDrop(points, i);
    if points[i] >= Mean(points) { RoundIsSound(Mean(rest), Mean(points)); }
    if points[i] <= Mean(points) { RoundIsSound(Mean(points), Mean(rest)); }
  }

  lemma DropPoints(c: Config, s: seq<Record>, i: nat, asOf: Instant)
    requires i < |s|
    ensures i < |PointsOf(Contributions(c, s, asOf))|
    ensures PointsOf(Contributions(c, Drop(s, i), asOf)) == Drop(PointsOf(Contributions(c, s, asOf)), i)
  {
    hide ContributionOf;
  }

  /** No other version of the record is visible. */
  ghost predicate OnlyVersion(evidence: seq<Record>, asOf: Instant, r: Record) {
    forall x | x in evidence && Visible(x, asOf) && x.dep.record == r.dep.record :: x == r
  }

  lemma RemovalHighest(evidence: seq<Record>, asOf: Instant, r: Record, x: Record)
    requires Highest(evidence, asOf, r) && OnlyVersion(evidence, asOf, r) && DistinctBy(evidence, DepOf)
    ensures Highest(Without(evidence, r.dep), asOf, x) <==> Highest(evidence, asOf, x) && x != r
  {
    hide DistinctBy;
    if x in evidence { SameKeySameElement(evidence, DepOf, x, r); }
  }

  /** The selection without the record is the selection of the evidence without it. */
  lemma RemovalSelection(evidence: seq<Record>, asOf: Instant, s: seq<Record>, e: seq<Dep>, i: nat, t: seq<Record>,
        e': seq<Dep>)
    requires DistinctBy(evidence, DepOf) && SelectionExact(evidence, asOf, s, e) && i < |s|
        && OnlyVersion(evidence, asOf, s[i])
    requires SelectionExact(Without(evidence, s[i].dep), asOf, t, e')
    ensures t == Drop(s, i)
  {
    hide Highest, DepLe, Without, OnlyVersion, DistinctBy;
    var r, rest := s[i], Drop(s, i);
    assert r in s;
    forall x ensures Highest(Without(evidence, r.dep), asOf, x) <==> Highest(evidence, asOf, x) && x != r {
      RemovalHighest(evidence, asOf, r, x);
    }
    DropMembers(s, i);
    DropSorted(s, i);
    DistinctCounts(rest, t);
    DepOrder();
    SelectedInside(evidence, asOf, s, e);
    forall x, y | x in rest && y in rest && ByDep(x, y) && ByDep(y, x) ensures x == y {
      assert x in s && y in s;
      SameKeySameElement(evidence, DepOf, x, y);
    }
    SortedUnique(rest, t, ByDep);
  }

  lemma DropMembers(s: seq<Record>, i: nat)
    requires i < |s| && NoDuplicates(s)
    ensures NoDuplicates(Drop(s, i)) && forall x :: x in Drop(s, i) <==> x in s && x != s[i]
  {
    var t := Drop(s, i);
    forall x ensures x in t <==> x in s && x != s[i] {
      if x in s && x != s[i] {
        var k :| 0 <= k < |s| && s[k] == x;
        assert t[if k < i then k else k - 1] == x;
      }
      if x in t {
        var k :| 0 <= k < |t| && t[k] == x;
        assert s[if k < i then k else k + 1] == x;
      }
    }
    forall m, n | 0 <= m < n < |t| ensures t[m] != t[n] {
      assert t[m] == s[if m < i then m else m + 1] && t[n] == s[if n < i then n else n + 1];
    }
  }

  lemma DropSorted(s: seq<Record>, i: nat)
    requires i < |s| && Sorted(s, ByDep)
    ensures Sorted(Drop(s, i), ByDep)
  {
    hide ByDep;
    var t := Drop(s, i);
    forall m, n | 0 <= m < n < |t| ensures ByDep(t[m], t[n]) {
      assert t[m] == s[if m < i then m else m + 1] && t[n] == s[if n < i then n else n + 1];
    }
  }

  /** Removal sensitivity: removing a record whose points are at least the mean, and of which no
      other version is visible, never raises the index; one whose points are at most the mean
      never lowers it; and the reported change has the sign to match. */
  lemma RemovalMovesTheIndex(c: Config, evidence: seq<Record>, asOf: Instant, s: seq<Record>, e: seq<Dep>, i: nat,
        b: Assessment)
    requires DistinctBy(evidence, DepOf) && SelectionExact(evidence, asOf, s, e) && i < |s|
        && OnlyVersion(evidence, asOf, s[i])
    requires Assess(c, s, e, asOf).index.Some? && Assessed(c, Without(evidence, s[i].dep), asOf, b) && b.index.Some?
    ensures PointsOf(Contributions(c, s, asOf)) != []
    ensures var points, a := PointsOf(Contributions(c, s, asOf)), Assess(c, s, e, asOf);
      && i < |points| && ChangeOf(a.index, b.index).Some?
      && (points[i] >= Mean(points) ==> b.index.value <= a.index.value && ChangeOf(a.index, b.index).value <= 0.0)
      && (points[i] <= Mean(points) ==> b.index.value >= a.index.value && ChangeOf(a.index, b.index).value >= 0.0)
  {
    hide *;
    var t, e' := SelectionBehind(c, Without(evidence, s[i].dep), asOf, b);
    RemovalSelection(evidence, asOf, s, e, i, t, e');
    DropAssessment(c, s, i, e, e', asOf);
    DropPoints(c, s, i, asOf);
    ChangeSign(Assess(c, s, e, asOf).index, b.index);
  }

  lemma SelectionBehind(c: Config, evidence: seq<Record>, asOf: Instant, a: Assessment) returns (s: seq<Record>,
        e: seq<Dep>)
    requires Assessed(c, evidence, asOf, a)
    ensures SelectionExact(evidence, asOf, s, e) && a == Assess(c, s, e, asOf)
  {
    hide Assess, SelectionExact;
    s, e :| SelectionExact(evidence, asOf, s, e) && a == Assess(c, s, e, asOf);
  }

  lemma ChangeSign(before: Option<real>, after: Option<real>)
    requires before.Some? && after.Some?
    ensures ChangeOf(before, after).Some?
    ensures after.value <= before.value ==> ChangeOf(before, after).value <= 0.0
    ensures after.value >= before.value ==> ChangeOf(before, after).value >= 0.0
  {
    hide RoundSigned;
    RoundSignedIsSound(after.value - before.value);
  }
}
