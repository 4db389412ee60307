/** The in-memory repository (apps/api/temporal/repository.py): the validation of a history, loop by
    loop, and reconstruction of what was believed. */
module TemporalRepository {
  import opened Basics
  import opened TemporalModel

  datatype TemporalError = DuplicateId | CrossesCases | RecordedOverlap | WrongPredecessor

  /** Sorted by assertion, then recorded start, then revision id. */
  predicate InOrder(a: Revision, b: Revision) {
    if a.assertion != b.assertion then TextLe(a.assertion, b.assertion)
    else if a.recorded.start != b.recorded.start then a.recorded.start < b.recorded.start
    else TextLe(a.id, b.id)
  }

  /** The history of one assertion, in the order given. */
  function History(revisions: seq<Revision>, assertion: string): seq<Revision> {
    if revisions == [] then []
    else
      var rest, last := History(revisions[..|revisions| - 1], assertion), revisions[|revisions| - 1];
      if last.assertion == assertion then rest + [last] else rest
  }

  // ----- what a consistent history is -----

  function RevisionId(r: Revision): string { r.id }

  ghost predicate OneCase(s: seq<Revision>) {
    forall i, j | 0 <= i < j < |s| && s[i].assertion == s[j].assertion :: s[i].caseId == s[j].caseId
  }

  /** No two revisions of an assertion are recorded at a common instant. */
  ghost predicate RecordedDisjoint(s: seq<Revision>) {
    forall i, j | 0 <= i < j < |s| && s[i].assertion == s[j].assertion :: !s[i].recorded.Overlaps(s[j].recorded)
  }

  /** A named predecessor is the revision just before. */
  ghost predicate PredecessorsNamed(h: seq<Revision>) {
    forall i | 0 < i < |h| :: Names(h, i)
  }

  ghost predicate Names(h: seq<Revision>, i: int)
    requires 0 < i < |h|
  {
    h[i].supersedes.None? || h[i].supersedes.value == h[i - 1].id
  }

  ghost predicate AllPredecessorsNamed(s: seq<Revision>) {
    forall a :: PredecessorsNamed(History(s, a))
  }

  ghost predicate Consistent(s: seq<Revision>) {
    DistinctBy(s, RevisionId) && OneCase(s) && RecordedDisjoint(s) && AllPredecessorsNamed(s)
  }

  // ----- histories -----

  lemma {:induction false} HistoryExact(s: seq<Revision>, a: string)
    ensures forall r :: r in History(s, a) <==> r in s && r.assertion == a
    ensures |History(s, a)| <= |s|
  {
    if s != [] {
      var rest, last := s[..|s| - 1], s[|s| - 1];
      HistoryExact(rest, a);
      assert s == rest + [last];
    }
  }

  /** Positions in a history correspond to positions in the whole, in order. */
  lemma {:induction false} HistoryPlaces(s: seq<Revision>, a: string, i: nat, j: nat) returns (m: nat, n: nat)
    requires i < j < |History(s, a)|
    ensures m < n < |s| && s[m] == History(s, a)[i] && s[n] == History(s, a)[j] && s[m].assertion == a
        && s[n].assertion == a
  {
    var rest, last := s[..|s| - 1], s[|s| - 1];
    if last.assertion != a || j < |History(rest, a)| {
      m, n := HistoryPlaces(rest, a, i, j);
    } else {
      HistoryExact(rest, a);
      var h := History(rest, a);
      assert h[i] in h;
      m :| 0 <= m < |rest| && rest[m] == h[i];
      n := |s| - 1;
    }
  }

  lemma {:induction false} PlacesHistory(s: seq<Revision>, a: string, m: nat, n: nat) returns (i: nat, j: nat)
    requires m < n < |s| && s[m].assertion == a && s[n].assertion == a
    ensures i < j < |History(s, a)| && History(s, a)[i] == s[m] && History(s, a)[j] == s[n]
  {
    var rest := s[..|s| - 1];
    if n < |rest| {
      i, j := PlacesHistory(rest, a, m, n);
    } else {
      HistoryExact(rest, a);
      assert rest[m] in rest;
      var h := History(rest, a);
      i :| 0 <= i < |h| && h[i] == s[m];
      j := |h|;
    }
  }

  ghost predicate WellFormedAll(s: seq<Revision>) {
    forall r | r in s :: r.WellFormed()
  }

  /** In a history sorted by recorded start, neighbours that do not overlap do not overlap with
      anything further away either. */
  lemma {:induction false} NeighboursSuffice(h: seq<Revision>, i: nat, j: nat)
    requires i < j < |h| && (forall r | r in h :: r.recorded.Valid())
    requires forall k | 0 < k < |h| :: StartsBy(h, k)
    requires forall k | 0 < k < |h| :: Apart(h, k)
    ensures h[i].recorded.end.Some? && h[i].recorded.end.value <= h[j].recorded.start
    ensures !h[i].recorded.Overlaps(h[j].recorded)
    decreases j - i
  {
    assert StartsBy(h, i + 1) && Apart(h, i + 1) && h[i] in h && h[i + 1] in h;
    if i + 1 < j {
      NeighboursSuffice(h, i + 1, j);
      assert h[i + 1].recorded.start <= h[j].recorded.start;
    }
  }

  ghost predicate StartsBy(h: seq<Revision>, k: int)
    requires 0 < k < |h|
  {
    h[k - 1].recorded.start <= h[k].recorded.start
  }

  ghost predicate Apart(h: seq<Revision>, k: int)
    requires 0 < k < |h|
  {
    !h[k - 1].recorded.Overlaps(h[k].recorded)
  }

  lemma HistoryStarts(s: seq<Revision>, a: string)
    requires Sorted(s, InOrder)
    ensures var h := History(s, a); forall k | 0 < k < |h| :: StartsBy(h, k)
  {
    var h := History(s, a);
    forall k | 0 < k < |h| ensures StartsBy(h, k) {
      var m, n := HistoryPlaces(s, a, k - 1, k);
      assert InOrder(s[m], s[n]);
    }
  }

  // ----- what the second loop checks, per assertion -----

  ghost predicate HistoryOk(h: seq<Revision>) {
    && (forall i, j | 0 <= i < j < |h| :: h[i].caseId == h[j].caseId)
    && (forall k | 0 < k < |h| :: Apart(h, k) && Names(h, k))
  }

  ghost predicate HistoriesOk(s: seq<Revision>) {
    forall a :: HistoryOk(History(s, a))
  }

  lemma ConsistentByHistory(s: seq<Revision>)
    requires Sorted(s, InOrder) && WellFormedAll(s) && DistinctBy(s, RevisionId)
    ensures Consistent(s) <==> HistoriesOk(s)
  {
    hide Consistent, HistoryOk, History, Sorted, WellFormedAll, DistinctBy;
    if Consistent(s) {
      forall a ensures HistoryOk(History(s, a)) { HistoryIsOk(s, a); }
    }
    if HistoriesOk(s) { HistoriesSuffice(s); }
  }

  lemma HistoriesSuffice(s: seq<Revision>)
    requires Sorted(s, InOrder) && WellFormedAll(s) && DistinctBy(s, RevisionId) && HistoriesOk(s)
    ensures Consistent(s)
  {
    hide Sorted, WellFormedAll, History;
    forall m, n | 0 <= m < n < |s| && s[m].assertion == s[n].assertion
      ensures s[m].caseId == s[n].caseId && !s[m].recorded.Overlaps(s[n].recorded)
    {
      PairIsOk(s, m, n);
    }
    forall a ensures PredecessorsNamed(History(s, a)) { assert HistoryOk(History(s, a)); }
  }

  lemma HistoryIsOk(s: seq<Revision>, a: string)
    requires Consistent(s)
    ensures HistoryOk(History(s, a))
  {
    var h := History(s, a);
    forall i, j | 0 <= i < j < |h| ensures h[i].caseId == h[j].caseId && !h[i].recorded.Overlaps(h[j].recorded) {
      var m, n := HistoryPlaces(s, a, i, j);
    }
    assert PredecessorsNamed(h);
    forall k | 0 < k < |h| ensures Apart(h, k) && Names(h, k) { assert !h[k - 1].recorded.Overlaps(h[k].recorded); }
  }

  lemma PairIsOk(s: seq<Revision>, m: nat, n: nat)
    requires Sorted(s, InOrder) && WellFormedAll(s) && m < n < |s| && s[m].assertion == s[n].assertion
    requires HistoryOk(History(s, s[m].assertion))
    ensures s[m].caseId == s[n].caseId && !s[m].recorded.Overlaps(s[n].recorded)
  {
    var a := s[m].assertion;
    var i, j := PlacesHistory(s, a, m, n);
    HistoryExact(s, a);
    HistoryStarts(s, a);
    NeighboursSuffice(History(s, a), i, j);
  }

  // ----- _validate -----

  method CheckHistory(h: seq<Revision>) returns (r: Result<bool, TemporalError>)
    requires h != []
    ensures r.Ok? <==> HistoryOk(h)
    ensures r.Ok? ==> r.value
    ensures r.Err? ==> r.error != DuplicateId
  {
    var cases := set x | x in h :: x.caseId;
    if |cases| != 1 {
      ManyCases(h, cases);
      return Err(CrossesCases);
    }
    SingleCase(h, cases);
    for k := 1 to |h|
      invariant forall i | 0 < i < k :: Apart(h, i) && Names(h, i)
    {
      var previous, current := h[k - 1], h[k];
      if previous.recorded.Overlaps(current.recorded) {
        assert !Apart(h, k);
        return Err(RecordedOverlap);
      }
      if current.supersedes.Some? && current.supersedes.value != previous.id {
        assert !Names(h, k);
        return Err(WrongPredecessor);
      }
    }
    return Ok(true);
  }

  lemma SingleCase(h: seq<Revision>, cases: set<string>)
    requires |cases| == 1 && forall x | x in h :: x.caseId in cases
    ensures forall i, j | 0 <= i < j < |h| :: h[i].caseId == h[j].caseId
  {
    var c :| c in cases;
    assert cases - {c} == {} by { assert |cases - {c}| == 0; }
    assert cases == {c};
    forall i | 0 <= i < |h| ensures h[i].caseId == c { assert h[i] in h; }
  }

  lemma ManyCases(h: seq<Revision>, cases: set<string>)
    requires h != [] && cases == (set x | x in h :: x.caseId)
    ensures |cases| != 1 ==> !HistoryOk(h)
  {
    if HistoryOk(h) {
      forall x | x in h ensures x.caseId == h[0].caseId {
        var k :| 0 <= k < |h| && h[k] == x;
      }
      assert h[0] in h;
      assert cases == {h[0].caseId};
    }
  }

  /** The two dictionaries built by the first loop. */
  ghost predicate Grouped(s: seq<Revision>, ids: set<string>, groups: map<string, seq<Revision>>, order: seq<string>) {
    && ids == (set r | r in s :: r.id)
    && (forall a :: a in groups <==> History(s, a) != [])
    && (forall a | a in groups :: groups[a] == History(s, a))
    && (forall a :: a in order <==> a in groups)
  }

  lemma GroupOne(s: seq<Revision>, ids: set<string>, groups: map<string, seq<Revision>>, order: seq<string>,
        r: Revision)
    requires Grouped(s, ids, groups, order)
    ensures var before := if r.assertion in groups then groups[r.assertion] else [];
      Grouped(s + [r], ids + {r.id}, groups[r.assertion := before + [r]], if r.assertion in groups then order
        else order + [r.assertion])
  {
    var t := s + [r];
    assert t[..|t| - 1] == s;
    forall x ensures x in t <==> x in s || x == r {}
  }

  /** `_validate`: adjacent checks on the grouped history accept exactly the consistent ones. */
  method Validate(revisions: seq<Revision>) returns (result: Result<bool, TemporalError>)
    requires Sorted(revisions, InOrder) && WellFormedAll(revisions)
    ensures result.Ok? <==> Consistent(revisions)
    ensures result == Err(DuplicateId) <==> !DistinctBy(revisions, RevisionId)
  {
    hide History, HistoryOk, Sorted, WellFormedAll, Consistent;
    var ids: set<string>, groups: map<string, seq<Revision>>, order: seq<string> := {}, map[], [];
    assert Grouped([], ids, groups, order) by { NothingGrouped(); }
    for i := 0 to |revisions|
      invariant Grouped(revisions[..i], ids, groups, order) && DistinctBy(revisions[..i], RevisionId)
    {
      var r := revisions[i];
      assert revisions[..i + 1] == revisions[..i] + [r];
      if r.id in ids {
        Duplicate(revisions, i, ids);
        return Err(DuplicateId);
      }
      GroupOne(revisions[..i], ids, groups, order, r);
      groups, order := groups[r.assertion := (if r.assertion in groups then groups[r.assertion] else []) + [r]],
                       if r.assertion in groups then order else order + [r.assertion];
      ids := ids + {r.id};
      StillDistinct(revisions[..i], r);
    }
    assert revisions[..|revisions|] == revisions;
    ConsistentByHistory(revisions);
    for i := 0 to |order|
      invariant forall k | 0 <= k < i :: HistoryOk(History(revisions, order[k]))
    {
      assert order[i] in order;
      var checked := CheckHistory(groups[order[i]]);
      if checked.Err? {
        assert !HistoryOk(History(revisions, order[i]));
        return Err(checked.error);
      }
    }
    forall a ensures HistoryOk(History(revisions, a)) {
      EmptyIsOk();
      if History(revisions, a) != [] {
        assert a in order;
        var k :| 0 <= k < |order| && order[k] == a;
      }
    }
    return Ok(true);
  }

  lemma NothingGrouped()
    ensures Grouped([], {}, map[], []) && DistinctBy([], RevisionId)
  {
  }

  lemma EmptyIsOk()
    ensures HistoryOk([])
  {
  }

  lemma Duplicate(s: seq<Revision>, i: nat, ids: set<string>)
    requires i < |s| && ids == (set r | r in s[..i] :: r.id) && s[i].id in ids
    ensures !DistinctBy(s, RevisionId) && !Consistent(s)
  {
    var r :| r in s[..i] && r.id == s[i].id;
    var k :| 0 <= k < i && s[..i][k] == r;
    assert s[k].id == s[i].id;
  }

  lemma StillDistinct(s: seq<Revision>, r: Revision)
    requires DistinctBy(s, RevisionId) && r.id !in (set x | x in s :: x.id)
    ensures DistinctBy(s + [r], RevisionId)
  {
    DistinctAppend(s, RevisionId, r);
    assert KeysOf(s, RevisionId) == (set x | x in s :: x.id);
  }

  /** The constructor: sort, validate, keep. */
  method Load(revisions: seq<Revision>) returns (result: Result<seq<Revision>, TemporalError>)
    requires WellFormedAll(revisions)
    ensures result.Ok? <==> Consistent(SortBy(revisions, InOrder))
    ensures result.Ok? ==> result.value == SortBy(revisions, InOrder)
  {
    hide Consistent, Sorted, SortBy;
    var ordered := SortBy(revisions, InOrder);
    SameElements(revisions, ordered);
    InOrderIsOrder();
    SortIsSorted(revisions, InOrder);
    var valid := Validate(ordered);
    if valid.Err? { return Err(valid.error); }
    return Ok(ordered);
  }

  lemma InOrderIsOrder()
    ensures TotalOrder(InOrder)
  {
    forall a, b ensures InOrder(a, b) || InOrder(b, a) {
      TextTotal(a.assertion, b.assertion);
      TextTotal(a.id, b.id);
    }
    forall a, b, c | InOrder(a, b) && InOrder(b, c) ensures InOrder(a, c) { InOrderTransitive(a, b, c); }
  }

  lemma InOrderTransitive(a: Revision, b: Revision, c: Revision)
    requires InOrder(a, b) && InOrder(b, c)
    ensures InOrder(a, c)
  {
    TextTotal(a.assertion, b.assertion);
    TextTotal(b.assertion, c.assertion);
    if TextLe(a.assertion, b.assertion) && TextLe(b.assertion, c.assertion) {
      TextTransitive(a.assertion, b.assertion, c.assertion);
    }
    if TextLe(a.id, b.id) && TextLe(b.id, c.id) { TextTransitive(a.id, b.id, c.id); }
  }

  /** The order in which revisions are supplied makes no difference. */
  lemma LoadOrderIrrelevant(s: seq<Revision>, t: seq<Revision>)
    requires multiset(s) == multiset(t) && DistinctBy(s, RevisionId)
    ensures SortBy(s, InOrder) == SortBy(t, InOrder)
  {
    InOrderIsOrder();
    forall x, y | x in s && y in s && InOrder(x, y) && InOrder(y, x) ensures x == y {
      TextTotal(x.assertion, y.assertion);
      TextTotal(x.id, y.id);
      SameKeySameElement(s, RevisionId, x, y);
    }
    SortOrderIndependent(s, t, InOrder);
  }

  // ----- reconstruction -----

  predicate InCase(r: Revision, caseId: Option<string>) { caseId.None? || r.caseId == caseId.value }

  predicate AnswersPoint(r: Revision, q: PointQuery) {
    InCase(r, q.caseId) && r.AppliesAt(q.validAt) && r.VisibleAt(q.knownAt)
  }

  predicate AnswersWindow(r: Revision, q: WindowQuery) {
    InCase(r, q.caseId) && r.AppliesDuring(q.window) && r.VisibleAt(q.knownAt)
  }

  function Filter(s: seq<Revision>, keep: Revision -> bool): (r: seq<Revision>)
    ensures forall x :: x in r <==> x in s && keep(x)
  {
    if s == [] then []
    else
      assert s == [s[0]] + s[1..];
      if keep(s[0]) then [s[0]] + Filter(s[1..], keep) else Filter(s[1..], keep)
  }

  predicate ById(a: Revision, b: Revision) { TextLe(a.id, b.id) }

  function Reconstruct(s: seq<Revision>, q: PointQuery): seq<Revision> {
    SortBy(Filter(s, r => AnswersPoint(r, q)), ById)
  }

  function ReconstructWindow(s: seq<Revision>, q: WindowQuery): seq<Revision> {
    SortBy(Filter(s, r => AnswersWindow(r, q)), ById)
  }

  lemma ReconstructExact(s: seq<Revision>, q: PointQuery, w: WindowQuery)
    ensures forall r :: r in Reconstruct(s, q) <==> r in s && AnswersPoint(r, q)
    ensures forall r :: r in ReconstructWindow(s, w) <==> r in s && AnswersWindow(r, w)
  {
    SameElements(Filter(s, r => AnswersPoint(r, q)), Reconstruct(s, q));
    SameElements(Filter(s, r => AnswersWindow(r, w)), ReconstructWindow(s, w));
  }

  /** What it is for a revision to answer, in instants: recorded by then and not yet replaced; valid then, an
      observed event only at its own instant; or valid at some instant of the window, which the later of the
      two starts then is. */
  lemma AnswersExactly(r: Revision, q: PointQuery, w: WindowQuery)
    requires r.WellFormed() && w.window.Valid()
    ensures AnswersPoint(r, q) <==>
      && (q.caseId.Some? ==> q.caseId.value == r.caseId)
      && r.recorded.start <= q.knownAt && (r.recorded.end.Some? ==> q.knownAt < r.recorded.end.value)
      && r.valid.start <= q.validAt && (r.valid.end.Some? ==> q.validAt < r.valid.end.value)
      && (r.kind == ObservedEvent ==> r.eventAt == Some(q.validAt))
    ensures AnswersWindow(r, w) <==>
      && (w.caseId.Some? ==> w.caseId.value == r.caseId)
      && r.recorded.start <= w.knownAt && (r.recorded.end.Some? ==> w.knownAt < r.recorded.end.value)
      && var later := if r.valid.start <= w.window.start then w.window.start else r.valid.start;
         (r.valid.end.Some? ==> later < r.valid.end.value) && (w.window.end.Some? ==> later < w.window.end.value)
  {
  }

  /** Reconstructions list their answers by id, each as often as it is held. */
  lemma ReconstructInOrder(s: seq<Revision>, q: PointQuery, w: WindowQuery)
    ensures forall i, j | 0 <= i < j < |Reconstruct(s, q)| :: TextLe(Reconstruct(s, q)[i].id, Reconstruct(s, q)[j].id)
    ensures forall i, j | 0 <= i < j < |ReconstructWindow(s, w)| ::
        TextLe(ReconstructWindow(s, w)[i].id, ReconstructWindow(s, w)[j].id)
    ensures forall r | r in s && AnswersPoint(r, q) :: multiset(Reconstruct(s, q))[r] == multiset(s)[r]
    ensures forall r | r in s && AnswersWindow(r, w) :: multiset(ReconstructWindow(s, w))[r] == multiset(s)[r]
  {
    hide SortBy, AnswersPoint, AnswersWindow, Filter;
    ByIdIsOrder();
    SortIsSorted(Filter(s, r => AnswersPoint(r, q)), ById);
    SortIsSorted(Filter(s, r => AnswersWindow(r, w)), ById);
    FilterCounts(s, r => AnswersPoint(r, q));
    FilterCounts(s, r => AnswersWindow(r, w));
    assert forall i, j | 0 <= i < j < |Reconstruct(s, q)| :: ById(Reconstruct(s, q)[i], Reconstruct(s, q)[j]);
    assert forall i, j | 0 <= i < j < |ReconstructWindow(s, w)| ::
        ById(ReconstructWindow(s, w)[i], ReconstructWindow(s, w)[j]);
  }

  lemma ByIdIsOrder()
    ensures TotalOrder(ById)
  {
    forall a, b ensures ById(a, b) || ById(b, a) { TextTotal(a.id, b.id); }
    forall a, b, c | ById(a, b) && ById(b, c) ensures ById(a, c) { TextTransitive(a.id, b.id, c.id); }
  }

  lemma {:induction false} FilterCounts(s: seq<Revision>, keep: Revision -> bool)
    ensures forall r | keep(r) :: multiset(Filter(s, keep))[r] == multiset(s)[r]
  {
    if s != [] {
      FilterCounts(s[1..], keep);
      assert s == [s[0]] + s[1..];
    }
  }

  /** One historical belief: at any instant of knowledge at most one revision of an assertion is
      visible, so no reconstruction returns two. */
  lemma OneBelief(s: seq<Revision>, q: PointQuery, w: WindowQuery)
    requires Consistent(s) && WellFormedAll(s)
    ensures forall a, b | a in s && b in s && a.assertion == b.assertion && a.VisibleAt(q.knownAt)
        && b.VisibleAt(q.knownAt) :: a == b
    ensures forall a, b | a in Reconstruct(s, q) && b in Reconstruct(s, q) && a.assertion == b.assertion :: a == b
    ensures forall a, b | a in ReconstructWindow(s, w) && b in ReconstructWindow(s, w) && a.assertion == b.assertion ::
        a == b
  {
    hide Consistent, WellFormedAll, Reconstruct, ReconstructWindow, AnswersPoint, AnswersWindow;
    forall a, b, t: Instant | a in s && b in s && a.assertion == b.assertion && a.VisibleAt(t) && b.VisibleAt(t)
      ensures a == b
    {
      VisibleOnce(s, a, b, t);
    }
    ReconstructExact(s, q, w);
    forall r ensures AnswersPoint(r, q) ==> r.VisibleAt(q.knownAt) { PointVisible(r, q); }
    forall r ensures AnswersWindow(r, w) ==> r.VisibleAt(w.knownAt) { WindowVisible(r, w); }
  }

  lemma PointVisible(r: Revision, q: PointQuery)
    ensures AnswersPoint(r, q) ==> r.VisibleAt(q.knownAt)
  {
  }

  lemma WindowVisible(r: Revision, w: WindowQuery)
    ensures AnswersWindow(r, w) ==> r.VisibleAt(w.knownAt)
  {
  }

  lemma OnlyItself(s: seq<Revision>, i: nat, j: nat)
    requires RecordedDisjoint(s) && i < |s| && j < |s| && s[i].assertion == s[j].assertion
    ensures s[i].recorded.Overlaps(s[j].recorded) || s[j].recorded.Overlaps(s[i].recorded) ==> i == j
  {
    if i < j { assert !s[i].recorded.Overlaps(s[j].recorded); }
    if j < i { assert !s[j].recorded.Overlaps(s[i].recorded); }
  }

  lemma VisibleOnce(s: seq<Revision>, a: Revision, b: Revision, t: Instant)
    requires Consistent(s) && WellFormedAll(s) && a in s && b in s && a.assertion == b.assertion && a.VisibleAt(t)
        && b.VisibleAt(t)
    ensures a == b
  {
    OverlapIsCommonInstant(a.recorded, b.recorded);
    var i :| 0 <= i < |s| && s[i] == a;
    var j :| 0 <= j < |s| && s[j] == b;
    OnlyItself(s, i, j);
  }

  /** Both ways, for revisions in any order: recorded intervals are disjoint exactly when no
      reconstruction, whatever its moment of knowledge, could see two revisions of an assertion. */
  lemma OneBeliefOnlyIf(s: seq<Revision>)
    requires WellFormedAll(s) && DistinctBy(s, RevisionId)
    ensures RecordedDisjoint(s) <==>
      forall a, b, t: Instant | a in s && b in s && a.assertion == b.assertion && a.VisibleAt(t) && b.VisibleAt(t) ::
        a == b
  {
    forall i, j | 0 <= i < j < |s| && s[i].assertion == s[j].assertion
      ensures s[i].recorded.Overlaps(s[j].recorded) <==> exists t: Instant :: s[i].VisibleAt(t) && s[j].VisibleAt(t)
    {
      assert s[i] in s && s[j] in s;
      OverlapIsCommonInstant(s[i].recorded, s[j].recorded);
      if s[i].recorded.Overlaps(s[j].recorded) {
        var t :| s[i].recorded.Contains(t) && s[j].recorded.Contains(t);
        assert s[i].VisibleAt(t) && s[j].VisibleAt(t);
      }
    }
    if RecordedDisjoint(s) {
      forall a, b, t: Instant | a in s && b in s && a.assertion == b.assertion && a.VisibleAt(t) && b.VisibleAt(t)
        ensures a == b
      {
        var i :| 0 <= i < |s| && s[i] == a;
        var j :| 0 <= j < |s| && s[j] == b;
        OverlapIsCommonInstant(a.recorded, b.recorded);
        OnlyItself(s, i, j);
      }
    }
  }

  /** Every answer at a point is among the answers for any window around it. */
  lemma WindowsContainPoints(s: seq<Revision>, q: PointQuery, w: WindowQuery)
    requires WellFormedAll(s) && w.window.Valid() && w.window.Contains(q.validAt) && w.knownAt == q.knownAt
        && w.caseId == q.caseId
    ensures forall r | r in Reconstruct(s, q) :: r in ReconstructWindow(s, w)
  {
    hide Reconstruct, ReconstructWindow;
    ReconstructExact(s, q, w);
    forall r | r in Reconstruct(s, q)
      ensures r in ReconstructWindow(s, w)
    {
      PointWithinWindow(r, q.validAt, w.window);
    }
  }
}
