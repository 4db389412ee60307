/** The projection service (apps/api/service/platform.py, `AnalysisService`): the loop that projects a
    snapshot, the cache as a field, and the comparison of two projections. */
module ProjectionService {
  import opened Basics
  import opened TemporalModel
  import opened TemporalRepository
  import opened ProjectionModel

  class AnalysisService {
    const s: Service
    var cache: Cache

    ghost predicate Valid()
      reads this
    {
      Injective(s.h) && CacheOk(s, cache)
    }

    constructor (service: Service)
      requires Injective(service.h)
      ensures Valid() && s == service && cache == map[]
    {
      s, cache := service, map[];
    }

    /** `project` and `project_window`: the answer is the one that an empty cache would lead to. */
    method Request(c: Call) returns (answer: Answer)
      requires Valid()
      modifies this
      ensures Valid() && answer == Compute(s, c)
      ensures answer.Ok? <==> MayAsk(c)
      ensures answer.Err? ==> DeniedFor(c, answer.error)
      ensures (cache, answer) == Serve(s, old(cache), c)
    {
      hide CacheOk, Injective, Authorize, Build, KeyOf, MayAsk, DeniedFor;
      ServeIsTransparent(s, cache, c);
      AnsweredExactly(s, c);
      var refused := Authorize(c.manifest, c.authorization, c.query);
      if refused.Some? { return Err(refused.value); }
      if !(MANDATORY <= c.fields) { return Err(InvalidRequest); }
      var key := KeyOf(s, c);
      if key in cache { return Ok(cache[key]); }
      var projection := BuildProjection(c);
      cache := cache[key := projection];
      return Ok(projection);
    }

    method BuildProjection(c: Call) returns (p: Projection)
      ensures p == Build(s, c.manifest, c.authorization, c.query, c.fields)
    {
      hide Snapshot, Allowed, Project, SortBy, Kept, Items, Ids;
      KeptNone(c.authorization, s.toDict, c.fields);
      var snapshot := Snapshot(s, c.query);
      var assertions: seq<Item>, ids: seq<string>, labels: set<string>, excluded := [], [], {}, 0;
      ghost var kept: seq<Revision> := [];
      for i := 0 to |snapshot|
        invariant kept == Kept(c.authorization, snapshot[..i])
        invariant assertions == Items(s.toDict, c.fields, kept) && ids == Ids(kept)
        invariant labels == (set r | r in kept :: r.handling) && excluded == i - |kept|
      {
        var revision := snapshot[i];
        KeptNext(c.authorization, snapshot, i);
        if !Allowed(c.authorization, revision) {
          excluded := excluded + 1;
        } else {
          KeptOne(s.toDict, c.fields, kept, revision);
          assertions := assertions + [Project(s.toDict, c.fields, revision)];
          ids := ids + [revision.id];
          labels := labels + {revision.handling};
          kept := kept + [revision];
        }
      }
      assert snapshot[..|snapshot|] == snapshot;
      var items, sortedIds := SortBy(assertions, ItemById), SortBy(ids, TextLe);
      var key := CacheKey(s.h, c.manifest, c.authorization, c.query, c.fields);
      p := Projection(s.h.id(IdContent(key, sortedIds, items)), key, c.manifest.caseId,
        s.h.authorization(c.authorization),
                      c.authorization.policyVersion, c.query, c.fields, items, sortedIds, labels, excluded,
                        s.h.manifest(c.manifest));
    }
  }

  lemma KeptNone(a: Authorization, toDict: Revision -> Item, fields: set<string>)
    ensures Kept(a, []) == [] && Items(toDict, fields, []) == [] && Ids([]) == []
  {
  }

  lemma KeptNext(a: Authorization, snapshot: seq<Revision>, i: nat)
    requires i < |snapshot|
    ensures Kept(a, snapshot[..i + 1])
        == if Allowed(a, snapshot[i]) then Kept(a, snapshot[..i]) + [snapshot[i]] else Kept(a, snapshot[..i])
  {
    assert snapshot[..i + 1][..i] == snapshot[..i];
  }

  lemma KeptOne(toDict: Revision -> Item, fields: set<string>, kept: seq<Revision>, r: Revision)
    ensures Items(toDict, fields, kept + [r]) == Items(toDict, fields, kept) + [Project(toDict, fields, r)]
    ensures Ids(kept + [r]) == Ids(kept) + [r.id]
    ensures (set x | x in kept + [r] :: x.handling) == (set x | x in kept :: x.handling) + {r.handling}
  {
    hide Project;
    var more := kept + [r];
    assert more[..|kept|] == kept;
    forall x ensures x in more <==> x in kept || x == r {}
    var before, after := (set x | x in kept :: x.handling), (set x | x in more :: x.handling);
    forall h ensures h in after <==> h in before + {r.handling} {
      if h == r.handling { assert r in more; }
      if h in before { var x :| x in kept && x.handling == h; assert x in more; }
    }
  }

  // ----- comparison -----

  datatype Change = Change(assertion: string, before: string, after: string)

  datatype Comparison = Comparison(added: set<string>, removed: set<string>, common: set<string>, changed: seq<Change>,
      revisionIds: set<string>, handling: set<string>)

  function AssertionOf(item: Item): string { if "assertion_id" in item then item["assertion_id"] else "" }

  /** The dictionary by assertion; a later item replaces an earlier one. */
  function ByAssertion(items: seq<Item>): map<string, string> {
    if items == [] then map[]
    else ByAssertion(items[..|items| - 1])[AssertionOf(items[|items| - 1]) := IdOf(items[|items| - 1])]
  }

  /** The changes, in the order of the assertions: those with a revision on both sides, not the same. */
  ghost predicate ChangesExact(before: map<string, string>, after: map<string, string>, changed: seq<Change>) {
    && (forall a, x, y ::
       Change(a, x, y) in changed <==> a in before && a in after && before[a] == x && after[a] == y && x != y)
    && forall i, j | 0 <= i < j < |changed| ::
       changed[i].assertion != changed[j].assertion && TextLe(changed[i].assertion, changed[j].assertion)
  }

  lemma {:induction false} ByAssertionExact(items: seq<Item>)
    ensures forall a | a in ByAssertion(items) ::
        exists i :: 0 <= i < |items| && AssertionOf(items[i]) == a && IdOf(items[i]) == ByAssertion(items)[a]
    ensures forall i | 0 <= i < |items| :: AssertionOf(items[i]) in ByAssertion(items)
  {
    hide AssertionOf, IdOf;
    if items != [] {
      var rest := items[..|items| - 1];
      ByAssertionExact(rest);
      forall a | a in ByAssertion(items)
        ensures exists i :: 0 <= i < |items| && AssertionOf(items[i]) == a && IdOf(items[i]) == ByAssertion(items)[a]
      {
        if a != AssertionOf(items[|items| - 1]) {
          var i :| 0 <= i < |rest| && AssertionOf(rest[i]) == a && IdOf(rest[i]) == ByAssertion(rest)[a];
          assert items[i] == rest[i];
        }
      }
      forall i | 0 <= i < |items| ensures AssertionOf(items[i]) in ByAssertion(items) {
        if i < |rest| { assert items[i] == rest[i]; }
      }
    }
  }

  /** The keys of a dictionary, in some order. */
  method Listed(keys: set<string>) returns (list: seq<string>)
    ensures NoDuplicates(list) && forall k :: k in list <==> k in keys
  {
    list := [];
    var rest := keys;
    while rest != {}
      invariant rest <= keys && NoDuplicates(list) && forall k :: k in list <==> k in keys && k !in rest
      decreases rest
    {
      var k :| k in rest;
      rest, list := rest - {k}, list + [k];
    }
  }

  lemma TextIsOrder()
    ensures TotalOrder(TextLe) && Antisymmetric(TextLe)
  {
    forall a, b ensures TextLe(a, b) || TextLe(b, a) { TextTotal(a, b); }
    forall a, b, c | TextLe(a, b) && TextLe(b, c) ensures TextLe(a, c) { TextTransitive(a, b, c); }
    forall a, b | TextLe(a, b) && TextLe(b, a) ensures a == b { TextTotal(a, b); }
  }

  method SortedKeys(keys: set<string>) returns (list: seq<string>)
    ensures NoDuplicates(list) && Sorted(list, TextLe) && forall k :: k in list <==> k in keys
  {
    hide SortBy, TextLe;
    var listed := Listed(keys);
    list := SortBy(listed, TextLe);
    TextIsOrder();
    SortIsSorted(listed, TextLe);
    SortNoDuplicates(listed, TextLe);
    SameElements(listed, list);
  }

  /** `compare` */
  method Compare(before: Projection, after: Projection) returns (answer: Result<Comparison, ServiceError>)
    ensures answer.Err? <==> before.caseId != after.caseId || before.authorization != after.authorization
                             || before.policyVersion != after.policyVersion
    ensures answer.Err? ==> answer.error == ContextMismatch
    ensures answer.Ok? ==>
      var ids, ids' := (set id | id in before.revisionIds), (set id | id in after.revisionIds);
      && answer.value.added == ids' - ids && answer.value.removed == ids - ids' && answer.value.common == ids * ids'
      && answer.value.revisionIds == ids + ids' && answer.value.handling == before.handling + after.handling
    ensures answer.Ok? ==>
        ChangesExact(ByAssertion(before.assertions), ByAssertion(after.assertions), answer.value.changed)
  {
    hide TextLe, ByAssertion;
    if before.caseId != after.caseId || before.authorization != after.authorization
      || before.policyVersion != after.policyVersion {
      return Err(ContextMismatch);
    }
    var left, right := ByAssertion(before.assertions), ByAssertion(after.assertions);
    var keys := SortedKeys(left.Keys * right.Keys);
    var changed: seq<Change> := [];
    for i := 0 to |keys|
      invariant forall a, x, y ::
          Change(a, x, y) in changed <==>
            a in keys[..i] && a in left && a in right && left[a] == x && right[a] == y && x != y
      invariant forall n, m | 0 <= n < m < |changed| ::
          changed[n].assertion != changed[m].assertion && TextLe(changed[n].assertion, changed[m].assertion)
    {
      var a := keys[i];
      assert a in keys;
      assert keys[..i + 1] == keys[..i] + [a];
      forall n | 0 <= n < |changed| ensures changed[n].assertion != a && TextLe(changed[n].assertion, a) {
        assert Change(changed[n].assertion, changed[n].before, changed[n].after) in changed;
        var k :| 0 <= k < i && keys[k] == changed[n].assertion;
      }
      if left[a] != right[a] {
        changed := changed + [Change(a, left[a], right[a])];
      }
    }
    assert keys[..|keys|] == keys;
    var ids, ids' := (set id | id in before.revisionIds), (set id | id in after.revisionIds);
    return Ok(Comparison(ids' - ids, ids - ids', ids * ids', changed, ids + ids', before.handling + after.handling));
  }

  // ----- what a comparison means -----

  /** The repository holds one consistent history. */
  ghost predicate OneHistory(s: Service) {
    Consistent(s.revisions) && WellFormedAll(s.revisions) && DictOk(s.toDict)
  }

  lemma OnePerAssertion(s: Service, a: Authorization, q: Query, r: Revision, r': Revision)
    requires OneHistory(s) && Shown(s, a, q, r) && Shown(s, a, q, r') && r.assertion == r'.assertion
    ensures r == r'
  {
    hide Consistent, WellFormedAll, AnswersPoint, AnswersWindow;
    var t := match q case AtPoint(p) => p.knownAt case InWindow(w) => w.knownAt;
    match q {
      case AtPoint(p) => PointVisible(r, p); PointVisible(r', p);
      case InWindow(w) => WindowVisible(r, w); WindowVisible(r', w);
    }
    VisibleOnce(s.revisions, r, r', t);
  }

  lemma SameIdSameRevision(s: Service, r: Revision, r': Revision)
    requires OneHistory(s) && r in s.revisions && r' in s.revisions && r.id == r'.id
    ensures r == r'
  {
    hide WellFormedAll, OneCase, RecordedDisjoint, AllPredecessorsNamed;
    var i :| 0 <= i < |s.revisions| && s.revisions[i] == r;
    var j :| 0 <= j < |s.revisions| && s.revisions[j] == r';
    SameKeySamePlace(s.revisions, RevisionId, i, j);
  }

  lemma ViewIds(s: Service, fields: set<string>, r: Revision)
    requires DictOk(s.toDict) && MANDATORY <= fields
    ensures AssertionOf(Project(s.toDict, fields, r)) == r.assertion && IdOf(Project(s.toDict, fields, r)) == r.id
  {
    hide DictOk, Project;
    ItemsAreViews(s, fields, r);
  }

  /** The dictionary by assertion holds the one revision that is shown of each. */
  lemma DictionaryExact(s: Service, c: Call, p: Projection)
    requires OneHistory(s) && Compute(s, c) == Ok(p)
    ensures forall r | Shown(s, c.authorization, c.query, r) ::
        r.assertion in ByAssertion(p.assertions) && ByAssertion(p.assertions)[r.assertion] == r.id
    ensures forall a | a in ByAssertion(p.assertions) :: DictionaryEntry(s, c, a, ByAssertion(p.assertions)[a])
  {
    hide *;
    ByAssertionExact(p.assertions);
    ProjectionIsExact(s, c, p);
    PermittedCall(s, c, p);
    forall a | a in ByAssertion(p.assertions) ensures DictionaryEntry(s, c, a, ByAssertion(p.assertions)[a]) {
      var i :| 0 <= i < |p.assertions| && AssertionOf(p.assertions[i]) == a
        && IdOf(p.assertions[i]) == ByAssertion(p.assertions)[a];
      assert p.assertions[i] in p.assertions;
      ViewEntry(s, c, p.assertions[i]);
    }
    forall r | Shown(s, c.authorization, c.query, r)
      ensures r.assertion in ByAssertion(p.assertions) && ByAssertion(p.assertions)[r.assertion] == r.id
    {
      ViewIdsOf(s, c.fields, r);
      var i :| 0 <= i < |p.assertions| && p.assertions[i] == Project(s.toDict, c.fields, r);
      EntryIs(s, c, r, ByAssertion(p.assertions)[r.assertion]);
    }
  }

  ghost predicate DictionaryEntry(s: Service, c: Call, a: string, id: string) {
    exists r :: Shown(s, c.authorization, c.query, r) && r.assertion == a && r.id == id
  }

  lemma ViewIdsOf(s: Service, fields: set<string>, r: Revision)
    requires OneHistory(s) && MANDATORY <= fields
    ensures AssertionOf(Project(s.toDict, fields, r)) == r.assertion && IdOf(Project(s.toDict, fields, r)) == r.id
  {
    ViewIds(s, fields, r);
  }

  lemma PermittedCall(s: Service, c: Call, p: Projection)
    requires Compute(s, c) == Ok(p)
    ensures MANDATORY <= c.fields
  {
    hide Build, Authorize;
  }

  lemma ViewEntry(s: Service, c: Call, item: Item)
    requires OneHistory(s) && MANDATORY <= c.fields && ViewOfShown(s, c, item)
    ensures DictionaryEntry(s, c, AssertionOf(item), IdOf(item))
  {
    hide OneHistory, Shown, Project, AssertionOf, IdOf;
    var r :| Shown(s, c.authorization, c.query, r) && item == Project(s.toDict, c.fields, r);
    ViewIdsOf(s, c.fields, r);
  }

  lemma EntryIs(s: Service, c: Call, r: Revision, id: string)
    requires OneHistory(s) && Shown(s, c.authorization, c.query, r) && DictionaryEntry(s, c, r.assertion, id)
    ensures id == r.id
  {
    hide OneHistory, Shown;
    var r' :| Shown(s, c.authorization, c.query, r') && r'.assertion == r.assertion && r'.id == id;
    OnePerAssertion(s, c.authorization, c.query, r, r');
  }

  /** The revisions shown before and after, of the same assertion. */
  ghost predicate Replaced(s: Service, c: Call, d: Call, x: Revision, y: Revision) {
    Shown(s, c.authorization, c.query, x) && Shown(s, d.authorization, d.query, y) && x.assertion == y.assertion
      && x.id != y.id
  }

  /** Over a consistent history the changed assertions are exactly those of which one revision
      was shown before and another after; each contributes one removed revision and one added. */
  lemma ChangesAreReplacements(s: Service, c: Call, d: Call, before: Projection, after: Projection,
        changed: seq<Change>)
    requires OneHistory(s) && Compute(s, c) == Ok(before) && Compute(s, d) == Ok(after)
    requires ChangesExact(ByAssertion(before.assertions), ByAssertion(after.assertions), changed)
    ensures forall x, y | Replaced(s, c, d, x, y) :: Change(x.assertion, x.id, y.id) in changed
    ensures forall ch | ch in changed :: exists x, y :: Replaced(s, c, d, x, y) && ch == Change(x.assertion, x.id, y.id)
    ensures forall ch | ch in changed ::
      ch.before in before.revisionIds && ch.before !in after.revisionIds && ch.after in after.revisionIds
        && ch.after !in before.revisionIds
  {
    hide *;
    DictionaryExact(s, c, before);
    DictionaryExact(s, d, after);
    var left, right := ByAssertion(before.assertions), ByAssertion(after.assertions);
    forall x, y | Replaced(s, c, d, x, y) ensures Change(x.assertion, x.id, y.id) in changed {
      ReplacedParts(s, c, d, x, y);
      ChangeListed(left, right, changed, Change(x.assertion, x.id, y.id));
    }
    forall ch | ch in changed
      ensures exists x, y :: Replaced(s, c, d, x, y) && ch == Change(x.assertion, x.id, y.id)
      ensures ch.before in before.revisionIds && ch.before !in after.revisionIds && ch.after in after.revisionIds
          && ch.after !in before.revisionIds
    {
      ChangeListed(left, right, changed, ch);
      var x, y := ChangedPair(s, c, d, ch);
      OnlyOneSide(s, c, d, before, after, x, y);
    }
  }

  lemma ReplacedParts(s: Service, c: Call, d: Call, x: Revision, y: Revision)
    requires Replaced(s, c, d, x, y)
    ensures Shown(s, c.authorization, c.query, x) && Shown(s, d.authorization, d.query, y)
        && x.assertion == y.assertion && x.id != y.id
    ensures x in s.revisions && y in s.revisions
  {
  }

  lemma ChangeListed(left: map<string, string>, right: map<string, string>, changed: seq<Change>, ch: Change)
    requires ChangesExact(left, right, changed)
    ensures ch in changed <==> (ch.assertion in left && ch.assertion in right && left[ch.assertion] == ch.before
                                && right[ch.assertion] == ch.after && ch.before != ch.after)
  {
    assert ch == Change(ch.assertion, ch.before, ch.after);
  }

  lemma ChangedPair(s: Service, c: Call, d: Call, ch: Change) returns (x: Revision, y: Revision)
    requires DictionaryEntry(s, c, ch.assertion, ch.before) && DictionaryEntry(s, d, ch.assertion, ch.after)
        && ch.before != ch.after
    ensures Replaced(s, c, d, x, y) && ch == Change(x.assertion, x.id, y.id)
  {
    hide Shown;
    x :| Shown(s, c.authorization, c.query, x) && x.assertion == ch.assertion && x.id == ch.before;
    y :| Shown(s, d.authorization, d.query, y) && y.assertion == ch.assertion && y.id == ch.after;
  }

  lemma OnlyOneSide(s: Service, c: Call, d: Call, before: Projection, after: Projection, x: Revision, y: Revision)
    requires OneHistory(s) && Compute(s, c) == Ok(before) && Compute(s, d) == Ok(after) && Replaced(s, c, d, x, y)
    ensures x.id in before.revisionIds && x.id !in after.revisionIds && y.id in after.revisionIds
        && y.id !in before.revisionIds
  {
    hide *;
    ReplacedParts(s, c, d, x, y);
    ProjectionIsExact(s, c, before);
    ProjectionIsExact(s, d, after);
    NotShown(s, d, y, x);
    NotShown(s, c, x, y);
  }

  /** While one revision of an assertion is shown, the id of another is not. */
  lemma NotShown(s: Service, c: Call, x: Revision, y: Revision)
    requires OneHistory(s) && Shown(s, c.authorization, c.query, x) && y in s.revisions && x.assertion == y.assertion
        && x.id != y.id
    ensures !IdOfShown(s, c, y.id)
  {
    hide OneHistory;
    if IdOfShown(s, c, y.id) {
      var r :| Shown(s, c.authorization, c.query, r) && r.id == y.id;
      SameIdSameRevision(s, r, y);
      OnePerAssertion(s, c.authorization, c.query, x, r);
    }
  }
}
