/** Authorized projections (apps/api/service/platform.py, apps/api/contracts/models.py): what may be
    asked, what is answered, and how answers are cached. Digests of canonical JSON are functions
    assumed to be injective. */
module ProjectionModel {
  import opened Basics
  import opened TemporalModel
  import opened TemporalRepository

  type Digest = nat

  /** A projected assertion: the selected fields and their values. */
  type Item = map<string, string>

  datatype Manifest = Manifest(caseId: string, jurisdiction: string, owner: string, purposes: set<string>,
      policyVersion: string, highWater: map<string, string>, recipe: string)

  datatype Authorization = Authorization(actor: string, caseId: string, purpose: string, authorizationId: string,
      handling: set<string>, fields: set<string>, policyVersion: string, attributes: map<string, string>)

  datatype Query = AtPoint(point: PointQuery) | InWindow(window: WindowQuery) {
    function CaseId(): Option<string> {
      match this
      case AtPoint(q) => q.caseId
      case InWindow(w) => w.caseId
    }
  }

  datatype ServiceError =
    | PurposeRequired
    | CaseScopeDenied
    | PurposeDenied
    | PolicyVersionMismatch
    | InvalidRequest
    | ContextMismatch

  datatype KeyContent = KeyContent(manifest: Digest, authorization: Digest, policyVersion: string, query: Query,
      fields: set<string>, highWater: map<string, string>, recipe: string)

  datatype IdContent = IdContent(cacheKey: Digest, revisionIds: seq<string>, assertions: seq<Item>)

  datatype Digester = Digester(manifest: Manifest -> Digest, authorization: Authorization -> Digest,
      key: KeyContent -> Digest, id: IdContent -> Digest)

  ghost predicate Injective(h: Digester) {
    && (forall x, y | h.manifest(x) == h.manifest(y) :: x == y)
    && (forall x, y | h.authorization(x) == h.authorization(y) :: x == y)
    && (forall x, y | h.key(x) == h.key(y) :: x == y)
  }

  datatype Projection = Projection(projectionId: Digest, cacheKey: Digest, caseId: string, authorization: Digest,
      policyVersion: string, query: Query, fields: set<string>, assertions: seq<Item>, revisionIds: seq<string>,
      handling: set<string>, excluded: nat, manifest: Digest)

  const MANDATORY := {"assertion_id", "case_id", "handling_label", "revision_id"}

  /** What a service is made of: the digests, the repository, and `AssertionRevision.to_dict`. */
  datatype Service = Service(h: Digester, revisions: seq<Revision>, toDict: Revision -> Item)

  ghost predicate DictOk(toDict: Revision -> Item) {
    forall r :: ShowsIds(toDict(r), r)
  }

  predicate ShowsIds(d: Item, r: Revision) {
    && MANDATORY <= d.Keys
    && d["revision_id"] == r.id && d["assertion_id"] == r.assertion && d["case_id"] == r.caseId
       && d["handling_label"] == r.handling
  }

  // ----- authorization -----

  function Authorize(m: Manifest, a: Authorization, q: Query): Option<ServiceError> {
    if a.purpose == "" then Some(PurposeRequired)
    else if a.caseId != m.caseId || q.CaseId() != Some(m.caseId) then Some(CaseScopeDenied)
    else if a.purpose !in m.purposes then Some(PurposeDenied)
    else if a.policyVersion != m.policyVersion then Some(PolicyVersionMismatch)
    else None
  }

  function CacheKey(h: Digester, m: Manifest, a: Authorization, q: Query, fields: set<string>): Digest {
    h.key(KeyContent(h.manifest(m), h.authorization(a), a.policyVersion, q, fields, m.highWater, m.recipe))
  }

  // ----- building -----

  function Snapshot(s: Service, q: Query): seq<Revision> {
    match q
    case AtPoint(p) => Reconstruct(s.revisions, p)
    case InWindow(w) => ReconstructWindow(s.revisions, w)
  }

  predicate Allowed(a: Authorization, r: Revision) {
    r.handling in a.handling && r.restrictions <= a.fields
  }

  function Project(toDict: Revision -> Item, fields: set<string>, r: Revision): Item {
    map f | f in toDict(r) && f in fields :: toDict(r)[f]
  }

  function Kept(a: Authorization, s: seq<Revision>): (r: seq<Revision>)
    ensures forall x :: x in r <==> x in s && Allowed(a, x)
    ensures |r| <= |s|
  {
    if s == [] then []
    else
      var rest, last := s[..|s| - 1], s[|s| - 1];
      assert s == rest + [last];
      if Allowed(a, last) then Kept(a, rest) + [last] else Kept(a, rest)
  }

  function Items(toDict: Revision -> Item, fields: set<string>, s: seq<Revision>): (r: seq<Item>)
    ensures |r| == |s| && forall i | 0 <= i < |s| :: r[i] == Project(toDict, fields, s[i])
  {
    if s == [] then [] else Items(toDict, fields, s[..|s| - 1]) + [Project(toDict, fields, s[|s| - 1])]
  }

  function Ids(s: seq<Revision>): (r: seq<string>)
    ensures |r| == |s| && forall i | 0 <= i < |s| :: r[i] == s[i].id
  {
    if s == [] then [] else Ids(s[..|s| - 1]) + [s[|s| - 1].id]
  }

  function IdOf(item: Item): string { if "revision_id" in item then item["revision_id"] else "" }

  predicate ItemById(a: Item, b: Item) { TextLe(IdOf(a), IdOf(b)) }

  /** The projection that an empty cache leads to. */
  function Build(s: Service, m: Manifest, a: Authorization, q: Query, fields: set<string>): Projection {
    var snapshot := Snapshot(s, q);
    var kept := Kept(a, snapshot);
    var items := SortBy(Items(s.toDict, fields, kept), ItemById);
    var ids := SortBy(Ids(kept), TextLe);
    var key := CacheKey(s.h, m, a, q, fields);
    Projection(s.h.id(IdContent(key, ids, items)), key, m.caseId, s.h.authorization(a), a.policyVersion, q, fields,
      items, ids,
               set r | r in kept :: r.handling, |snapshot| - |kept|, s.h.manifest(m))
  }

  datatype Call = Call(manifest: Manifest, authorization: Authorization, query: Query, fields: set<string>)

  type Answer = Result<Projection, ServiceError>

  function Refusal(c: Call): Option<ServiceError> {
    match Authorize(c.manifest, c.authorization, c.query)
    case Some(e) => Some(e)
    case None => if MANDATORY <= c.fields then None else Some(InvalidRequest)
  }

  /** The answer without any cache. */
  function Compute(s: Service, c: Call): Answer {
    match Refusal(c)
    case Some(e) => Err(e)
    case None => Ok(Build(s, c.manifest, c.authorization, c.query, c.fields))
  }

  type Cache = map<Digest, Projection>

  function KeyOf(s: Service, c: Call): Digest { CacheKey(s.h, c.manifest, c.authorization, c.query, c.fields) }

  /** The answer with a cache, and the cache afterwards. */
  function Serve(s: Service, cache: Cache, c: Call): (Cache, Answer) {
    match Refusal(c)
    case Some(e) => (cache, Err(e))
    case None =>
      if KeyOf(s, c) in cache then (cache, Ok(cache[KeyOf(s, c)]))
      else
        var p := Build(s, c.manifest, c.authorization, c.query, c.fields);
        (cache[KeyOf(s, c) := p], Ok(p))
  }

  // ----- who gets an answer -----

  predicate OfOneCase(c: Call) {
    && c.authorization.caseId == c.manifest.caseId
    && match c.query
       case AtPoint(q) => q.caseId == Some(c.manifest.caseId)
       case InWindow(w) => w.caseId == Some(c.manifest.caseId)
  }

  /** The purpose is one of the manifest's, authorization, query and manifest name one case, the policy is the
      manifest's, and nobody asks for less than the identifying fields. */
  predicate MayAsk(c: Call) {
    && c.authorization.purpose != "" && c.authorization.purpose in c.manifest.purposes
    && OfOneCase(c) && c.authorization.policyVersion == c.manifest.policyVersion
    && "assertion_id" in c.fields && "case_id" in c.fields && "handling_label" in c.fields && "revision_id" in c.fields
  }

  /** Why a call is refused, the first reason first. */
  predicate DeniedFor(c: Call, e: ServiceError) {
    match e
    case PurposeRequired => c.authorization.purpose == ""
    case CaseScopeDenied => c.authorization.purpose != "" && !OfOneCase(c)
    case PurposeDenied =>
      c.authorization.purpose != "" && OfOneCase(c) && c.authorization.purpose !in c.manifest.purposes
    case PolicyVersionMismatch =>
      && c.authorization.purpose != "" && OfOneCase(c) && c.authorization.purpose in c.manifest.purposes
      && c.authorization.policyVersion != c.manifest.policyVersion
    case InvalidRequest =>
      && c.authorization.purpose != "" && OfOneCase(c) && c.authorization.purpose in c.manifest.purposes
      && c.authorization.policyVersion == c.manifest.policyVersion
      && !("assertion_id" in c.fields && "case_id" in c.fields && "handling_label" in c.fields
           && "revision_id" in c.fields)
    case ContextMismatch => false
  }

  lemma AnsweredExactly(s: Service, c: Call)
    ensures Compute(s, c).Ok? <==> MayAsk(c)
    ensures forall e :: Compute(s, c) == Err(e) <==> DeniedFor(c, e)
  {
    hide Build;
    forall e ensures Compute(s, c) == Err(e) <==> DeniedFor(c, e) {}
  }

  // ----- the cache is invisible -----

  /** Every entry is what some permitted call with its key would have built. */
  ghost predicate CacheOk(s: Service, cache: Cache) {
    forall k | k in cache :: Backed(s, k, cache[k])
  }

  ghost predicate Backed(s: Service, k: Digest, p: Projection) {
    exists c: Call :: k == KeyOf(s, c) && Compute(s, c) == Ok(p)
  }

  /** Calls with the same key are the same call. */
  lemma KeyDeterminesCall(s: Service, c: Call, d: Call)
    requires Injective(s.h) && KeyOf(s, c) == KeyOf(s, d)
    ensures c == d
  {
  }

  lemma ServeIsTransparent(s: Service, cache: Cache, c: Call)
    requires Injective(s.h) && CacheOk(s, cache)
    ensures Serve(s, cache, c).1 == Compute(s, c) && CacheOk(s, Serve(s, cache, c).0)
  {
    hide KeyOf, Build, Injective, Refusal;
    var k := KeyOf(s, c);
    if k in cache {
      assert Backed(s, k, cache[k]);
      var d: Call :| k == KeyOf(s, d) && Compute(s, d) == Ok(cache[k]);
      KeyDeterminesCall(s, c, d);
    } else if Refusal(c).None? {
      assert Backed(s, k, Build(s, c.manifest, c.authorization, c.query, c.fields));
    }
  }

  function ServeAll(s: Service, cache: Cache, calls: seq<Call>): (Cache, seq<Answer>)
    decreases |calls|
  {
    if calls == [] then (cache, [])
    else
      var (cache', answer) := Serve(s, cache, calls[0]);
      var (final, answers) := ServeAll(s, cache', calls[1..]);
      (final, [answer] + answers)
  }

  /** Over any sequence of calls, points and windows mixed, every answer is the one that a fresh
      service would give. */
  lemma {:induction false} AnswersIgnoreTheCache(s: Service, cache: Cache, calls: seq<Call>, i: nat)
    requires Injective(s.h) && CacheOk(s, cache) && i < |calls|
    ensures |ServeAll(s, cache, calls).1| == |calls| && ServeAll(s, cache, calls).1[i] == Compute(s, calls[i])
    decreases |calls|
  {
    hide Serve, Compute, CacheOk, Injective;
    ServeIsTransparent(s, cache, calls[0]);
    if i > 0 {
      AnswersIgnoreTheCache(s, Serve(s, cache, calls[0]).0, calls[1..], i - 1);
    } else {
      AnswerCount(s, Serve(s, cache, calls[0]).0, calls[1..]);
    }
  }

  lemma {:induction false} AnswerCount(s: Service, cache: Cache, calls: seq<Call>)
    ensures |ServeAll(s, cache, calls).1| == |calls|
    decreases |calls|
  {
    hide Serve;
    if calls != [] { AnswerCount(s, Serve(s, cache, calls[0]).0, calls[1..]); }
  }

  // ----- what a projection contains -----

  predicate Answers(r: Revision, q: Query) {
    match q
    case AtPoint(p) => AnswersPoint(r, p)
    case InWindow(w) => AnswersWindow(r, w)
  }

  lemma SnapshotExact(s: Service, q: Query)
    ensures forall r :: r in Snapshot(s, q) <==> r in s.revisions && Answers(r, q)
  {
    hide Reconstruct, ReconstructWindow, AnswersPoint, AnswersWindow;
    match q
    case AtPoint(p) => ReconstructExact(s.revisions, p, WindowQuery(Interval(0, None), 0, None));
    case InWindow(w) => ReconstructExact(s.revisions, PointQuery(0, 0, None), w);
  }

  /** The revisions shown: in the repository, answering the query, and permitted in full. */
  ghost predicate Shown(s: Service, a: Authorization, q: Query, r: Revision) {
    r in s.revisions && Answers(r, q) && Allowed(a, r)
  }

  lemma KeptExact(s: Service, a: Authorization, q: Query)
    ensures forall r :: r in Kept(a, Snapshot(s, q)) <==> Shown(s, a, q, r)
  {
    hide Snapshot, Answers;
    SnapshotExact(s, q);
  }

  /** The item is the view of a revision that is shown. */
  ghost predicate ViewOfShown(s: Service, c: Call, item: Item) {
    exists r :: Shown(s, c.authorization, c.query, r) && item == Project(s.toDict, c.fields, r)
  }

  ghost predicate IdOfShown(s: Service, c: Call, id: string) {
    exists r :: Shown(s, c.authorization, c.query, r) && r.id == id
  }

  /** A projection shows exactly the permitted answers, each through the requested fields alone;
      it names exactly their labels, and accounts for every answer it left out. */
  lemma ProjectionIsExact(s: Service, c: Call, p: Projection)
    requires Compute(s, c) == Ok(p)
    ensures forall item | item in p.assertions :: ViewOfShown(s, c, item)
    ensures forall r | Shown(s, c.authorization, c.query, r) ::
        Project(s.toDict, c.fields, r) in p.assertions && r.id in p.revisionIds
    ensures forall id | id in p.revisionIds :: IdOfShown(s, c, id)
    ensures forall handling ::
        handling in p.handling <==> exists r :: Shown(s, c.authorization, c.query, r) && r.handling == handling
    ensures p.handling <= c.authorization.handling
    ensures |p.assertions| + p.excluded == |Snapshot(s, c.query)| && |p.revisionIds| == |p.assertions|
  {
    hide *;
    ComputedParts(s, c, p);
    var kept := Kept(c.authorization, Snapshot(s, c.query));
    KeptExact(s, c.authorization, c.query);
    KeptCount(c.authorization, Snapshot(s, c.query));
    ItemsShown(s.toDict, c.fields, kept);
    IdsShown(kept);
    forall item | item in p.assertions ensures ViewOfShown(s, c, item) {
      var r :| r in kept && item == Project(s.toDict, c.fields, r);
      ViewShown(s, c, r);
    }
    forall id | id in p.revisionIds ensures IdOfShown(s, c, id) {
      var r :| r in kept && r.id == id;
      ViewShown(s, c, r);
    }
    forall handling
      ensures handling in p.handling <==> exists r :: Shown(s, c.authorization, c.query, r) && r.handling == handling
    {
    }
    forall r | r in kept
      ensures r.handling in c.authorization.handling
    {
      ShownAllowed(s, c.authorization, c.query, r);
    }
  }

  /** Everything that is shown is of the authorization's case, carries one of its labels, needs no field that
      it withholds, and was known and valid as asked. */
  lemma ShownIsPermitted(s: Service, c: Call, p: Projection, r: Revision)
    requires Compute(s, c) == Ok(p) && Shown(s, c.authorization, c.query, r)
    ensures p.caseId == c.authorization.caseId == r.caseId
    ensures r.handling in c.authorization.handling && forall f | f in r.restrictions :: f in c.authorization.fields
    ensures match c.query
            case AtPoint(q) => AnswersPoint(r, q)
            case InWindow(w) => AnswersWindow(r, w)
  {
    hide Build;
    AnsweredExactly(s, c);
    BuiltCase(s, c);
  }

  lemma BuiltCase(s: Service, c: Call)
    ensures Build(s, c.manifest, c.authorization, c.query, c.fields).caseId == c.manifest.caseId
  {
    hide Snapshot, Kept, Items, Ids, SortBy;
  }

  /** What is permitted and answers is shown: nothing else is withheld. */
  lemma PermittedIsShown(s: Service, c: Call, r: Revision)
    requires MayAsk(c) && r in s.revisions
    requires match c.query
             case AtPoint(q) => AnswersPoint(r, q)
             case InWindow(w) => AnswersWindow(r, w)
    requires r.handling in c.authorization.handling && forall f | f in r.restrictions :: f in c.authorization.fields
    ensures Compute(s, c).Ok? && r.id in Compute(s, c).value.revisionIds
  {
    hide AnswersPoint, AnswersWindow, Build;
    AnsweredExactly(s, c);
    assert Shown(s, c.authorization, c.query, r);
    ProjectionIsExact(s, c, Compute(s, c).value);
  }

  /** A projection carries the context it was asked in, its keys are the digests of that context and of what it shows,
      and both lists are in the order of the revision ids. */
  lemma ProjectionCarries(s: Service, c: Call, p: Projection)
    requires Compute(s, c) == Ok(p)
    ensures p.caseId == c.manifest.caseId && p.policyVersion == c.manifest.policyVersion && p.query == c.query
    ensures p.fields == c.fields && p.manifest == s.h.manifest(c.manifest)
    ensures p.authorization == s.h.authorization(c.authorization)
    ensures p.cacheKey == s.h.key(KeyContent(p.manifest, p.authorization, p.policyVersion, p.query, p.fields,
                                             c.manifest.highWater, c.manifest.recipe))
    ensures p.projectionId == s.h.id(IdContent(p.cacheKey, p.revisionIds, p.assertions))
    ensures forall i, j | 0 <= i < j < |p.revisionIds| :: TextLe(p.revisionIds[i], p.revisionIds[j])
    ensures forall i, j | 0 <= i < j < |p.assertions| :: TextLe(IdOf(p.assertions[i]), IdOf(p.assertions[j]))
  {
    hide SortBy, Items, Ids, Kept, Snapshot, TextLe, IdOf;
    OrdersOfIds();
    var kept := Kept(c.authorization, Snapshot(s, c.query));
    SortIsSorted(Ids(kept), TextLe);
    SortIsSorted(Items(s.toDict, c.fields, kept), ItemById);
    forall i, j | 0 <= i < j < |p.assertions| ensures TextLe(IdOf(p.assertions[i]), IdOf(p.assertions[j])) {
      assert ItemById(p.assertions[i], p.assertions[j]);
    }
  }

  lemma OrdersOfIds()
    ensures TotalOrder(TextLe) && TotalOrder(ItemById)
  {
    hide TextLe, IdOf;
    forall a, b ensures TextLe(a, b) || TextLe(b, a) { TextTotal(a, b); }
    forall a, b, c | TextLe(a, b) && TextLe(b, c) ensures TextLe(a, c) { TextTransitive(a, b, c); }
    forall a, b ensures ItemById(a, b) || ItemById(b, a) { TextTotal(IdOf(a), IdOf(b)); }
    forall a, b, c | ItemById(a, b) && ItemById(b, c) ensures ItemById(a, c) {
      TextTransitive(IdOf(a), IdOf(b), IdOf(c));
    }
  }

  lemma ViewShown(s: Service, c: Call, r: Revision)
    requires Shown(s, c.authorization, c.query, r)
    ensures ViewOfShown(s, c, Project(s.toDict, c.fields, r)) && IdOfShown(s, c, r.id)
  {
  }

  lemma ComputedParts(s: Service, c: Call, p: Projection)
    requires Compute(s, c) == Ok(p)
    ensures var snapshot := Snapshot(s, c.query);
      var kept := Kept(c.authorization, snapshot);
      && p.assertions == SortBy(Items(s.toDict, c.fields, kept), ItemById) && p.revisionIds == SortBy(Ids(kept), TextLe)
      && p.handling == (set r | r in kept :: r.handling) && p.excluded == |snapshot| - |kept|
  {
    hide Snapshot, Kept, SortBy, Items, Ids;
  }

  lemma KeptCount(a: Authorization, snapshot: seq<Revision>)
    ensures |Kept(a, snapshot)| <= |snapshot|
  {
  }

  lemma ItemsShown(toDict: Revision -> Item, fields: set<string>, kept: seq<Revision>)
    ensures var items := SortBy(Items(toDict, fields, kept), ItemById);
      && |items| == |kept|
      && (forall item | item in items :: exists r :: r in kept && item == Project(toDict, fields, r))
      && forall r | r in kept :: Project(toDict, fields, r) in items
  {
    hide SortBy, Items, Project, ItemById;
    var items := Items(toDict, fields, kept);
    SameElements(items, SortBy(items, ItemById));
    forall item | item in items ensures exists r :: r in kept && item == Project(toDict, fields, r) {
      var i :| 0 <= i < |items| && items[i] == item;
      assert kept[i] in kept;
    }
    forall r | r in kept ensures Project(toDict, fields, r) in items {
      var i :| 0 <= i < |kept| && kept[i] == r;
      assert items[i] in items;
    }
  }

  lemma IdsShown(kept: seq<Revision>)
    ensures var ids := SortBy(Ids(kept), TextLe);
      && |ids| == |kept|
         && (forall id | id in ids :: exists r :: r in kept && r.id == id) && forall r | r in kept :: r.id in ids
  {
    hide SortBy, Ids, TextLe;
    var ids := Ids(kept);
    SameElements(ids, SortBy(ids, TextLe));
    forall id | id in ids ensures exists r :: r in kept && r.id == id {
      var i :| 0 <= i < |ids| && ids[i] == id;
      assert kept[i] in kept;
    }
    forall r | r in kept ensures r.id in ids {
      var i :| 0 <= i < |kept| && kept[i] == r;
      assert ids[i] in ids;
    }
  }

  lemma ShownAllowed(s: Service, a: Authorization, q: Query, r: Revision)
    requires Shown(s, a, q, r)
    ensures r.handling in a.handling && r.restrictions <= a.fields
  {
  }

  /** Nothing but the requested fields, and always the mandatory ones with their own values. */
  lemma ItemsAreViews(s: Service, fields: set<string>, r: Revision)
    requires DictOk(s.toDict) && MANDATORY <= fields
    ensures var item := Project(s.toDict, fields, r);
      && item.Keys <= fields && MANDATORY <= item.Keys && ShowsIds(item, r)
      && (forall f :: f in item <==> f in s.toDict(r) && f in fields)
      && forall f | f in item :: item[f] == s.toDict(r)[f]
  {
    assert ShowsIds(s.toDict(r), r);
  }
}
