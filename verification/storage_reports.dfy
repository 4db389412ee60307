/** Reconstructable reports (apps/api/storage/filesystem.py, `put_report` and `get_report`): what
    the operations do to the stored objects and report manifests, and that a report, once
    stored, is reconstructed for as long as the store only grows. */
module StorageReports {
  import opened Basics
  import opened StorageMetadata
  import opened StorageModel

  const REPORT_CONTRACT := "ReportManifestV1"

  datatype Dependency = Dependency(name: string, ref: Ref, role: string)

  /** The part of a report manifest that its digest is computed from. */
  datatype Identity = Identity(contract: string, key: string, main: Ref, dependencies: seq<Dependency>,
      metadata: Metadata)

  datatype ReportFile = Damaged | Recorded(identity: Identity, createdAt: Time, digest: Digest)

  type Reports = map<(string, Digest), ReportFile>

  datatype ReportManifest = ReportManifest(identity: Identity, createdAt: Time, digest: Digest)

  datatype Report = Report(manifest: ReportManifest, content: Bytes, dependencies: map<string, Bytes>)

  datatype Store = Store(objects: Objects, reports: Reports)

  datatype Hashes = Hashes(objects: Hashing, report: Identity -> Digest)

  ghost predicate HashesInjective(h: Hashes) {
    Injective(h.objects) && forall x, y | h.report(x) == h.report(y) :: x == y
  }

  datatype ReportRequest = ReportRequest(key: string, content: Bytes, dependencies: seq<Dependency>,
      expected: Option<Digest>, media: string, metadata: Metadata)

  predicate ByName(a: Dependency, b: Dependency) { TextLe(a.name, b.name) }

  function NameOf(d: Dependency): string { d.name }

  /** `len(names) == len(set(names))` */
  predicate NamesUnique(s: seq<Dependency>) { |s| == |KeysOf(s, NameOf)| }

  /** What the constructors of references and dependencies insist on. */
  predicate WellFormed(d: Dependency) { d.name != "" && d.role != "" && d.ref.media != "" }

  predicate Constructible(i: Identity) {
    i.main.media != "" && (forall d | d in i.dependencies :: WellFormed(d)) && NamesUnique(i.dependencies)
  }

  // ----- reading -----

  function ReadReport(h: Hashes, reports: Reports, key: string, digest: Digest): Result<ReportManifest, StorageError> {
    if (key, digest) !in reports || reports[(key, digest)].Damaged? then Err(IntegrityError)
    else
      var f := reports[(key, digest)];
      if f.identity.contract != REPORT_CONTRACT || f.identity.key != key || f.digest != digest
        || h.report(f.identity) != digest
      then Err(IntegrityError)
      else if !Constructible(f.identity) then Err(IntegrityError)
      else Ok(ReportManifest(f.identity, f.createdAt, digest))
  }

  /** The stored object has the reference that it is known by. */
  function Fetch(h: Hashing, objects: Objects, ref: Ref): Result<Bytes, StorageError> {
    match Get(h, objects, ref.digest)
    case Err(e) => Err(e)
    case Ok(content) =>
      if Inspect(h, objects, ref.digest).Ok? && Inspect(h, objects, ref.digest).value.ref != ref
        then Err(IntegrityError) else Ok(content)
  }

  function FetchAll(h: Hashing, objects: Objects, s: seq<Dependency>): Result<map<string, Bytes>, StorageError> {
    if s == [] then Ok(map[])
    else
      match FetchAll(h, objects, s[..|s| - 1])
      case Err(e) => Err(e)
      case Ok(sofar) =>
        match Fetch(h, objects, s[|s| - 1].ref)
        case Err(e) => Err(e)
        case Ok(content) => Ok(sofar[s[|s| - 1].name := content])
  }

  function GetReport(h: Hashes, store: Store, key: string, digest: Digest): Result<Report, StorageError> {
    match ReadReport(h, store.reports, key, digest)
    case Err(e) => Err(e)
    case Ok(m) =>
      match Fetch(h.objects, store.objects, m.identity.main)
      case Err(e) => Err(e)
      case Ok(content) =>
        match FetchAll(h.objects, store.objects, m.identity.dependencies)
        case Err(e) => Err(e)
        case Ok(dependencies) => Ok(Report(m, content, dependencies))
  }

  // ----- writing -----

  function ObjectRequest(r: ReportRequest): Request { Request(r.content, r.expected, r.media, map[]) }

  function IdentityOf(h: Hashes, r: ReportRequest): Identity {
    Identity(REPORT_CONTRACT, r.key, Ref(h.objects.bytes(r.content), |r.content|, r.media),
      SortBy(r.dependencies, ByName),
             Parse(r.metadata))
  }

  /** `put_report`, with the two readings of the clock. A report that fails late has already
      stored its object. */
  function PutReport(h: Hashes, store: Store, r: ReportRequest, now: Time, later: Time): (Store,
        Result<ReportManifest, StorageError>) {
    if !NamesUnique(r.dependencies) then (store, Err(InvalidRequest))
    else
      match FetchAll(h.objects, store.objects, r.dependencies)
      case Err(e) => (store, Err(e))
      case Ok(_) =>
        var (objects, put) := Put(h.objects, store.objects, ObjectRequest(r), now);
        match put
        case Err(e) => (store.(objects := objects), Err(e))
        case Ok(stored) =>
          if !Serializable(r.metadata) then (store.(objects := objects), Err(InvalidRequest)) else
          var identity := Identity(REPORT_CONTRACT, r.key, stored.ref, SortBy(r.dependencies, ByName), r.metadata);
          var recorded := identity.(metadata := Parse(r.metadata));
          var digest := h.report(recorded);
          var reports := if (r.key, digest) in store.reports then store.reports
                         else store.reports[(r.key, digest) := Recorded(recorded, later, digest)];
          match ReadReport(h, reports, r.key, digest)
          case Err(e) => (Store(objects, reports), Err(e))
          case Ok(existing) =>
            if (r.key, digest) in store.reports && existing.identity != identity
              then (Store(objects, reports), Err(ImmutableConflict))
            else (Store(objects, reports), Ok(existing))
  }

  // ----- growth -----

  ghost predicate StoreGrows(store: Store, store': Store) {
    && Grows(store.objects, store'.objects)
    && forall k | k in store.reports :: k in store'.reports && store'.reports[k] == store.reports[k]
  }

  lemma FetchGrows(h: Hashing, objects: Objects, objects': Objects, ref: Ref)
    requires Grows(objects, objects') && Fetch(h, objects, ref).Ok?
    ensures Fetch(h, objects', ref) == Fetch(h, objects, ref)
  {
  }

  lemma {:induction false} FetchAllGrows(h: Hashing, objects: Objects, objects': Objects, s: seq<Dependency>)
    requires Grows(objects, objects') && FetchAll(h, objects, s).Ok?
    ensures FetchAll(h, objects', s) == FetchAll(h, objects, s)
  {
    hide Fetch, Grows;
    if s != [] {
      FetchAllGrows(h, objects, objects', s[..|s| - 1]);
      FetchGrows(h, objects, objects', s[|s| - 1].ref);
    }
  }

  /** What was fetched is exactly the content of every dependency, under its name. */
  ghost predicate Fetched(h: Hashing, objects: Objects, s: seq<Dependency>, m: map<string, Bytes>) {
    && (forall d | d in s :: d.name in m && Fetch(h, objects, d.ref) == Ok(m[d.name]))
    && (forall name | name in m :: exists d :: d in s && d.name == name)
  }

  lemma {:induction false} FetchAllExact(h: Hashing, objects: Objects, s: seq<Dependency>)
    requires DistinctBy(s, NameOf)
    ensures FetchAll(h, objects, s).Ok? <==> (forall d | d in s :: Fetch(h, objects, d.ref).Ok?)
    ensures FetchAll(h, objects, s).Ok? ==> Fetched(h, objects, s, FetchAll(h, objects, s).value)
  {
    hide Fetch, Fetched;
    if s == [] {
      assert Fetched(h, objects, [], map[]) by { FetchedNone(h, objects); }
    } else {
      var rest, last := s[..|s| - 1], s[|s| - 1];
      assert s == rest + [last];
      forall i | 0 <= i < |rest| ensures rest[i].name != last.name { SameKeySamePlace(s, NameOf, i, |s| - 1); }
      FetchAllExact(h, objects, rest);
      assert last in s;
      if FetchAll(h, objects, s).Ok? {
        FetchedMore(h, objects, rest, last, FetchAll(h, objects, rest).value);
      }
    }
  }

  lemma FetchedNone(h: Hashing, objects: Objects)
    ensures Fetched(h, objects, [], map[])
  {
  }

  lemma FetchedMore(h: Hashing, objects: Objects, rest: seq<Dependency>, last: Dependency, m: map<string, Bytes>)
    requires Fetched(h, objects, rest, m) && Fetch(h, objects, last.ref).Ok?
        && forall i | 0 <= i < |rest| :: rest[i].name != last.name
    ensures Fetched(h, objects, rest + [last], m[last.name := Fetch(h, objects, last.ref).value])
  {
    hide Fetch;
    var s, m' := rest + [last], m[last.name := Fetch(h, objects, last.ref).value];
    assert s[|rest|] == last;
    forall d | d in s ensures d in rest || d == last {}
    forall name | name in m' ensures exists d :: d in s && d.name == name {
      if name != last.name { var d :| d in rest && d.name == name; assert d in s; }
    }
  }

  lemma FetchedSame(h: Hashing, objects: Objects, s: seq<Dependency>, t: seq<Dependency>, m: map<string, Bytes>,
        n: map<string, Bytes>)
    requires Fetched(h, objects, s, m) && Fetched(h, objects, t, n) && forall d :: d in s <==> d in t
    ensures m == n
  {
    hide Fetch;
    forall name | name in m ensures name in n && n[name] == m[name] {
      var d :| d in s && d.name == name;
      assert d in t;
    }
    forall name | name in n ensures name in m {
      var d :| d in t && d.name == name;
      assert d in s;
    }
  }

  /** Fetching in another order makes no difference. */
  lemma FetchOrder(h: Hashing, objects: Objects, s: seq<Dependency>, t: seq<Dependency>)
    requires multiset(s) == multiset(t) && DistinctBy(s, NameOf) && DistinctBy(t, NameOf) && FetchAll(h, objects, s).Ok?
    ensures FetchAll(h, objects, t) == FetchAll(h, objects, s)
  {
    hide FetchAll, Fetched, Fetch;
    SameElements(s, t);
    FetchAllExact(h, objects, s);
    FetchAllExact(h, objects, t);
    FetchedSame(h, objects, s, t, FetchAll(h, objects, s).value, FetchAll(h, objects, t).value);
  }

  lemma ByNameIsOrder(s: seq<Dependency>)
    requires DistinctBy(s, NameOf)
    ensures TotalOrder(ByName) && Strict(s, ByName)
  {
    forall a, b ensures ByName(a, b) || ByName(b, a) { TextTotal(a.name, b.name); }
    forall a, b, c | ByName(a, b) && ByName(b, c) ensures ByName(a, c) { TextTransitive(a.name, b.name, c.name); }
    forall x, y | x in s && y in s && ByName(x, y) && ByName(y, x) ensures x == y {
      TextTotal(x.name, y.name);
      SameKeySameElement(s, NameOf, x, y);
    }
  }

  // ----- the promises -----

  /** What a successful `put_report` has done, in any store. */
  lemma PutReportOutcome(h: Hashes, store: Store, r: ReportRequest, now: Time, later: Time)
    requires HashesInjective(h) && Healthy(h.objects, store.objects) && PutReport(h, store, r, now, later).1.Ok?
    ensures var (store', answer) := PutReport(h, store, r, now, later);
      && DistinctBy(r.dependencies, NameOf) && FetchAll(h.objects, store.objects, r.dependencies).Ok?
      && store'.objects == Put(h.objects, store.objects, ObjectRequest(r), now).0
      && answer.value.identity == IdentityOf(h, r) && answer.value.digest == h.report(IdentityOf(h, r))
      && ReadReport(h, store'.reports, r.key, answer.value.digest) == answer
      && Fetch(h.objects, store'.objects, answer.value.identity.main) == Ok(r.content)
      && (answer.value.createdAt == later || (r.key, answer.value.digest) in store.reports)
  {
    hide FetchAll, SortBy, Put, Constructible, DistinctBy;
    UniqueKeys(r.dependencies, NameOf);
    PutAnswers(h.objects, store.objects, ObjectRequest(r), now);
    PutPublished(h.objects, store.objects, ObjectRequest(r), now);
  }

  lemma PutPublished(h: Hashing, objects: Objects, r: Request, now: Time)
    requires Injective(h) && Healthy(h, objects) && Put(h, objects, r, now).1.Ok?
    ensures var (objects', answer) := Put(h, objects, r, now);
      && answer.value.ref == Ref(h.bytes(r.content), |r.content|, r.media)
      && Inspect(h, objects', h.bytes(r.content)) == answer && Get(h, objects', h.bytes(r.content)) == Ok(r.content)
  {
    PutAnswers(h, objects, r, now);
    assert Put(h, objects, r, now).0 == Publish(h, objects, r, now);
    ContentIsAddressed(h, Publish(h, objects, r, now), Publish(h, objects, r, now), h.bytes(r.content));
  }

  lemma PutReportGrows(h: Hashes, store: Store, r: ReportRequest, now: Time, later: Time)
    requires Healthy(h.objects, store.objects)
    ensures StoreGrows(store, PutReport(h, store, r, now, later).0)
    ensures Healthy(h.objects, PutReport(h, store, r, now, later).0.objects)
  {
    hide FetchAll, SortBy, Put, ReadReport, NamesUnique, Healthy;
    PutKeeps(h.objects, store.objects, ObjectRequest(r), now);
  }

  /** Round trip: a report that was stored is reconstructed, with its content and the content of
      every dependency as they were, from every store grown out of the one it was put into. */
  lemma ReportRoundTrip(h: Hashes, store: Store, r: ReportRequest, now: Time, later: Time, grown: Store)
    requires HashesInjective(h) && Healthy(h.objects, store.objects) && PutReport(h, store, r, now, later).1.Ok?
    requires StoreGrows(PutReport(h, store, r, now, later).0, grown)
    ensures var m := PutReport(h, store, r, now, later).1.value;
      && FetchAll(h.objects, store.objects, r.dependencies).Ok?
      && GetReport(h, grown, r.key, m.digest)
           == Ok(Report(m, r.content, FetchAll(h.objects, store.objects, r.dependencies).value))
  {
    hide FetchAll, SortBy, Put, Constructible, NamesUnique, DistinctBy, Fetch, Healthy, HashesInjective, IdentityOf;
    hide PutReport;
    PutReportOutcome(h, store, r, now, later);
    PutReportGrows(h, store, r, now, later);
    var (store', answer) := PutReport(h, store, r, now, later);
    var m := answer.value;
    ReadGrows(h, store'.reports, grown.reports, r.key, m.digest);
    FetchGrows(h.objects, store'.objects, grown.objects, m.identity.main);
    FetchAllGrows(h.objects, store.objects, store'.objects, r.dependencies);
    FetchAllGrows(h.objects, store'.objects, grown.objects, r.dependencies);
    DistinctByPermute(r.dependencies, SortBy(r.dependencies, ByName), NameOf);
    assert m.identity.dependencies == SortBy(r.dependencies, ByName) by { IdentityParts(h, r); }
    FetchOrder(h.objects, grown.objects, r.dependencies, m.identity.dependencies);
  }

  lemma IdentityParts(h: Hashes, r: ReportRequest)
    ensures IdentityOf(h, r).dependencies == SortBy(r.dependencies, ByName) && IdentityOf(h, r).key == r.key
  {
  }

  lemma ReadGrows(h: Hashes, reports: Reports, reports': Reports, key: string, digest: Digest)
    requires forall k | k in reports :: k in reports' && reports'[k] == reports[k]
    requires ReadReport(h, reports, key, digest).Ok?
    ensures ReadReport(h, reports', key, digest) == ReadReport(h, reports, key, digest)
  {
  }

  /** A report key and manifest digest determine the report: two stores that both reconstruct
      it, damaged or not, agree on everything but the recorded time. */
  lemma ReportIsDetermined(h: Hashes, one: Store, two: Store, key: string, digest: Digest)
    requires HashesInjective(h) && GetReport(h, one, key, digest).Ok? && GetReport(h, two, key, digest).Ok?
    ensures var a, b := GetReport(h, one, key, digest).value, GetReport(h, two, key, digest).value;
      a.manifest.identity == b.manifest.identity && a.content == b.content && a.dependencies == b.dependencies
      && a.manifest.identity.key == key
  {
    hide FetchAll, Fetch, NamesUnique;
    var i := ReadReport(h, one.reports, key, digest).value.identity;
    assert ReadReport(h, two.reports, key, digest).value.identity == i;
    FetchDetermined(h.objects, one.objects, two.objects, i.main);
    FetchAllDetermined(h.objects, one.objects, two.objects, i.dependencies);
  }

  lemma FetchDetermined(h: Hashing, one: Objects, two: Objects, ref: Ref)
    requires Injective(h) && Fetch(h, one, ref).Ok? && Fetch(h, two, ref).Ok?
    ensures Fetch(h, one, ref) == Fetch(h, two, ref)
  {
    ContentIsAddressed(h, one, two, ref.digest);
  }

  lemma {:induction false} FetchAllDetermined(h: Hashing, one: Objects, two: Objects, s: seq<Dependency>)
    requires Injective(h) && FetchAll(h, one, s).Ok? && FetchAll(h, two, s).Ok?
    ensures FetchAll(h, one, s) == FetchAll(h, two, s)
  {
    hide Fetch, Injective;
    if s != [] {
      FetchAllDetermined(h, one, two, s[..|s| - 1]);
      FetchDetermined(h, one, two, s[|s| - 1].ref);
    }
  }

  /** Putting the same report again, with its dependencies in any order, stores nothing new. It returns
      the manifest first stored exactly when the metadata holds no tuple, and is a conflict otherwise. */
  lemma PutReportIsIdempotent(h: Hashes, store: Store, r: ReportRequest, now: Time, later: Time, grown: Store,
        r': ReportRequest, now': Time, later': Time)
    requires HashesInjective(h) && Healthy(h.objects, store.objects) && Healthy(h.objects, grown.objects)
    requires PutReport(h, store, r, now, later).1.Ok? && StoreGrows(PutReport(h, store, r, now, later).0, grown)
    requires r' == r.(dependencies := r'.dependencies) && multiset(r'.dependencies) == multiset(r.dependencies)
    ensures PutReport(h, grown, r', now', later').0 == grown
    ensures PutReport(h, grown, r', now', later').1
         == if Plain(Table(r.metadata)) then PutReport(h, store, r, now, later).1 else Err(ImmutableConflict)
  {
    hide FetchAll, SortBy, Put, Constructible, DistinctBy, Fetch, Healthy, ReadReport, Mismatched, Serializable, Parse;
    hide Plain;
    PutReportOutcome(h, store, r, now, later);
    PutReportGrows(h, store, r, now, later);
    var (store', answer) := PutReport(h, store, r, now, later);
    DistinctByPermute(r.dependencies, r'.dependencies, NameOf);
    UniqueKeys(r'.dependencies, NameOf);
    FetchAllGrows(h.objects, store.objects, store'.objects, r.dependencies);
    FetchAllGrows(h.objects, store'.objects, grown.objects, r.dependencies);
    FetchOrder(h.objects, grown.objects, r.dependencies, r'.dependencies);
    NotRefused(h.objects, store.objects, ObjectRequest(r), now);
    PutIsIdempotent(h.objects, store.objects, ObjectRequest(r), now, grown.objects, ObjectRequest(r'), now');
    PutPublished(h.objects, store.objects, ObjectRequest(r), now);
    SurvivesExactly(r.metadata);
    NoMetadata();
    ByNameIsOrder(r.dependencies);
    SortOrderIndependent(r.dependencies, r'.dependencies, ByName);
    ReadGrows(h, store'.reports, grown.reports, r.key, answer.value.digest);
    PresentReport(h, store'.reports, r.key, answer.value.digest);
  }

  lemma NoMetadata()
    ensures Serializable(map[]) && Plain(Table(map[]))
  {
  }

  lemma NotRefused(h: Hashing, objects: Objects, r: Request, now: Time)
    requires Put(h, objects, r, now).1.Ok?
    ensures !Refused(h, r)
  {
  }

  lemma PresentReport(h: Hashes, reports: Reports, key: string, digest: Digest)
    requires ReadReport(h, reports, key, digest).Ok?
    ensures (key, digest) in reports
  {
  }

  // ----- when a report is accepted, and when it is read -----

  /** The object of a reference is there, readable, and of the referenced size and media type. */
  predicate Referenced(h: Hashing, objects: Objects, ref: Ref) {
    && ref.digest in objects && Manifested(h, ref.digest, objects[ref.digest])
    && objects[ref.digest].manifest.value.manifest.size == ref.size
    && objects[ref.digest].manifest.value.manifest.media == ref.media
    && objects[ref.digest].content.Some? && |objects[ref.digest].content.value| == ref.size
    && h.bytes(objects[ref.digest].content.value) == ref.digest
  }

  function ContentAt(objects: Objects, d: Digest): Option<Bytes> {
    if d in objects then objects[d].content else None
  }

  lemma FetchedExactly(h: Hashing, objects: Objects, ref: Ref)
    ensures Fetch(h, objects, ref).Ok? <==> Referenced(h, objects, ref)
    ensures Fetch(h, objects, ref).Ok? ==> ContentAt(objects, ref.digest) == Some(Fetch(h, objects, ref).value)
    ensures Fetch(h, objects, ref).Err? ==> Fetch(h, objects, ref).error == IntegrityError
  {
    ReadsExactly(h, objects, ref.digest);
    hide Manifested;
  }

  lemma {:induction false} FetchAllFails(h: Hashing, objects: Objects, s: seq<Dependency>)
    ensures FetchAll(h, objects, s).Err? ==> FetchAll(h, objects, s).error == IntegrityError
  {
    hide Fetch;
    if s != [] {
      FetchAllFails(h, objects, s[..|s| - 1]);
      FetchedExactly(h, objects, s[|s| - 1].ref);
    }
  }

  /** The file can be trusted for this key and digest, and describes a report that can be built. */
  ghost predicate Trusted(h: Hashes, key: string, digest: Digest, f: ReportFile) {
    && f.Recorded? && f.identity.contract == "ReportManifestV1" && f.identity.key == key && f.digest == digest
    && h.report(f.identity) == digest && f.identity.main.media != "" && DistinctBy(f.identity.dependencies, NameOf)
    && forall d | d in f.identity.dependencies :: d.name != "" && d.role != "" && d.ref.media != ""
  }

  lemma ReadReportExactly(h: Hashes, reports: Reports, key: string, digest: Digest)
    ensures ReadReport(h, reports, key, digest).Ok? <==>
      (key, digest) in reports && Trusted(h, key, digest, reports[(key, digest)])
    ensures ReadReport(h, reports, key, digest).Err? ==> ReadReport(h, reports, key, digest).error == IntegrityError
    ensures ReadReport(h, reports, key, digest).Ok? ==>
      var f := reports[(key, digest)];
      ReadReport(h, reports, key, digest).value == ReportManifest(f.identity, f.createdAt, digest)
  {
    hide DistinctBy;
    if (key, digest) in reports && reports[(key, digest)].Recorded? {
      UniqueKeys(reports[(key, digest)].identity.dependencies, NameOf);
    }
    hide KeysOf;
  }

  /** A report is read exactly when its file can be trusted and every object it refers to is there as referenced;
      the answer holds their bytes. */
  lemma GetReportExactly(h: Hashes, store: Store, key: string, digest: Digest)
    ensures GetReport(h, store, key, digest).Ok? <==>
      && (key, digest) in store.reports && Trusted(h, key, digest, store.reports[(key, digest)])
      && Referenced(h.objects, store.objects, store.reports[(key, digest)].identity.main)
      && forall d | d in store.reports[(key, digest)].identity.dependencies ::
           Referenced(h.objects, store.objects, d.ref)
    ensures GetReport(h, store, key, digest).Err? ==> GetReport(h, store, key, digest).error == IntegrityError
    ensures GetReport(h, store, key, digest).Ok? ==>
      var (f, report) := (store.reports[(key, digest)], GetReport(h, store, key, digest).value);
      && report.manifest == ReportManifest(f.identity, f.createdAt, digest)
      && ContentAt(store.objects, f.identity.main.digest) == Some(report.content)
      && report.dependencies.Keys == (set d | d in f.identity.dependencies :: d.name)
      && forall d | d in f.identity.dependencies ::
           ContentAt(store.objects, d.ref.digest) == Some(report.dependencies[d.name])
  {
    hide Fetch, FetchAll, DistinctBy, Referenced, ReadReport;
    ReadReportExactly(h, store.reports, key, digest);
    if (key, digest) in store.reports && Trusted(h, key, digest, store.reports[(key, digest)]) {
      var i := store.reports[(key, digest)].identity;
      FetchedExactly(h.objects, store.objects, i.main);
      FetchAllFails(h.objects, store.objects, i.dependencies);
      FetchAllExact(h.objects, store.objects, i.dependencies);
      forall d | d in i.dependencies
        ensures Fetch(h.objects, store.objects, d.ref).Ok? <==> Referenced(h.objects, store.objects, d.ref)
        ensures Fetch(h.objects, store.objects, d.ref).Ok? ==>
          ContentAt(store.objects, d.ref.digest) == Some(Fetch(h.objects, store.objects, d.ref).value)
      {
        FetchedExactly(h.objects, store.objects, d.ref);
      }
    }
  }

  /** What a report is known by: its content, and its dependencies in the order of their names. */
  ghost predicate Identifies(h: Hashes, r: ReportRequest, i: Identity) {
    && i.contract == "ReportManifestV1" && i.key == r.key && i.metadata == Parse(r.metadata)
    && i.main == Ref(h.objects.bytes(r.content), |r.content|, r.media)
    && multiset(i.dependencies) == multiset(r.dependencies)
    && forall m, n | 0 <= m < n < |i.dependencies| :: TextLe(i.dependencies[m].name, i.dependencies[n].name)
  }

  lemma IdentityIs(h: Hashes, r: ReportRequest)
    requires DistinctBy(r.dependencies, NameOf)
    ensures Identifies(h, r, IdentityOf(h, r))
  {
    hide SortBy, TextLe, Parse, DistinctBy;
    ByNameIsOrder(r.dependencies);
    SortIsSorted(r.dependencies, ByName);
    var s := SortBy(r.dependencies, ByName);
    forall m, n | 0 <= m < n < |s| ensures TextLe(s[m].name, s[n].name) { assert ByName(s[m], s[n]); }
  }

  /** The names differ, and every dependency is stored as it is referred to. */
  ghost predicate Supported(h: Hashes, store: Store, r: ReportRequest) {
    DistinctBy(r.dependencies, NameOf) && forall d | d in r.dependencies :: Referenced(h.objects, store.objects, d.ref)
  }

  /** What becomes of a report whose object was stored and whose metadata can be written. */
  ghost predicate Settles(h: Hashes, reports: Reports, r: ReportRequest, later: Time, i: Identity, reports': Reports,
        answer: Result<ReportManifest, StorageError>) {
    var digest := h.report(i);
    if (r.key, digest) in reports then
      var f := reports[(r.key, digest)];
      && reports' == reports
      && answer == (if !Trusted(h, r.key, digest, f) then Err(IntegrityError)
                    else if Parse(r.metadata) != r.metadata then Err(ImmutableConflict)
                    else Ok(ReportManifest(i, f.createdAt, digest)))
    else
      && reports' == reports[(r.key, digest) := Recorded(i, later, digest)]
      && answer == (if forall d | d in r.dependencies :: d.name != "" && d.role != "" && d.ref.media != ""
                    then Ok(ReportManifest(i, later, digest)) else Err(IntegrityError))
  }

  /** One `put_report`, from the store before it: what refuses it, in order, and what it leaves in each case. */
  lemma PutReportExactly(h: Hashes, store: Store, r: ReportRequest, now: Time, later: Time) returns (i: Identity)
    requires HashesInjective(h) && Healthy(h.objects, store.objects)
    ensures var (objects', put) := Put(h.objects, store.objects, Request(r.content, r.expected, r.media, map[]), now);
      var (store', answer) := PutReport(h, store, r, now, later);
      && (!Supported(h, store, r) ==>
            && store' == store
            && answer == Err(if DistinctBy(r.dependencies, NameOf) then IntegrityError else InvalidRequest))
      && (Supported(h, store, r) ==> store'.objects == objects')
      && (Supported(h, store, r) && put.Err? ==> store'.reports == store.reports && answer == Err(put.error))
      && (Supported(h, store, r) && put.Ok? && !Serializable(r.metadata) ==>
            store'.reports == store.reports && answer == Err(InvalidRequest))
      && (Supported(h, store, r) && put.Ok? && Serializable(r.metadata) ==>
            Identifies(h, r, i) && Settles(h, store.reports, r, later, i, store'.reports, answer))
  {
    hide FetchAll, Fetch, SortBy, Put, DistinctBy, Referenced, ReadReport, Identifies, Settles, Serializable, Healthy;
    hide IdentityOf, Parse, PutReport, HashesInjective;
    i := IdentityOf(h, r);
    Dependencies(h, store, r);
    var (objects', put) := Put(h.objects, store.objects, Request(r.content, r.expected, r.media, map[]), now);
    PutReportSteps(h, store, r, now, later);
    if Supported(h, store, r) {
      IdentityIs(h, r);
      if put.Ok? && Serializable(r.metadata) { ReportSettles(h, store, r, now, later); }
    }
  }

  lemma Dependencies(h: Hashes, store: Store, r: ReportRequest)
    ensures DistinctBy(r.dependencies, NameOf) <==> NamesUnique(r.dependencies)
    ensures DistinctBy(r.dependencies, NameOf) ==>
      (FetchAll(h.objects, store.objects, r.dependencies).Ok? <==> Supported(h, store, r))
    ensures FetchAll(h.objects, store.objects, r.dependencies).Err? ==>
      FetchAll(h.objects, store.objects, r.dependencies).error == IntegrityError
  {
    hide FetchAll, Fetch, DistinctBy, Referenced;
    UniqueKeys(r.dependencies, NameOf);
    FetchAllFails(h.objects, store.objects, r.dependencies);
    if DistinctBy(r.dependencies, NameOf) { FetchAllExact(h.objects, store.objects, r.dependencies); }
    forall d | d in r.dependencies
      ensures Fetch(h.objects, store.objects, d.ref).Ok? <==> Referenced(h.objects, store.objects, d.ref)
    {
      FetchedExactly(h.objects, store.objects, d.ref);
    }
  }

  /** The ways out of `put_report` before a manifest is written. */
  lemma PutReportSteps(h: Hashes, store: Store, r: ReportRequest, now: Time, later: Time)
    ensures var (objects', put) := Put(h.objects, store.objects, Request(r.content, r.expected, r.media, map[]), now);
      var (store', answer) := PutReport(h, store, r, now, later);
      && (!NamesUnique(r.dependencies) ==> store' == store && answer == Err(InvalidRequest))
      && (NamesUnique(r.dependencies) && FetchAll(h.objects, store.objects, r.dependencies).Err? ==>
            store' == store && answer == Err(FetchAll(h.objects, store.objects, r.dependencies).error))
      && (NamesUnique(r.dependencies) && FetchAll(h.objects, store.objects, r.dependencies).Ok? ==>
            && store'.objects == objects'
            && (put.Err? ==> store'.reports == store.reports && answer == Err(put.error))
            && (put.Ok? && !Serializable(r.metadata) ==>
                  store'.reports == store.reports && answer == Err(InvalidRequest)))
  {
    hide FetchAll, NamesUnique, SortBy, Put, ReadReport, Serializable, Parse;
  }

  lemma ReportSettles(h: Hashes, store: Store, r: ReportRequest, now: Time, later: Time)
    requires HashesInjective(h) && Healthy(h.objects, store.objects) && Supported(h, store, r)
    requires Put(h.objects, store.objects, ObjectRequest(r), now).1.Ok? && Serializable(r.metadata)
    ensures var (store', answer) := PutReport(h, store, r, now, later);
      Settles(h, store.reports, r, later, IdentityOf(h, r), store'.reports, answer)
  {
    hide FetchAll, SortBy, Put, DistinctBy, ReadReport, NamesUnique, Serializable, Parse, Healthy;
    Dependencies(h, store, r);
    PutPublished(h.objects, store.objects, ObjectRequest(r), now);
    var i := IdentityOf(h, r);
    var digest := h.report(i);
    var reports' := PutReport(h, store, r, now, later).0.reports;
    ReadReportExactly(h, reports', r.key, digest);
    SortDistinct(h, r);
    SameElements(r.dependencies, i.dependencies);
  }

  lemma SortDistinct(h: Hashes, r: ReportRequest)
    requires DistinctBy(r.dependencies, NameOf)
    ensures DistinctBy(IdentityOf(h, r).dependencies, NameOf)
    ensures multiset(IdentityOf(h, r).dependencies) == multiset(r.dependencies)
  {
    hide SortBy, DistinctBy, Parse;
    ByNameIsOrder(r.dependencies);
    SortIsSorted(r.dependencies, ByName);
    DistinctByPermute(r.dependencies, SortBy(r.dependencies, ByName), NameOf);
  }

  // ----- runs -----

  datatype Call =
    | PutCall(request: Request, now: Time)
    | ReportCall(report: ReportRequest, now: Time, later: Time)

  function Apply(h: Hashes, store: Store, call: Call): Store {
    match call
    case PutCall(r, now) => store.(objects := Put(h.objects, store.objects, r, now).0)
    case ReportCall(r, now, later) => PutReport(h, store, r, now, later).0
  }

  function ApplyAll(h: Hashes, store: Store, calls: seq<Call>): Store
    decreases |calls|
  {
    if calls == [] then store else ApplyAll(h, Apply(h, store, calls[0]), calls[1..])
  }

  lemma {:induction false} ApplyAllGrows(h: Hashes, store: Store, calls: seq<Call>)
    requires Healthy(h.objects, store.objects)
    ensures StoreGrows(store, ApplyAll(h, store, calls)) && Healthy(h.objects, ApplyAll(h, store, calls).objects)
    decreases |calls|
  {
    if calls != [] {
      hide Put, PutReport, Healthy;
      match calls[0] {
        case PutCall(r, now) => PutKeeps(h.objects, store.objects, r, now);
        case ReportCall(r, now, later) => PutReportGrows(h, store, r, now, later);
      }
      ApplyAllGrows(h, Apply(h, store, calls[0]), calls[1..]);
    }
  }

  /** Whatever is put afterwards, and however often it fails, the report is still there. */
  lemma ReportsStayReconstructable(h: Hashes, store: Store, r: ReportRequest, now: Time, later: Time, calls: seq<Call>)
    requires HashesInjective(h) && Healthy(h.objects, store.objects) && PutReport(h, store, r, now, later).1.Ok?
    ensures var (store', answer) := PutReport(h, store, r, now, later);
      && GetReport(h, ApplyAll(h, store', calls), r.key, answer.value.digest).Ok?
      && GetReport(h, ApplyAll(h, store', calls), r.key, answer.value.digest)
         == GetReport(h, store', r.key, answer.value.digest)
      && GetReport(h, store', r.key, answer.value.digest).value.manifest == answer.value
      && GetReport(h, store', r.key, answer.value.digest).value.content == r.content
  {
    hide PutReport, GetReport, FetchAll, Healthy, HashesInjective, ApplyAll;
    PutReportGrows(h, store, r, now, later);
    var store' := PutReport(h, store, r, now, later).0;
    ApplyAllGrows(h, store', calls);
    ApplyAllNone(h, store');
    ReportRoundTrip(h, store, r, now, later, store');
    ReportRoundTrip(h, store, r, now, later, ApplyAll(h, store', calls));
  }

  lemma ApplyAllNone(h: Hashes, store: Store)
    ensures StoreGrows(store, store)
  {
  }
}
