/** The filesystem adapter (apps/api/storage/filesystem.py, `FilesystemStorage`) with its directory
    trees as fields that the operations update in place. One caller at a time: racing callers
    are the subject of StorageRace. */
module StorageFilesystem {
  import opened Basics
  import opened StorageMetadata
  import opened StorageModel
  import opened StorageReports

  class FilesystemStorage {
    const h: Hashes
    var objects: Objects
    var reports: Reports

    ghost function State(): Store
      reads this
    {
      Store(objects, reports)
    }

    ghost predicate Valid()
      reads this
    {
      Healthy(h.objects, objects) && HashesInjective(h)
    }

    constructor (hashes: Hashes)
      requires HashesInjective(hashes)
      ensures Valid() && h == hashes && State() == Store(map[], map[])
    {
      h, objects, reports := hashes, map[], map[];
    }

    /** `_publish_directory` for an object: false if a directory was already there. */
    method PublishObject(d: Digest, dir: Dir) returns (created: bool)
      modifies this`objects
      ensures created <==> d !in old(objects)
      ensures objects == if created then old(objects)[d := dir] else old(objects)
    {
      created := d !in objects;
      if created { objects := objects[d := dir]; }
    }

    method PutObject(r: Request, now: Time) returns (answer: Result<Stored, StorageError>)
      requires Valid()
      modifies this`objects
      ensures Valid() && Grows(old(objects), objects)
      ensures (objects, answer) == Put(h.objects, old(objects), r, now)
    {
      PutKeeps(h.objects, objects, r, now);
      var d := h.objects.bytes(r.content);
      if r.expected.Some? && d != r.expected.value { return Err(DigestMismatch); }
      if !Serializable(r.metadata) { return Err(InvalidRequest); }
      var created := PublishObject(d, OwnDir(h.objects, r, now));
      var inspected := Inspect(h.objects, objects, d);
      if inspected.Err? { return Err(inspected.error); }
      var content := Get(h.objects, objects, d);
      if content.Err? { return Err(content.error); }
      if content.value != r.content { return Err(IntegrityError); }
      if r.media == "" { return Err(InvalidArgument); }
      var stored := inspected.value;
      if !created && (stored.ref != Ref(d, |r.content|, r.media) || stored.metadata != r.metadata) {
        return Err(ImmutableConflict);
      }
      return Ok(stored);
    }

    /** The loops over dependencies, in `put_report` and in `get_report`. */
    method FetchDependencies(s: seq<Dependency>) returns (answer: Result<map<string, Bytes>, StorageError>)
      ensures answer == FetchAll(h.objects, objects, s)
    {
      hide Fetch;
      var contents: map<string, Bytes> := map[];
      for i := 0 to |s|
        invariant FetchAll(h.objects, objects, s[..i]) == Ok(contents)
      {
        assert s[..i + 1][..i] == s[..i];
        var value := Fetch(h.objects, objects, s[i].ref);
        if value.Err? {
          FetchFails(h.objects, objects, s, i);
          return Err(value.error);
        }
        contents := contents[s[i].name := value.value];
      }
      assert s[..|s|] == s;
      return Ok(contents);
    }

    method PutReport(r: ReportRequest, now: Time, later: Time) returns (answer: Result<ReportManifest, StorageError>)
      requires Valid()
      modifies this
      ensures Valid() && StoreGrows(old(State()), State())
      ensures (State(), answer) == StorageReports.PutReport(h, old(State()), r, now, later)
    {
      hide FetchAll, Put, Healthy, HashesInjective, SortBy, NamesUnique, ReadReport;
      PutReportGrows(h, State(), r, now, later);
      if !NamesUnique(r.dependencies) { return Err(InvalidRequest); }
      var dependencies := FetchDependencies(r.dependencies);
      if dependencies.Err? { return Err(dependencies.error); }
      var put := PutObject(ObjectRequest(r), now);
      if put.Err? { return Err(put.error); }
      if !Serializable(r.metadata) { return Err(InvalidRequest); }
      var identity := Identity(REPORT_CONTRACT, r.key, put.value.ref, SortBy(r.dependencies, ByName), r.metadata);
      var recorded := identity.(metadata := Parse(r.metadata));
      var digest := h.report(recorded);
      var created := (r.key, digest) !in reports;
      if created { reports := reports[(r.key, digest) := Recorded(recorded, later, digest)]; }
      var existing := ReadReport(h, reports, r.key, digest);
      if existing.Err? { return Err(existing.error); }
      if !created && existing.value.identity != identity { return Err(ImmutableConflict); }
      return Ok(existing.value);
    }

    method GetReport(key: string, digest: Digest) returns (answer: Result<Report, StorageError>)
      ensures answer == StorageReports.GetReport(h, State(), key, digest)
    {
      hide FetchAll, Fetch, ReadReport;
      var m := ReadReport(h, reports, key, digest);
      if m.Err? { return Err(m.error); }
      var content := Fetch(h.objects, objects, m.value.identity.main);
      if content.Err? { return Err(content.error); }
      var dependencies := FetchDependencies(m.value.identity.dependencies);
      if dependencies.Err? { return Err(dependencies.error); }
      return Ok(Report(m.value, content.value, dependencies.value));
    }
  }

  lemma {:induction false} FetchFails(h: Hashing, objects: Objects, s: seq<Dependency>, i: nat)
    requires i < |s| && FetchAll(h, objects, s[..i]).Ok? && Fetch(h, objects, s[i].ref).Err?
    ensures FetchAll(h, objects, s) == Err(Fetch(h, objects, s[i].ref).error)
    decreases |s|
  {
    hide Fetch;
    if i == |s| - 1 {
    } else {
      var rest := s[..|s| - 1];
      assert rest[..i] == s[..i];
      FetchFails(h, objects, rest, i);
    }
  }
}
