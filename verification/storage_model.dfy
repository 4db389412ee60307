/** Content-addressed objects on disk: what a visible directory holds, how it is read back, and
    the effect of one `put` (apps/api/storage/filesystem.py, apps/api/storage/models.py).
    SHA-256 over bytes or canonical JSON is a pair of functions assumed to be injective. */
module StorageModel {
  import opened Basics
  import opened StorageMetadata

  type Byte = x: int | 0 <= x < 256
  type Bytes = seq<Byte>
  type Digest = nat
  type Time = int

  const CONTRACT := "ContentAddressedObjectV1"

  datatype StorageError = DigestMismatch | IntegrityError | ImmutableConflict | InvalidRequest | InvalidArgument

  datatype Ref = Ref(digest: Digest, size: nat, media: string)

  datatype Stored = Stored(ref: Ref, createdAt: Time, metadata: Metadata)

  datatype Manifest = Manifest(contract: string, digest: Digest, size: nat, media: string, createdAt: Time,
      metadata: Metadata)

  /** The file `manifest.json`: not a JSON object with a hash, or a manifest with its hash. */
  datatype ManifestFile = Unreadable | Signed(manifest: Manifest, hash: Digest)

  /** A directory: a file that was not written yet is None. */
  datatype Dir = Dir(content: Option<Bytes>, manifest: Option<ManifestFile>)

  type Objects = map<Digest, Dir>

  datatype Hashing = Hashing(bytes: Bytes -> Digest, manifest: Manifest -> Digest)

  ghost predicate Injective(h: Hashing) {
    && (forall x, y | h.bytes(x) == h.bytes(y) :: x == y)
    && (forall x, y | h.manifest(x) == h.manifest(y) :: x == y)
  }

  datatype Request = Request(content: Bytes, expected: Option<Digest>, media: string, metadata: Metadata)

  // ----- reading -----

  function Inspect(h: Hashing, objects: Objects, d: Digest): Result<Stored, StorageError> {
    if d !in objects || objects[d].manifest.None? || objects[d].manifest.value.Unreadable? then Err(IntegrityError)
    else
      var m, hash := objects[d].manifest.value.manifest, objects[d].manifest.value.hash;
      if m.contract != CONTRACT || h.manifest(m) != hash then Err(IntegrityError)
      else if m.digest != d then Err(IntegrityError)
      else if m.media == "" then Err(IntegrityError)
      else Ok(Stored(Ref(m.digest, m.size, m.media), m.createdAt, m.metadata))
  }

  function Get(h: Hashing, objects: Objects, d: Digest): Result<Bytes, StorageError> {
    match Inspect(h, objects, d)
    case Err(e) => Err(e)
    case Ok(stored) =>
      if objects[d].content.None? then Err(IntegrityError)
      else
        var content := objects[d].content.value;
        if |content| != stored.ref.size || h.bytes(content) != stored.ref.digest then Err(IntegrityError)
        else Ok(content)
  }

  // ----- writing -----

  /** The manifest as it is read back: its hash covers the JSON text, so it is that of the parsed metadata. */
  function OwnManifest(h: Hashing, r: Request, now: Time): Manifest {
    Manifest(CONTRACT, h.bytes(r.content), |r.content|, r.media, now, Parse(r.metadata))
  }

  /** The directory that a put prepares. */
  function OwnDir(h: Hashing, r: Request, now: Time): Dir {
    Dir(Some(r.content), Some(Signed(OwnManifest(h, r, now), h.manifest(OwnManifest(h, r, now)))))
  }

  predicate Mismatched(h: Hashing, r: Request) {
    r.expected.Some? && h.bytes(r.content) != r.expected.value
  }

  /** Nothing is published for a request that is refused. */
  predicate Refused(h: Hashing, r: Request) { Mismatched(h, r) || !Serializable(r.metadata) }

  function Refusal(h: Hashing, r: Request): StorageError {
    if Mismatched(h, r) then DigestMismatch else InvalidRequest
  }

  /** What `put` concludes from the object it read back. */
  function Judge(r: Request, d: Digest, stored: Stored, created: bool): Result<Stored, StorageError> {
    if r.media == "" then Err(InvalidArgument)
    else if !created
      && (stored.ref != Ref(d, |r.content|, r.media) || stored.metadata != r.metadata) then Err(ImmutableConflict)
    else Ok(stored)
  }

  /** The part of `put` that follows the publication. */
  function ReadBack(h: Hashing, objects: Objects, r: Request, created: bool): Result<Stored, StorageError> {
    var d := h.bytes(r.content);
    match Inspect(h, objects, d)
    case Err(e) => Err(e)
    case Ok(stored) =>
      match Get(h, objects, d)
      case Err(e) => Err(e)
      case Ok(content) => if content != r.content then Err(IntegrityError) else Judge(r, d, stored, created)
  }

  function Publish(h: Hashing, objects: Objects, r: Request, now: Time): Objects {
    if h.bytes(r.content) in objects then objects else objects[h.bytes(r.content) := OwnDir(h, r, now)]
  }

  /** One `put`, taken as a single step: the objects afterwards, and the answer. */
  function Put(h: Hashing, objects: Objects, r: Request, now: Time): (Objects, Result<Stored, StorageError>) {
    if Refused(h, r) then (objects, Err(Refusal(h, r)))
    else (Publish(h, objects, r, now), ReadBack(h, Publish(h, objects, r, now), r, h.bytes(r.content) !in objects))
  }

  // ----- health -----

  /** Both files are there, complete, and agree with the digest the directory is named after. */
  ghost predicate Intact(h: Hashing, d: Digest, dir: Dir) {
    && dir.content.Some? && h.bytes(dir.content.value) == d
    && dir.manifest.Some? && dir.manifest.value.Signed?
    && var m := dir.manifest.value.manifest;
       m.contract == CONTRACT && dir.manifest.value.hash == h.manifest(m) && m.digest == d
         && m.size == |dir.content.value|
       && Plain(Table(m.metadata))
  }

  /** No partial object is visible. */
  ghost predicate Healthy(h: Hashing, objects: Objects) {
    forall d | d in objects :: Intact(h, d, objects[d])
  }

  ghost predicate Grows(objects: Objects, objects': Objects) {
    forall d | d in objects :: d in objects' && objects'[d] == objects[d]
  }

  function MediaOf(objects: Objects, d: Digest): string {
    if d in objects && objects[d].manifest.Some? && objects[d].manifest.value.Signed?
      then objects[d].manifest.value.manifest.media else ""
  }

  function MetadataOf(dir: Dir): Metadata
    requires dir.manifest.Some? && dir.manifest.value.Signed?
  {
    dir.manifest.value.manifest.metadata
  }

  /** A visible object reads back exactly when its media type is not empty. */
  lemma HealthyReads(h: Hashing, objects: Objects, d: Digest)
    requires Healthy(h, objects) && d in objects
    ensures Inspect(h, objects, d).Ok? <==> MediaOf(objects, d) != ""
    ensures Get(h, objects, d).Ok? <==> MediaOf(objects, d) != ""
    ensures Get(h, objects, d).Ok? ==>
        Get(h, objects, d).value == objects[d].content.value && Inspect(h, objects, d).value.ref.digest == d
  {
    assert Intact(h, d, objects[d]);
  }

  /** Whatever has happened to the files, content that is returned has the digest asked for,
      so two stores that both answer give the same bytes. */
  lemma ContentIsAddressed(h: Hashing, one: Objects, two: Objects, d: Digest)
    requires Injective(h) && Get(h, one, d).Ok? && Get(h, two, d).Ok?
    ensures Get(h, one, d).value == Get(h, two, d).value
    ensures h.bytes(Get(h, one, d).value) == d && |Get(h, one, d).value| == Inspect(h, one, d).value.ref.size
  {
  }

  /** A prepared directory is complete, and holds what JSON can hold. */
  lemma OwnIsIntact(h: Hashing, r: Request, now: Time)
    ensures Intact(h, h.bytes(r.content), OwnDir(h, r, now))
  {
    hide Serializable, Parse, Plain;
    SurvivesExactly(r.metadata);
    SurvivesExactly(Parse(r.metadata));
  }

  lemma PutKeeps(h: Hashing, objects: Objects, r: Request, now: Time)
    requires Healthy(h, objects)
    ensures Healthy(h, Put(h, objects, r, now).0) && Grows(objects, Put(h, objects, r, now).0)
  {
    OwnIsIntact(h, r, now);
    hide OwnDir, Intact;
  }

  /** The answers of `put`, each with its exact condition. */
  lemma PutAnswers(h: Hashing, objects: Objects, r: Request, now: Time)
    requires Injective(h) && Healthy(h, objects)
    ensures var d, (objects', answer) := h.bytes(r.content), Put(h, objects, r, now);
      && (answer == Err(DigestMismatch) <==> Mismatched(h, r))
      && (answer == Err(InvalidRequest) <==> !Mismatched(h, r) && !Serializable(r.metadata))
      && (answer == Err(IntegrityError) <==> !Refused(h, r) && MediaOf(objects', d) == "")
      && (answer == Err(InvalidArgument) <==> !Refused(h, r) && r.media == "" && MediaOf(objects', d) != "")
      && (answer.Ok? <==> (!Refused(h, r) && r.media != "" && Inspect(h, objects', d).Ok?
                           && Inspect(h, objects', d).value.ref.media == r.media
                           && (d in objects ==> Inspect(h, objects', d).value.metadata == r.metadata)))
      && (answer.Ok? ==> answer == Inspect(h, objects', d) && Get(h, objects', d) == Ok(r.content)
                         && Inspect(h, objects', d).value.metadata == Parse(r.metadata))
  {
    hide Serializable, Parse;
    SurvivesExactly(r.metadata);
    OwnIsIntact(h, r, now);
    var d, objects' := h.bytes(r.content), Publish(h, objects, r, now);
    if d in objects {
      assert Intact(h, d, objects[d]);
      SurvivesExactly(MetadataOf(objects[d]));
    }
    hide Plain;
  }

  /** Whatever is in the directories: content is returned exactly when both files are there, the manifest is one of
      this contract with its own hash, names this digest, a media type and the size, and the bytes have the digest. */
  lemma ReadsExactly(h: Hashing, objects: Objects, d: Digest)
    ensures Inspect(h, objects, d).Ok? <==> d in objects && Manifested(h, d, objects[d])
    ensures Inspect(h, objects, d).Ok? ==>
      var m := objects[d].manifest.value.manifest;
      Inspect(h, objects, d).value == Stored(Ref(d, m.size, m.media), m.createdAt, m.metadata)
    ensures Get(h, objects, d).Ok? <==>
      && d in objects && Manifested(h, d, objects[d]) && objects[d].content.Some?
      && |objects[d].content.value| == objects[d].manifest.value.manifest.size && h.bytes(objects[d].content.value) == d
    ensures Get(h, objects, d).Ok? ==> Get(h, objects, d).value == objects[d].content.value
    ensures Inspect(h, objects, d).Err? ==> Inspect(h, objects, d).error == IntegrityError
    ensures Get(h, objects, d).Err? ==> Get(h, objects, d).error == IntegrityError
  {
  }

  /** The manifest can be trusted for this digest. */
  predicate Manifested(h: Hashing, d: Digest, dir: Dir) {
    && dir.manifest.Some? && dir.manifest.value.Signed?
    && var m := dir.manifest.value.manifest;
       && m.contract == "ContentAddressedObjectV1" && m.digest == d && m.media != ""
       && h.manifest(m) == dir.manifest.value.hash
  }

  /** The manifest of a new object. */
  function NewManifest(h: Hashing, r: Request, now: Time): Manifest {
    Manifest("ContentAddressedObjectV1", h.bytes(r.content), |r.content|, r.media, now, Parse(r.metadata))
  }

  predicate WrongDigest(h: Hashing, r: Request) { r.expected.Some? && r.expected.value != h.bytes(r.content) }

  /** What a put of new bytes leaves and returns. */
  predicate PutNew(h: Hashing, objects: Objects, r: Request, now: Time, objects': Objects,
        answer: Result<Stored, StorageError>) {
    var d, m := h.bytes(r.content), NewManifest(h, r, now);
    && objects' == objects[d := Dir(Some(r.content), Some(Signed(m, h.manifest(m))))]
    && answer == if r.media == "" then Err(IntegrityError)
                 else Ok(Stored(Ref(d, |r.content|, r.media), now, Parse(r.metadata)))
  }

  /** What a put of bytes that are there already returns: the first object, if this one is the same. */
  predicate PutAgain(r: Request, m: Manifest, answer: Result<Stored, StorageError>) {
    answer == if m.media == "" then Err(IntegrityError)
              else if r.media == "" then Err(InvalidArgument)
              else if r.media != m.media || r.metadata != m.metadata then Err(ImmutableConflict)
              else Ok(Stored(Ref(m.digest, m.size, m.media), m.createdAt, m.metadata))
  }

  /** One put, from the objects before it: refused for the digest or for the metadata, and then nothing changes;
      new; or there already, and then nothing changes either. */
  lemma PutExactly(h: Hashing, objects: Objects, r: Request, now: Time)
    requires Injective(h) && Healthy(h, objects)
    ensures var d, (objects', answer) := h.bytes(r.content), Put(h, objects, r, now);
      && (answer == Err(DigestMismatch) <==> WrongDigest(h, r))
      && (answer == Err(InvalidRequest) <==> !WrongDigest(h, r) && !Serializable(r.metadata))
      && (WrongDigest(h, r) || !Serializable(r.metadata) ==> objects' == objects)
      && (!WrongDigest(h, r) && Serializable(r.metadata) && d !in objects ==>
            PutNew(h, objects, r, now, objects', answer))
      && (!WrongDigest(h, r) && Serializable(r.metadata) && d in objects ==>
            && objects' == objects && objects[d].manifest.Some? && objects[d].manifest.value.Signed?
            && PutAgain(r, objects[d].manifest.value.manifest, answer))
  {
    hide Serializable, Parse, Plain;
    PutAnswers(h, objects, r, now);
    OwnIsIntact(h, r, now);
    var d := h.bytes(r.content);
    if d in objects { assert Intact(h, d, objects[d]); }
  }

  /** A put with an empty media type spoils its digest: it fails, and so does every later put
      of the same bytes, in any store grown from that one. */
  lemma EmptyMediaSpoils(h: Hashing, objects: Objects, r: Request, now: Time, later: Objects, r': Request, now': Time)
    requires Injective(h) && Healthy(h, objects) && !Refused(h, r) && r.media == "" && h.bytes(r.content) !in objects
    requires Grows(Put(h, objects, r, now).0, later) && r'.content == r.content
    ensures Put(h, objects, r, now).1 == Err(IntegrityError)
    ensures Put(h, later, r', now').1 == Err(if Refused(h, r') then Refusal(h, r') else IntegrityError)
  {
    hide Serializable, Parse;
    OwnIsIntact(h, r, now);
    assert later[h.bytes(r.content)] == OwnDir(h, r, now);
  }

  /** Putting the same bytes with the same media type and metadata again changes nothing, however
      much was stored in between. It returns the object first stored exactly when the metadata holds
      no tuple, and is a conflict with itself otherwise. */
  lemma PutIsIdempotent(h: Hashing, objects: Objects, r: Request, now: Time, later: Objects, r': Request, now': Time)
    requires Injective(h) && Healthy(h, objects) && Healthy(h, later) && Put(h, objects, r, now).1.Ok?
    requires Grows(Put(h, objects, r, now).0, later)
    requires r'.content == r.content && r'.media == r.media && r'.metadata == r.metadata && !Mismatched(h, r')
    ensures Put(h, later, r', now').0 == later
    ensures Put(h, later, r', now').1
        == if Plain(Table(r.metadata)) then Put(h, objects, r, now).1 else Err(ImmutableConflict)
  {
    hide Serializable, Parse, Plain;
    SurvivesExactly(r.metadata);
    PutAnswers(h, objects, r, now);
    PutAnswers(h, later, r', now');
    assert later[h.bytes(r.content)] == Put(h, objects, r, now).0[h.bytes(r.content)];
  }

  function TaggedRequest(): Request { Request([104, 105], None, "text/plain", map["tags" := Tuple([Text("draft")])]) }

  /** Two identical puts into an empty store: the first succeeds, the second is a conflict. */
  lemma TuplePutTwiceConflicts(h: Hashing, now: Time, later: Time)
    requires Injective(h)
    ensures Put(h, map[], TaggedRequest(), now).1.Ok?
    ensures Put(h, Put(h, map[], TaggedRequest(), now).0, TaggedRequest(), later).1 == Err(ImmutableConflict)
  {
    var r := TaggedRequest();
    TupleIsAccepted();
    PutKeeps(h, map[], r, now);
    OwnIsIntact(h, r, now);
    PutIsIdempotent(h, map[], r, now, Put(h, map[], r, now).0, r, later);
  }

  lemma TupleIsAccepted()
    ensures Serializable(TaggedRequest().metadata) && !Plain(Table(TaggedRequest().metadata))
  {
    var v := TaggedRequest().metadata["tags"];
    assert Representable(v) && !Plain(v);
  }
}
