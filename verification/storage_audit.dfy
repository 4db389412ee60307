/** The audit anchor (apps/api/storage/filesystem.py, `FilesystemAuditAnchor`): receipts on disk that
    chain external audit checkpoints, how one is added, and how one is verified. The hash of a
    canonical receipt payload is a function assumed to be injective. */
module StorageAudit {
  import opened Basics

  type Hash = nat
  type Time = int

  const AUDIT_CONTRACT := "AuditAnchorReceiptV1"

  datatype AuditError = IntegrityError | ImmutableConflict

  datatype Checkpoint = Checkpoint(id: string, stream: string, through: nat, chainHash: Hash, createdAt: Time)

  datatype Payload = Payload(contract: string, checkpoint: Checkpoint, anchoredAt: Time, previous: Option<Hash>)

  /** The directory name: a number, a dash, and the checkpoint's id. */
  datatype Name = Name(number: nat, id: string)

  datatype ReceiptFile = Damaged | Filed(payload: Payload, hash: Hash)

  datatype Entry = Entry(name: Name, file: ReceiptFile)

  datatype Uri = Uri(stream: string, name: Name)

  datatype Receipt = Receipt(checkpoint: Checkpoint, anchoredAt: Time, previous: Option<Hash>, hash: Hash, uri: Uri)

  type Hasher = Payload -> Hash

  ghost predicate Injective(h: Hasher) {
    forall x, y | h(x) == h(y) :: x == y
  }

  /** The directories of every stream, as they are listed. */
  type Streams = map<string, seq<Entry>>

  function Listing(streams: Streams, key: string): seq<Entry> {
    if key in streams then streams[key] else []
  }

  predicate ByNumber(a: Entry, b: Entry) { a.name.number <= b.name.number }

  /** `_receipt_dirs` */
  function Dirs(streams: Streams, key: string): seq<Entry> {
    SortBy(Listing(streams, key), ByNumber)
  }

  /** `_read_receipt` */
  function Read(h: Hasher, key: string, e: Entry): Result<Receipt, AuditError> {
    if e.file.Damaged? then Err(IntegrityError)
    else if e.file.payload.contract != AUDIT_CONTRACT || h(e.file.payload) != e.file.hash then Err(IntegrityError)
    else
      var p := e.file.payload;
      Ok(Receipt(p.checkpoint, p.anchoredAt, p.previous, e.file.hash, Uri(key, e.name)))
  }

  // ----- verify -----

  /** The entry at a position can be read, advances the sequence, and points at the one before it. */
  ghost predicate Linked(h: Hasher, key: string, dirs: seq<Entry>, i: int)
    requires 0 <= i < |dirs|
  {
    && Read(h, key, dirs[i]).Ok?
    && if i == 0 then Read(h, key, dirs[i]).value.previous == None
       else
         && Read(h, key, dirs[i - 1]).Ok?
         && Read(h, key, dirs[i - 1]).value.checkpoint.through < Read(h, key, dirs[i]).value.checkpoint.through
         && Read(h, key, dirs[i]).value.previous == Some(Read(h, key, dirs[i - 1]).value.hash)
  }

  ghost predicate ChainOk(h: Hasher, key: string, dirs: seq<Entry>) {
    forall i | 0 <= i < |dirs| :: Linked(h, key, dirs, i)
  }

  /** The receipt is in the stream, and nothing else there has its hash. */
  ghost predicate Present(h: Hasher, key: string, dirs: seq<Entry>, r: Receipt) {
    && (exists i :: 0 <= i < |dirs| && Read(h, key, dirs[i]) == Ok(r))
    && forall i | 0 <= i < |dirs| && Read(h, key, dirs[i]).Ok? && Read(h, key, dirs[i]).value.hash == r.hash ::
       Read(h, key, dirs[i]) == Ok(r)
  }

  ghost predicate Verifies(h: Hasher, streams: Streams, r: Receipt) {
    ChainOk(h, r.checkpoint.stream, Dirs(streams, r.checkpoint.stream))
    && Present(h, r.checkpoint.stream, Dirs(streams, r.checkpoint.stream), r)
  }

  // ----- anchor -----

  /** The first loop: a receipt of the same checkpoint id, if any. */
  function Find(h: Hasher, key: string, dirs: seq<Entry>, c: Checkpoint): Result<Option<Receipt>, AuditError> {
    if dirs == [] then Ok(None)
    else
      match Read(h, key, dirs[0])
      case Err(e) => Err(e)
      case Ok(r) =>
        if r.checkpoint.id == c.id then (if r.checkpoint != c then Err(ImmutableConflict) else Ok(Some(r)))
        else Find(h, key, dirs[1..], c)
  }

  /** What `anchor` decides from what it read: an existing receipt, or a payload to publish. */
  datatype Plan = Existing(receipt: Receipt) | Fresh(payload: Payload)

  function Prepare(h: Hasher, streams: Streams, c: Checkpoint, now: Time): Result<Plan, AuditError> {
    var dirs := Dirs(streams, c.stream);
    match Find(h, c.stream, dirs, c)
    case Err(e) => Err(e)
    case Ok(Some(r)) => Ok(Existing(r))
    case Ok(None) =>
      if dirs == [] then Ok(Fresh(Payload(AUDIT_CONTRACT, c, now, None)))
      else
        match Read(h, c.stream, dirs[|dirs| - 1])
        case Err(e) => Err(e)
        case Ok(previous) =>
          if c.through <= previous.checkpoint.through then Err(ImmutableConflict)
          else Ok(Fresh(Payload(AUDIT_CONTRACT, c, now, Some(previous.hash))))
  }

  function Lookup(s: seq<Entry>, name: Name): Option<Entry> {
    if s == [] then None else if s[0].name == name then Some(s[0]) else Lookup(s[1..], name)
  }

  function NameOf(c: Checkpoint): Name { Name(c.through, c.id) }

  /** Publication of a prepared payload: create-if-absent, then read back. */
  function Publish(h: Hasher, streams: Streams, p: Payload): (Streams, Result<Receipt, AuditError>) {
    var key, name := p.checkpoint.stream, NameOf(p.checkpoint);
    var existing := Lookup(Listing(streams, key), name);
    var entry := existing.GetOr(Entry(name, Filed(p, h(p))));
    var streams' := if existing.Some? then streams else streams[key := Listing(streams, key) + [entry]];
    match Read(h, key, entry)
    case Err(e) => (streams', Err(e))
    case Ok(r) =>
      if existing.Some? && r.checkpoint != p.checkpoint then (streams', Err(ImmutableConflict)) else (streams', Ok(r))
  }

  /** `anchor` by a single writer: nothing happens between reading and publishing. */
  function Anchor(h: Hasher, streams: Streams, c: Checkpoint, now: Time): (Streams, Result<Receipt, AuditError>) {
    match Prepare(h, streams, c, now)
    case Err(e) => (streams, Err(e))
    case Ok(Existing(r)) => (streams, Ok(r))
    case Ok(Fresh(p)) => Publish(h, streams, p)
  }

  // ----- facts about chains -----

  lemma {:induction false} ChainAscends(h: Hasher, key: string, dirs: seq<Entry>, i: nat, j: nat)
    requires ChainOk(h, key, dirs) && i < j < |dirs|
    ensures Read(h, key, dirs[i]).Ok? && Read(h, key, dirs[j]).Ok?
    ensures Read(h, key, dirs[i]).value.checkpoint.through < Read(h, key, dirs[j]).value.checkpoint.through
  {
    assert Linked(h, key, dirs, j) && Linked(h, key, dirs, i);
    if i < j - 1 { ChainAscends(h, key, dirs, i, j - 1); }
  }

  lemma SameHashSamePayload(h: Hasher, key: string, a: Entry, other: string, b: Entry)
    requires Injective(h) && Read(h, key, a).Ok? && Read(h, other, b).Ok?
    requires Read(h, key, a).value.hash == Read(h, other, b).value.hash
    ensures a.file == b.file
  {
  }

  /** A hash occurs at most once in a chain. */
  lemma HashIsUnique(h: Hasher, key: string, dirs: seq<Entry>, i: nat, j: nat)
    requires Injective(h) && ChainOk(h, key, dirs) && i < |dirs| && j < |dirs|
    ensures Read(h, key, dirs[i]).Ok? && Read(h, key, dirs[j]).Ok?
    ensures Read(h, key, dirs[i]).value.hash == Read(h, key, dirs[j]).value.hash ==> i == j
  {
    assert Linked(h, key, dirs, i) && Linked(h, key, dirs, j);
    if Read(h, key, dirs[i]).value.hash == Read(h, key, dirs[j]).value.hash {
      SameHashSamePayload(h, key, dirs[i], key, dirs[j]);
      if i < j { ChainAscends(h, key, dirs, i, j); }
      if j < i { ChainAscends(h, key, dirs, j, i); }
    }
  }

  /** No two receipts of a chain have the same predecessor. */
  lemma PredecessorIsUnique(h: Hasher, key: string, dirs: seq<Entry>, i: nat, j: nat)
    requires Injective(h) && ChainOk(h, key, dirs) && i < |dirs| && j < |dirs|
    ensures Read(h, key, dirs[i]).Ok? && Read(h, key, dirs[j]).Ok?
    ensures Read(h, key, dirs[i]).value.previous == Read(h, key, dirs[j]).value.previous ==> i == j
  {
    assert Linked(h, key, dirs, i) && Linked(h, key, dirs, j);
    if i > 0 && j > 0 { HashIsUnique(h, key, dirs, i - 1, j - 1); }
  }

  /** If two chains, wherever they come from, contain the same receipt hash, they are the same
      up to and including that receipt. */
  lemma {:induction false} SameReceiptSameHistory(h: Hasher, key: string, one: seq<Entry>, other: string,
        two: seq<Entry>, i: nat, j: nat)
    requires Injective(h) && ChainOk(h, key, one) && ChainOk(h, other, two) && i < |one| && j < |two|
    requires Read(h, key, one[i]).Ok? && Read(h, other, two[j]).Ok?
    requires Read(h, key, one[i]).value.hash == Read(h, other, two[j]).value.hash
    ensures i == j && forall k | 0 <= k <= i :: one[k].file == two[k].file
  {
    assert Linked(h, key, one, i) && Linked(h, other, two, j);
    SameHashSamePayload(h, key, one[i], other, two[j]);
    if i > 0 && j > 0 {
      SameReceiptSameHistory(h, key, one, other, two, i - 1, j - 1);
    }
  }

  /** The same for receipts that verify, in streams that may have been tampered with. */
  lemma VerifiedHistoriesAgree(h: Hasher, one: Streams, two: Streams, r: Receipt, r': Receipt)
    requires Injective(h) && Verifies(h, one, r) && Verifies(h, two, r') && r.hash == r'.hash
    ensures var dirs, dirs' := Dirs(one, r.checkpoint.stream), Dirs(two, r'.checkpoint.stream);
      exists n: nat :: n < |dirs| && n < |dirs'|
        && Read(h, r.checkpoint.stream, dirs[n]) == Ok(r) && Read(h, r'.checkpoint.stream, dirs'[n]) == Ok(r')
        && forall k | 0 <= k <= n :: dirs[k].file == dirs'[k].file
  {
    hide Dirs, ChainOk, Injective;
    var key, other := r.checkpoint.stream, r'.checkpoint.stream;
    var dirs, dirs' := Dirs(one, key), Dirs(two, other);
    var i: nat :| i < |dirs| && Read(h, key, dirs[i]) == Ok(r);
    var j: nat :| j < |dirs'| && Read(h, other, dirs'[j]) == Ok(r');
    SameReceiptSameHistory(h, key, dirs, other, dirs', i, j);
  }

  // ----- streams written by one writer at a time -----

  /** No two receipts of a stream have the same checkpoint id. */
  ghost predicate IdsOnce(s: seq<Entry>) {
    forall i, j | 0 <= i < j < |s| && s[i].file.Filed? && s[j].file.Filed? ::
      s[i].file.payload.checkpoint.id != s[j].file.payload.checkpoint.id
  }

  /** The listing is in order, names say what they hold, and the chain is unbroken. */
  ghost predicate SoundStream(h: Hasher, key: string, s: seq<Entry>) {
    && ChainOk(h, key, s) && IdsOnce(s)
    && forall e | e in s ::
       e.file.Filed? && e.name == NameOf(e.file.payload.checkpoint) && e.file.payload.checkpoint.stream == key
  }

  ghost predicate Sound(h: Hasher, streams: Streams) {
    forall key | key in streams :: SoundStream(h, key, streams[key])
  }

  ghost predicate StreamsGrow(streams: Streams, streams': Streams) {
    forall key :: Listing(streams, key) <= Listing(streams', key)
  }

  lemma SoundListing(h: Hasher, streams: Streams, key: string)
    requires Sound(h, streams)
    ensures SoundStream(h, key, Listing(streams, key)) && Dirs(streams, key) == Listing(streams, key)
  {
    hide SortBy;
    var s := Listing(streams, key);
    assert SoundStream(h, key, s);
    forall i, j | 0 <= i < j < |s| ensures ByNumber(s[i], s[j]) {
      ChainAscends(h, key, s, i, j);
      assert s[i] in s && s[j] in s;
    }
    SortSorted(s);
  }

  lemma {:induction false} SortSorted(s: seq<Entry>)
    requires Sorted(s, ByNumber)
    ensures SortBy(s, ByNumber) == s
  {
    if s != [] {
      SortSorted(s[1..]);
      assert s == [s[0]] + s[1..];
      if |s| > 1 { assert ByNumber(s[0], s[1]); }
    }
  }

  lemma {:induction false} FindExact(h: Hasher, key: string, dirs: seq<Entry>, c: Checkpoint)
    requires forall e | e in dirs :: Read(h, key, e).Ok?
    ensures Find(h, key, dirs, c) == Ok(None) <==> forall e | e in dirs :: Read(h, key, e).value.checkpoint.id != c.id
    ensures Find(h, key, dirs, c).Ok? && Find(h, key, dirs, c).value.Some? ==>
      Find(h, key, dirs, c).value.value.checkpoint == c
        && exists e :: e in dirs && Read(h, key, e) == Ok(Find(h, key, dirs, c).value.value)
  {
    hide Read;
    if dirs != [] {
      assert dirs[0] in dirs && forall e :: e in dirs <==> e == dirs[0] || e in dirs[1..];
      FindExact(h, key, dirs[1..], c);
    }
  }

  lemma {:induction false} LookupExact(s: seq<Entry>, name: Name)
    ensures Lookup(s, name).Some? ==> Lookup(s, name).value in s && Lookup(s, name).value.name == name
    ensures Lookup(s, name).None? ==> forall e | e in s :: e.name != name
  {
    if s != [] { LookupExact(s[1..], name); }
  }

  lemma ReadableAll(h: Hasher, key: string, s: seq<Entry>)
    requires ChainOk(h, key, s)
    ensures forall e | e in s :: Read(h, key, e).Ok?
  {
    forall e | e in s ensures Read(h, key, e).Ok? {
      var i :| 0 <= i < |s| && s[i] == e;
      assert Linked(h, key, s, i);
    }
  }

  /** What a single writer's `anchor` does, exactly: it returns the receipt that is there, or
      appends one that points at the last receipt, or refuses and changes nothing. */
  lemma AnchorExact(h: Hasher, streams: Streams, c: Checkpoint, now: Time)
    requires Sound(h, streams)
    ensures var s := Listing(streams, c.stream);
    var (streams', answer) := Anchor(h, streams, c, now);
      && (answer.Err? ==> streams' == streams && answer.error == ImmutableConflict)
      && (answer.Ok? && streams' == streams ==>
            answer.value.checkpoint == c && exists e :: e in s && Read(h, c.stream, e) == answer)
      && (streams' != streams ==>
            && (forall e | e in s :: Read(h, c.stream, e).Ok? && Read(h, c.stream, e).value.checkpoint.id != c.id)
            && Appended(h, s, c, now) && streams' == streams[c.stream := s + [NewEntry(h, s, c, now)]]
            && answer == Read(h, c.stream, NewEntry(h, s, c, now)) && answer.Ok?)
  {
    hide Find, SortBy, ChainOk, Lookup;
    SoundListing(h, streams, c.stream);
    var s := Listing(streams, c.stream);
    ReadableAll(h, c.stream, s);
    FindExact(h, c.stream, s, c);
    LookupExact(s, NameOf(c));
    FreshName(h, c.stream, s, c);
    var (streams', answer) := Anchor(h, streams, c, now);
    match Prepare(h, streams, c, now)
    case Err(_) => FindErrors(h, c.stream, s, c);
    case Ok(Existing(_)) =>
    case Ok(Fresh(p)) =>
      LastInto(s);
      assert p == NewPayload(h, s, c, now);
      assert Read(h, c.stream, NewEntry(h, s, c, now)).Ok?;
  }

  function NewPayload(h: Hasher, s: seq<Entry>, c: Checkpoint, now: Time): Payload {
    Payload(AUDIT_CONTRACT, c, now, if s == [] || s[|s| - 1].file.Damaged? then None else Some(s[|s| - 1].file.hash))
  }

  function NewEntry(h: Hasher, s: seq<Entry>, c: Checkpoint, now: Time): Entry {
    Entry(NameOf(c), Filed(NewPayload(h, s, c, now), h(NewPayload(h, s, c, now))))
  }

  /** The new checkpoint goes beyond the last one. */
  ghost predicate Appended(h: Hasher, s: seq<Entry>, c: Checkpoint, now: Time) {
    s == [] || (s[|s| - 1].file.Filed? && s[|s| - 1].file.payload.checkpoint.through < c.through)
  }

  lemma LastInto(s: seq<Entry>)
    ensures s != [] ==> s[|s| - 1] in s
  {
  }

  lemma FreshName(h: Hasher, key: string, s: seq<Entry>, c: Checkpoint)
    requires SoundStream(h, key, s)
    requires forall e | e in s :: Read(h, key, e).Ok?
    ensures (forall e | e in s :: Read(h, key, e).value.checkpoint.id != c.id) ==> forall e | e in s ::
        e.name != NameOf(c)
  {
    hide ChainOk;
  }

  lemma {:induction false} FindErrors(h: Hasher, key: string, dirs: seq<Entry>, c: Checkpoint)
    requires forall e | e in dirs :: Read(h, key, e).Ok?
    ensures Find(h, key, dirs, c).Err? ==> Find(h, key, dirs, c).error == ImmutableConflict
  {
    hide Read;
    if dirs != [] {
      assert dirs[0] in dirs && forall e | e in dirs[1..] :: e in dirs;
      FindErrors(h, key, dirs[1..], c);
    }
  }

  lemma AnchorKeeps(h: Hasher, streams: Streams, c: Checkpoint, now: Time)
    requires Sound(h, streams)
    ensures Sound(h, Anchor(h, streams, c, now).0) && StreamsGrow(streams, Anchor(h, streams, c, now).0)
  {
    hide Anchor, Dirs, SortBy;
    AnchorExact(h, streams, c, now);
    SoundListing(h, streams, c.stream);
    var s, streams' := Listing(streams, c.stream), Anchor(h, streams, c, now).0;
    if streams' != streams {
      AppendKeeps(h, s, c, now);
      hide SoundStream;
    }
  }

  lemma AppendKeeps(h: Hasher, s: seq<Entry>, c: Checkpoint, now: Time)
    requires SoundStream(h, c.stream, s) && Appended(h, s, c, now)
    requires forall e | e in s :: Read(h, c.stream, e).Ok? && Read(h, c.stream, e).value.checkpoint.id != c.id
    ensures SoundStream(h, c.stream, s + [NewEntry(h, s, c, now)])
  {
    var t := s + [NewEntry(h, s, c, now)];
    forall i | 0 <= i < |t| ensures Linked(h, c.stream, t, i) {
      if i < |s| { assert Linked(h, c.stream, s, i); } else if i > 0 { assert Linked(h, c.stream, s, i - 1); }
    }
    forall i | 0 <= i < |s| ensures Read(h, c.stream, s[i]).value.checkpoint.id != c.id { assert s[i] in s; }
  }

  /** In a sound stream everything readable verifies. */
  lemma SoundVerifies(h: Hasher, streams: Streams, e: Entry, key: string)
    requires Injective(h) && Sound(h, streams) && e in Listing(streams, key)
    ensures Read(h, key, e).Ok? && Read(h, key, e).value.checkpoint.stream == key
        && Verifies(h, streams, Read(h, key, e).value)
  {
    hide Injective, Dirs, Sound, ChainOk;
    SoundListing(h, streams, key);
    var s := Listing(streams, key);
    ReadableAll(h, key, s);
    var r := Read(h, key, e).value;
    var n :| 0 <= n < |s| && s[n] == e;
    forall i | 0 <= i < |s| && Read(h, key, s[i]).Ok? && Read(h, key, s[i]).value.hash == r.hash
      ensures Read(h, key, s[i]) == Ok(r)
    {
      HashIsUnique(h, key, s, i, n);
    }
  }

  // ----- runs of a single writer -----

  datatype Call = Call(checkpoint: Checkpoint, now: Time)

  function AnchorAll(h: Hasher, streams: Streams, calls: seq<Call>): Streams
    decreases |calls|
  {
    if calls == [] then streams
    else AnchorAll(h, Anchor(h, streams, calls[0].checkpoint, calls[0].now).0, calls[1..])
  }

  lemma {:induction false} AnchorAllKeeps(h: Hasher, streams: Streams, calls: seq<Call>)
    requires Sound(h, streams)
    ensures Sound(h, AnchorAll(h, streams, calls)) && StreamsGrow(streams, AnchorAll(h, streams, calls))
    decreases |calls|
  {
    if calls != [] {
      hide Anchor, Sound, Listing;
      AnchorKeeps(h, streams, calls[0].checkpoint, calls[0].now);
      AnchorAllKeeps(h, Anchor(h, streams, calls[0].checkpoint, calls[0].now).0, calls[1..]);
    }
  }

  lemma AnchorLists(h: Hasher, streams: Streams, c: Checkpoint, now: Time) returns (e: Entry)
    requires Sound(h, streams) && Anchor(h, streams, c, now).1.Ok?
    ensures e in Listing(Anchor(h, streams, c, now).0, c.stream) && Read(h, c.stream, e) == Anchor(h, streams, c, now).1
    ensures Anchor(h, streams, c, now).1.value.checkpoint == c
  {
    hide Anchor, Sound;
    AnchorExact(h, streams, c, now);
    var s := Listing(streams, c.stream);
    var (streams', answer) := Anchor(h, streams, c, now);
    if streams' == streams {
      e :| e in s && Read(h, c.stream, e) == answer;
    } else {
      e := NewEntry(h, s, c, now);
    }
  }

  /** Every receipt that `anchor` returned verifies, at once and after any further anchoring. */
  lemma ReceiptsKeepVerifying(h: Hasher, streams: Streams, c: Checkpoint, now: Time, calls: seq<Call>)
    requires Injective(h) && Sound(h, streams) && Anchor(h, streams, c, now).1.Ok?
    ensures var (streams', answer) := Anchor(h, streams, c, now);
      answer.value.checkpoint == c && Verifies(h, streams', answer.value)
        && Verifies(h, AnchorAll(h, streams', calls), answer.value)
  {
    hide Anchor, Sound, Verifies, Injective, AnchorAll;
    var e := AnchorLists(h, streams, c, now);
    AnchorKeeps(h, streams, c, now);
    var streams' := Anchor(h, streams, c, now).0;
    AnchorAllKeeps(h, streams', calls);
    SoundVerifies(h, streams', e, c.stream);
    InPrefix(Listing(streams', c.stream), Listing(AnchorAll(h, streams', calls), c.stream), e);
    SoundVerifies(h, AnchorAll(h, streams', calls), e, c.stream);
  }

  lemma InPrefix(s: seq<Entry>, t: seq<Entry>, e: Entry)
    requires s <= t && e in s
    ensures e in t
  {
    var i :| 0 <= i < |s| && s[i] == e;
    assert t[i] == e;
  }

  /** Anchoring a checkpoint again, however much later, changes nothing and returns its receipt. */
  lemma AnchoringIsIdempotent(h: Hasher, streams: Streams, c: Checkpoint, now: Time, calls: seq<Call>, again: Time)
    requires Sound(h, streams) && Anchor(h, streams, c, now).1.Ok?
    ensures var (streams', answer) := Anchor(h, streams, c, now);
      Anchor(h, AnchorAll(h, streams', calls), c, again) == (AnchorAll(h, streams', calls), answer)
  {
    hide Anchor, Sound, AnchorAll, Dirs;
    var e := AnchorLists(h, streams, c, now);
    AnchorKeeps(h, streams, c, now);
    var streams' := Anchor(h, streams, c, now).0;
    AnchorAllKeeps(h, streams', calls);
    var grown := AnchorAll(h, streams', calls);
    InPrefix(Listing(streams', c.stream), Listing(grown, c.stream), e);
    SoundListing(h, grown, c.stream);
    AnchorFinds(h, grown, c, again, e);
  }

  lemma {:induction false} FindFinds(h: Hasher, key: string, s: seq<Entry>, c: Checkpoint, e: Entry)
    requires IdsOnce(s) && e in s && (forall x | x in s :: Read(h, key, x).Ok?) && Read(h, key, e).value.checkpoint == c
    ensures Find(h, key, s, c) == Ok(Some(Read(h, key, e).value))
  {
    assert s[0] in s && forall x :: x in s <==> x == s[0] || x in s[1..];
    if e != s[0] {
      var k :| 0 <= k < |s| && s[k] == e;
      FindFinds(h, key, s[1..], c, e);
    }
  }

  lemma AnchorFinds(h: Hasher, streams: Streams, c: Checkpoint, now: Time, e: Entry)
    requires Sound(h, streams) && e in Listing(streams, c.stream)
    requires Read(h, c.stream, e).Ok? && Read(h, c.stream, e).value.checkpoint == c
    ensures Anchor(h, streams, c, now) == (streams, Read(h, c.stream, e))
  {
    hide Dirs, Find, ChainOk, IdsOnce, Read;
    SoundListing(h, streams, c.stream);
    ReadableAll(h, c.stream, Listing(streams, c.stream));
    FindFinds(h, c.stream, Listing(streams, c.stream), c, e);
  }

  // ----- when a checkpoint is accepted -----

  /** The very checkpoint has a receipt in the stream. */
  predicate HasCheckpoint(s: seq<Entry>, c: Checkpoint) {
    exists e | e in s :: e.file.Filed? && e.file.payload.checkpoint == c
  }

  predicate HasId(s: seq<Entry>, id: string) {
    exists e | e in s :: e.file.Filed? && e.file.payload.checkpoint.id == id
  }

  /** The checkpoint is new to the stream and goes beyond its last one. */
  predicate Advances(s: seq<Entry>, c: Checkpoint) {
    !HasId(s, c.id)
    && (s == [] || (s[|s| - 1].file.Filed? && s[|s| - 1].file.payload.checkpoint.through < c.through))
  }

  /** A checkpoint is accepted exactly when it is there already, or is new and advances; only then does the
      stream grow, by one receipt that points at the last one. Anything else is a conflict. */
  lemma AnchorAnswersExactly(h: Hasher, streams: Streams, c: Checkpoint, now: Time)
    requires Sound(h, streams)
    ensures var s := Listing(streams, c.stream);
      var (streams', answer) := Anchor(h, streams, c, now);
      && (answer.Ok? <==> HasCheckpoint(s, c) || Advances(s, c))
      && (answer.Err? ==> answer == Err(ImmutableConflict))
      && (streams' != streams <==> Advances(s, c))
      && (HasCheckpoint(s, c) ==>
            exists e :: e in s && e.file.Filed? && e.file.payload.checkpoint == c
                        && answer == Ok(Receipt(c, e.file.payload.anchoredAt, e.file.payload.previous, e.file.hash,
                                                Uri(c.stream, e.name))))
      && (Advances(s, c) ==>
            var previous := if s == [] then None else Some(s[|s| - 1].file.hash);
            var p := Payload("AuditAnchorReceiptV1", c, now, previous);
            && answer == Ok(Receipt(c, now, previous, h(p), Uri(c.stream, Name(c.through, c.id))))
            && streams' == streams[c.stream := s + [Entry(Name(c.through, c.id), Filed(p, h(p)))]])
  {
    hide Sound, SortBy, ChainOk, Find, Lookup, HasId, HasCheckpoint, IdsOnce;
    SoundListing(h, streams, c.stream);
    var s := Listing(streams, c.stream);
    ReadableAll(h, c.stream, s);
    FindDecides(h, c.stream, s, c);
    LookupExact(s, NameOf(c));
    IdFree(h, c.stream, s, c);
    LastInto(s);
    ThereHasId(s, c);
  }

  lemma ThereHasId(s: seq<Entry>, c: Checkpoint)
    ensures HasCheckpoint(s, c) ==> HasId(s, c.id)
  {
  }

  lemma IdFree(h: Hasher, key: string, s: seq<Entry>, c: Checkpoint)
    requires SoundStream(h, key, s)
    ensures !HasId(s, c.id) ==> forall e | e in s :: e.name != NameOf(c)
  {
    hide ChainOk, IdsOnce;
  }

  /** The first loop, in a readable stream without repeated ids. */
  lemma {:induction false} FindDecides(h: Hasher, key: string, s: seq<Entry>, c: Checkpoint)
    requires IdsOnce(s) && (forall e | e in s :: Read(h, key, e).Ok?)
    ensures Find(h, key, s, c) == Ok(None) <==> !HasId(s, c.id)
    ensures HasCheckpoint(s, c) ==>
      exists e :: e in s && e.file.Filed? && e.file.payload.checkpoint == c && Read(h, key, e).Ok?
                  && Find(h, key, s, c) == Ok(Some(Read(h, key, e).value))
    ensures HasId(s, c.id) && !HasCheckpoint(s, c) ==> Find(h, key, s, c) == Err(ImmutableConflict)
  {
    if s != [] {
      var first, rest := s[0], s[1..];
      assert first in s && forall x :: x in s <==> x == first || x in rest;
      assert Read(h, key, first).Ok?;
      FindDecides(h, key, rest, c);
      if first.file.payload.checkpoint.id == c.id {
        forall e | e in rest ensures e.file.Filed? ==> e.file.payload.checkpoint.id != c.id {
          var k :| 0 <= k < |rest| && rest[k] == e;
          assert s[k + 1] == e;
        }
      }
    }
  }

  // ----- when a receipt verifies -----

  /** A file that is what `anchor` writes: of this contract, with the hash of its own payload. */
  predicate Genuine(h: Hasher, e: Entry) {
    e.file.Filed? && e.file.payload.contract == "AuditAnchorReceiptV1" && e.file.hash == h(e.file.payload)
  }

  /** The file holds the receipt. */
  predicate Holds(e: Entry, r: Receipt) {
    && e.file == Filed(Payload("AuditAnchorReceiptV1", r.checkpoint, r.anchoredAt, r.previous), r.hash)
    && r.uri == Uri(r.checkpoint.stream, e.name)
  }

  /** Genuine files only, each with a larger sequence than the one before it and the hash of that one. */
  predicate Unbroken(h: Hasher, dirs: seq<Entry>) {
    && (forall i | 0 <= i < |dirs| :: Genuine(h, dirs[i]))
    && (forall i | 0 <= i < |dirs| :: i == 0 ==> dirs[i].file.payload.previous == None)
    && (forall i | 0 < i < |dirs| :: dirs[i].file.payload.previous == Some(dirs[i - 1].file.hash)
          && dirs[i - 1].file.payload.checkpoint.through < dirs[i].file.payload.checkpoint.through)
  }

  /** Whatever has happened to the files of its stream, a receipt verifies exactly when, taken in the order of their
      numbers, they are an unbroken chain, one of them holds it, and no other receipt has its hash. */
  lemma VerifiesExactly(h: Hasher, streams: Streams, r: Receipt)
    ensures var dirs := Dirs(streams, r.checkpoint.stream);
      && multiset(dirs) == multiset(Listing(streams, r.checkpoint.stream))
      && (forall i, j | 0 <= i < j < |dirs| :: dirs[i].name.number <= dirs[j].name.number)
      && (Verifies(h, streams, r) <==>
          && Unbroken(h, dirs) && (exists i :: 0 <= i < |dirs| && Holds(dirs[i], r))
          && forall i | 0 <= i < |dirs| && dirs[i].file.hash == r.hash :: Holds(dirs[i], r))
  {
    hide SortBy;
    var key := r.checkpoint.stream;
    SortIsSorted(Listing(streams, key), ByNumber);
    var dirs := Dirs(streams, key);
    forall i, j | 0 <= i < j < |dirs| ensures dirs[i].name.number <= dirs[j].name.number {
      assert ByNumber(dirs[i], dirs[j]);
    }
    hide Dirs;
    UnbrokenIsChain(h, key, dirs);
    forall i | 0 <= i < |dirs| && Genuine(h, dirs[i]) ensures Read(h, key, dirs[i]) == Ok(r) <==> Holds(dirs[i], r) {
      HoldsIsRead(h, r, dirs[i]);
    }
    hide ChainOk, Unbroken;
    if Unbroken(h, dirs) { UnbrokenGenuine(h, dirs); }
  }

  lemma UnbrokenGenuine(h: Hasher, dirs: seq<Entry>)
    requires Unbroken(h, dirs)
    ensures forall i | 0 <= i < |dirs| :: Genuine(h, dirs[i])
  {
  }

  lemma HoldsIsRead(h: Hasher, r: Receipt, e: Entry)
    requires Genuine(h, e)
    ensures Read(h, r.checkpoint.stream, e) == Ok(r) <==> Holds(e, r)
  {
  }

  lemma UnbrokenIsChain(h: Hasher, key: string, dirs: seq<Entry>)
    ensures ChainOk(h, key, dirs) <==> Unbroken(h, dirs)
  {
    hide Linked, Genuine;
    forall i | 0 <= i < |dirs|
      ensures Linked(h, key, dirs, i) ==> Genuine(h, dirs[i])
    {
      GenuineIsRead(h, key, dirs, i);
    }
    if forall i | 0 <= i < |dirs| :: Genuine(h, dirs[i]) {
      assert forall k | 0 <= k < |dirs| :: dirs[k].file.Filed? by { UnbrokenFollows(h, dirs); }
      forall i | 0 <= i < |dirs|
        ensures Linked(h, key, dirs, i) <==> Follows(dirs, i)
      {
        GenuineIsRead(h, key, dirs, i);
      }
      UnbrokenFollows(h, dirs);
    } else {
      var i :| 0 <= i < |dirs| && !Genuine(h, dirs[i]);
      assert !Linked(h, key, dirs, i);
    }
  }

  predicate Follows(dirs: seq<Entry>, i: nat)
    requires i < |dirs| && forall k | 0 <= k < |dirs| :: dirs[k].file.Filed?
  {
    if i == 0 then dirs[i].file.payload.previous == None
    else
      && dirs[i].file.payload.previous == Some(dirs[i - 1].file.hash)
      && dirs[i - 1].file.payload.checkpoint.through < dirs[i].file.payload.checkpoint.through
  }

  lemma UnbrokenFollows(h: Hasher, dirs: seq<Entry>)
    requires forall i | 0 <= i < |dirs| :: Genuine(h, dirs[i])
    ensures forall i | 0 <= i < |dirs| :: dirs[i].file.Filed?
    ensures Unbroken(h, dirs) <==> forall i | 0 <= i < |dirs| :: Follows(dirs, i)
  {
    if forall i | 0 <= i < |dirs| :: Follows(dirs, i) {
      forall i | 0 < i < |dirs|
        ensures dirs[i].file.payload.previous == Some(dirs[i - 1].file.hash)
        ensures dirs[i - 1].file.payload.checkpoint.through < dirs[i].file.payload.checkpoint.through
      {
        assert Follows(dirs, i);
      }
      assert dirs != [] ==> Follows(dirs, 0);
    }
  }

  lemma GenuineIsRead(h: Hasher, key: string, dirs: seq<Entry>, i: nat)
    requires i < |dirs|
    ensures Linked(h, key, dirs, i) ==> Genuine(h, dirs[i])
    ensures (forall k | 0 <= k < |dirs| :: Genuine(h, dirs[k])) ==> (Linked(h, key, dirs, i) <==> Follows(dirs, i))
  {
    if i > 0 && Genuine(h, dirs[i - 1]) { assert Read(h, key, dirs[i - 1]).Ok?; }
  }

  /** Sequences strictly increase along every stream, whatever is anchored. */
  lemma SequencesIncrease(h: Hasher, calls: seq<Call>, key: string, i: nat, j: nat)
    requires i < j < |Listing(AnchorAll(h, map[], calls), key)|
    ensures var s := Listing(AnchorAll(h, map[], calls), key);
      && s[i].file.Filed? && s[j].file.Filed?
         && s[i].file.payload.checkpoint.through < s[j].file.payload.checkpoint.through
      && s[i].name.number == s[i].file.payload.checkpoint.through
  {
    hide AnchorAll, Sound;
    NothingIsSound(h);
    AnchorAllKeeps(h, map[], calls);
    var streams := AnchorAll(h, map[], calls);
    SoundListing(h, streams, key);
    ChainAscends(h, key, Listing(streams, key), i, j);
    assert Listing(streams, key)[i] in Listing(streams, key);
  }

  lemma NothingIsSound(h: Hasher)
    ensures Sound(h, map[])
  {
  }

  // ----- two writers -----

  /** Two writers that read the same stream and then both publish. */
  function Race(h: Hasher, streams: Streams, p: Payload, q: Payload): Streams {
    Publish(h, Publish(h, streams, p).0, q).0
  }

  /** Racing writers fork the chain unless they publish under one name: with two names no
      receipt of the stream verifies any more; with one, the second writer publishes nothing. */
  lemma RacingWritersFork(h: Hasher, streams: Streams, a: Checkpoint, b: Checkpoint, now: Time, now': Time)
    requires Injective(h) && Sound(h, streams) && a.stream == b.stream
    requires Prepare(h, streams, a, now).Ok? && Prepare(h, streams, a, now).value.Fresh?
    requires Prepare(h, streams, b, now').Ok? && Prepare(h, streams, b, now').value.Fresh?
    ensures var raced := Race(h, streams, Prepare(h, streams, a, now).value.payload,
        Prepare(h, streams, b, now').value.payload);
      && (ChainOk(h, a.stream, Dirs(raced, a.stream)) <==> NameOf(a) == NameOf(b))
      && (NameOf(a) == NameOf(b) ==> raced == Anchor(h, streams, a, now).0)
      && (NameOf(a) != NameOf(b) ==> forall r: Receipt | r.checkpoint.stream == a.stream :: !Verifies(h, raced, r))
  {
    hide Dirs, Find, Sound, Injective, ChainOk, Read, Lookup;
    var p, q := Prepare(h, streams, a, now).value.payload, Prepare(h, streams, b, now').value.payload;
    var s, key := Listing(streams, a.stream), a.stream;
    assert p.previous == q.previous && p.checkpoint == a && q.checkpoint == b;
    assert Anchor(h, streams, a, now).0 == Publish(h, streams, p).0;
    AnchorKeeps(h, streams, a, now);
    var after := Publish(h, streams, p).0;
    SoundListing(h, after, key);
    PreparedFresh(h, streams, a, now);
    PreparedFresh(h, streams, b, now');
    PublishFresh(h, streams, p);
    LookupMore(s, Entry(NameOf(a), Filed(p, h(p))), NameOf(b));
    if NameOf(a) != NameOf(b) {
      var raced := Race(h, streams, p, q);
      assert Listing(raced, key) == s + [Entry(NameOf(a), Filed(p, h(p)))] + [Entry(NameOf(b), Filed(q, h(q)))];
      Forked(h, key, s, p, q, raced);
    }
  }

  /** What racing writers are told: each of two names its own receipt, though the chain is broken; under one name the
      second writer gets the first one's receipt for the same checkpoint, and a conflict for another. */
  lemma RacingAnswers(h: Hasher, streams: Streams, a: Checkpoint, b: Checkpoint, now: Time, now': Time)
    requires Sound(h, streams) && a.stream == b.stream
    requires Prepare(h, streams, a, now).Ok? && Prepare(h, streams, a, now).value.Fresh?
    requires Prepare(h, streams, b, now').Ok? && Prepare(h, streams, b, now').value.Fresh?
    ensures var p, q := Prepare(h, streams, a, now).value.payload, Prepare(h, streams, b, now').value.payload;
      var (after, first) := Publish(h, streams, p);
      && first == Ok(Receipt(a, now, p.previous, h(p), Uri(a.stream, Name(a.through, a.id))))
      && Publish(h, after, q).1
         == (if a.through != b.through || a.id != b.id
             then Ok(Receipt(b, now', q.previous, h(q), Uri(b.stream, Name(b.through, b.id))))
             else if a == b then first else Err(ImmutableConflict))
  {
    hide Dirs, Find, Sound, Lookup;
    var p, q := Prepare(h, streams, a, now).value.payload, Prepare(h, streams, b, now').value.payload;
    var s := Listing(streams, a.stream);
    PreparedFresh(h, streams, a, now);
    PreparedFresh(h, streams, b, now');
    PublishFresh(h, streams, p);
    LookupMore(s, Entry(NameOf(a), Filed(p, h(p))), NameOf(b));
  }

  /** For example: on an empty stream, two writers anchor a first and a second checkpoint at the
      same time, and neither receipt verifies. */
  lemma ForkExample(h: Hasher, r: Receipt)
    requires Injective(h) && r.checkpoint.stream == "audit"
    ensures var a, b := Checkpoint("first", "audit", 1, 7, 0), Checkpoint("second", "audit", 2, 8, 0);
      var p, q := Payload(AUDIT_CONTRACT, a, 0, None), Payload(AUDIT_CONTRACT, b, 0, None);
      && Prepare(h, map[], a, 0) == Ok(Fresh(p)) && Prepare(h, map[], b, 0) == Ok(Fresh(q))
      && !Verifies(h, Race(h, map[], p, q), r)
  {
    var a, b := Checkpoint("first", "audit", 1, 7, 0), Checkpoint("second", "audit", 2, 8, 0);
    NothingIsSound(h);
    assert NameOf(a) != NameOf(b);
    RacingWritersFork(h, map[], a, b, 0, 0);
  }

  lemma PreparedFresh(h: Hasher, streams: Streams, c: Checkpoint, now: Time)
    requires Sound(h, streams) && Prepare(h, streams, c, now).Ok? && Prepare(h, streams, c, now).value.Fresh?
    ensures Lookup(Listing(streams, c.stream), NameOf(c)) == None
    ensures Prepare(h, streams, c, now).value.payload.contract == AUDIT_CONTRACT
  {
    hide Dirs, Find, ChainOk, Lookup;
    SoundListing(h, streams, c.stream);
    var s := Listing(streams, c.stream);
    ReadableAll(h, c.stream, s);
    FindExact(h, c.stream, s, c);
    FreshName(h, c.stream, s, c);
    LookupExact(s, NameOf(c));
  }

  lemma PublishFresh(h: Hasher, streams: Streams, p: Payload)
    requires Lookup(Listing(streams, p.checkpoint.stream), NameOf(p.checkpoint)) == None
    ensures Listing(Publish(h, streams, p).0, p.checkpoint.stream)
         == Listing(streams, p.checkpoint.stream) + [Entry(NameOf(p.checkpoint), Filed(p, h(p)))]
  {
  }

  lemma {:induction false} LookupMore(s: seq<Entry>, e: Entry, name: Name)
    ensures Lookup(s, name) == None ==> Lookup(s + [e], name) == if e.name == name then Some(e) else None
  {
    if s != [] {
      assert (s + [e])[1..] == s[1..] + [e];
      LookupMore(s[1..], e, name);
    }
  }

  /** Two different entries with the same predecessor break the chain. */
  lemma Forked(h: Hasher, key: string, s: seq<Entry>, p: Payload, q: Payload, streams: Streams)
    requires Injective(h) && p.previous == q.previous && NameOf(p.checkpoint) != NameOf(q.checkpoint)
    requires p.contract == AUDIT_CONTRACT && q.contract == AUDIT_CONTRACT
    requires Listing(streams, key)
        == s + [Entry(NameOf(p.checkpoint), Filed(p, h(p)))] + [Entry(NameOf(q.checkpoint), Filed(q, h(q)))]
    ensures !ChainOk(h, key, Dirs(streams, key))
  {
    hide ChainOk, Injective, SortBy;
    var e, f := Entry(NameOf(p.checkpoint), Filed(p, h(p))), Entry(NameOf(q.checkpoint), Filed(q, h(q)));
    var t, dirs := Listing(streams, key), Dirs(streams, key);
    assert t[|s|] == e && t[|s| + 1] == f;
    SameElements(t, dirs);
    assert e in dirs && f in dirs;
    var i: nat :| i < |dirs| && dirs[i] == e;
    var j: nat :| j < |dirs| && dirs[j] == f;
    if ChainOk(h, key, dirs) { PredecessorIsUnique(h, key, dirs, i, j); }
  }
}
