/** `FilesystemAuditAnchor` with its directory tree as a field (apps/api/storage/filesystem.py): the
    loops of `anchor` and `verify`. */
module StorageAnchor {
  import opened Basics
  import opened StorageAudit

  class FilesystemAuditAnchor {
    const h: Hasher
    var streams: Streams

    constructor (hasher: Hasher)
      ensures h == hasher && streams == map[] && Sound(h, streams)
    {
      h, streams := hasher, map[];
    }

    /** A single writer's call; Sound is what single-writer calls keep (StorageAudit.AnchorKeeps). */
    method AnchorCheckpoint(c: Checkpoint, now: Time) returns (answer: Result<Receipt, AuditError>)
      modifies this
      ensures (streams, answer) == Anchor(h, old(streams), c, now)
      ensures old(Sound(h, streams)) ==> Sound(h, streams)
    {
      hide Sound, SortBy, Lookup;
      ghost var before := streams;
      if Sound(h, streams) { AnchorKeeps(h, streams, c, now); }
      var dirs := Dirs(streams, c.stream);
      for i := 0 to |dirs|
        invariant streams == before && Find(h, c.stream, dirs, c) == Find(h, c.stream, dirs[i..], c)
      {
        assert dirs[i..][0] == dirs[i] && dirs[i..][1..] == dirs[i + 1..];
        var existing := Read(h, c.stream, dirs[i]);
        if existing.Err? { return Err(existing.error); }
        if existing.value.checkpoint.id == c.id {
          if existing.value.checkpoint != c { return Err(ImmutableConflict); }
          return Ok(existing.value);
        }
      }
      var previous: Option<Hash> := None;
      if |dirs| > 0 {
        var last := Read(h, c.stream, dirs[|dirs| - 1]);
        if last.Err? { return Err(last.error); }
        if c.through <= last.value.checkpoint.through { return Err(ImmutableConflict); }
        previous := Some(last.value.hash);
      }
      var payload := Payload(AUDIT_CONTRACT, c, now, previous);
      var result := Publish(h, streams, payload);
      streams := result.0;
      return result.1;
    }

    /** `verify` accepts exactly the receipts that are in an unbroken chain, and only with the
        expected chain hash if one is given. */
    method Verify(r: Receipt, expected: Option<Hash>) returns (answer: Result<bool, AuditError>)
      ensures answer.Ok? <==> (expected.None? || r.checkpoint.chainHash == expected.value) && Verifies(h, streams, r)
      ensures answer.Ok? ==> answer.value
      ensures answer.Err? ==> answer.error == IntegrityError
    {
      hide SortBy, Read;
      if expected.Some? && r.checkpoint.chainHash != expected.value { return Err(IntegrityError); }
      var key := r.checkpoint.stream;
      var dirs := Dirs(streams, key);
      var previous: Option<Hash>, found, last: int := None, false, -1;
      for i := 0 to |dirs|
        invariant forall k | 0 <= k < i :: Linked(h, key, dirs, k)
        invariant forall k | 0 <= k < i && Read(h, key, dirs[k]).Ok? && Read(h, key, dirs[k]).value.hash == r.hash ::
            Read(h, key, dirs[k]) == Ok(r)
        invariant found <==> exists k :: 0 <= k < i && Read(h, key, dirs[k]) == Ok(r)
        invariant i == 0 ==> previous == None && last == -1
        invariant i > 0 ==> Read(h, key, dirs[i - 1]).Ok? && previous == Some(Read(h, key, dirs[i - 1]).value.hash)
        invariant i > 0 ==> last == Read(h, key, dirs[i - 1]).value.checkpoint.through
      {
        var current := Read(h, key, dirs[i]);
        if current.Err? { assert !Linked(h, key, dirs, i); return Err(IntegrityError); }
        if current.value.checkpoint.through <= last { assert !Linked(h, key, dirs, i); return Err(IntegrityError); }
        if current.value.previous != previous { assert !Linked(h, key, dirs, i); return Err(IntegrityError); }
        if current.value.hash == r.hash {
          if current.value != r { return Err(IntegrityError); }
          found := true;
        }
        assert Linked(h, key, dirs, i);
        previous, last := Some(current.value.hash), current.value.checkpoint.through;
      }
      if !found { return Err(IntegrityError); }
      return Ok(true);
    }
  }
}
