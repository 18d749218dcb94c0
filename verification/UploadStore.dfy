/** The transfer manager's upload half as it is written: files and records changed step by step,
    with early returns. Each method makes exactly the change that Uploads names for its id, and
    none for any other id. */
module UploadStore {
  import opened Common
  import opened Uploads
  import U = Uploads

  class TransferManager {
    const options: Options
    // uploads/*.part, uploads/*.json, artifacts/<id>-<name> and artifacts/*.json
    var parts: map<UploadId, Bytes>
    var metas: map<UploadId, Record>
    var files: map<UploadId, Bytes>
    var artifacts: map<UploadId, Artifact>
    ghost var log: map<UploadId, seq<Bytes>>
    ghost var used: set<UploadId>

    constructor (options: Options)
      ensures this.options == options && forall id :: SlotOf(id) == UNUSED
    {
      this.options := options;
      parts, metas, files, artifacts, log, used := map[], map[], map[], map[], map[], {};
    }

    /** Everything kept for one id. */
    ghost function SlotOf(id: UploadId): Slot
      reads this
    {
      Slot(Get(parts, id), Get(metas, id), Get(files, id), Get(artifacts, id),
           if id in log then log[id] else [], id in used)
    }

    twostate predicate OthersKept(id: UploadId)
      reads this
    {
      forall k :: k != id ==> SlotOf(k) == old(SlotOf(k))
    }

    method RemoveFiles(id: UploadId, removal: Removal)
      modifies this`parts, this`metas
      ensures SlotOf(id) == RemoveUpload(old(SlotOf(id)), removal) && OthersKept(id)
    {
      if removal.data { parts := parts - {id}; }
      if removal.meta { metas := metas - {id}; }
    }

    method LoadUpload(id: UploadId, now: int, removal: Removal) returns (r: Result<Record, Error>)
      modifies this`parts, this`metas
      ensures r == LoadReply(options, old(SlotOf(id)), now)
      ensures SlotOf(id) == AfterLoad(options, old(SlotOf(id)), now, removal) && OthersKept(id)
    {
      if id !in metas { return Err(NotFound); }
      var record := metas[id];
      if now > record.updatedAt + options.uploadTtl {
        RemoveFiles(id, removal);
        return Err(Expired);
      }
      return Ok(record);
    }

    method CreateUpload(id: UploadId, c: Creation) returns (r: Result<Record, Error>)
      requires id !in used && SlotOf(id) == UNUSED
      modifies this
      ensures (SlotOf(id), r) == Create(options, old(SlotOf(id)), id, c) && OthersKept(id)
    {
      if c.name.None? { return Err(NameOrDigestInvalid); }
      if c.size < 0 { return Err(NegativeSize); }
      if c.size > options.maxUpload { return Err(TooLarge); }
      if c.sha.None? { return Err(NameOrDigestInvalid); }
      used := used + {id};
      if !c.created { return Err(IoError); }
      parts := parts[id := []];
      if !c.saved {
        if c.cleaned { parts := parts - {id}; }
        return Err(IoError);
      }
      var record := Record(id, c.name.value, c.size, 0, c.sha.value, c.now);
      metas := metas[id := record];
      return Ok(record);
    }

    /** The deferred way out of a failed WriteChunk. */
    method Rollback(id: UploadId, start: nat, truncated: bool)
      modifies this`parts
      ensures SlotOf(id) == RollBack(old(SlotOf(id)), start, truncated) && OthersKept(id)
    {
      if truncated && id in parts { parts := parts[id := Truncate(parts[id], start)]; }
    }

    method WriteChunk(id: UploadId, range: Range, body: Bytes, f: ChunkFate) returns (r: Result<Record, Error>)
      requires ValidRange(range)
      modifies this
      ensures (SlotOf(id), r) == U.WriteChunk(options, old(SlotOf(id)), range, body, f) && OthersKept(id)
    {
      hide WriteAt, Truncate, Copied, RollBack, RemoveUpload;
      var length := range.end - range.start + 1;
      if length > options.maxChunk { return Err(TooLarge); }
      var loaded := LoadUpload(id, f.now, f.removal);
      if loaded.Err? { return Err(loaded.error); }
      var record := loaded.value;
      if range.total != record.total || range.start != record.received || range.end >= record.total {
        return Err(OffsetConflict);
      }
      if !f.reached || id !in parts { return Err(IoError); }
      r := WriteOpened(id, record, range.start, length, body, f);
    }

    /** CopyN at the offset the file was positioned at. */
    method CopyIn(id: UploadId, start: nat, data: Bytes)
      requires id in parts
      modifies this`parts
      ensures SlotOf(id) == old(SlotOf(id).(part := Some(WriteAt(parts[id], start, data)))) && OthersKept(id)
    {
      parts := parts[id := WriteAt(parts[id], start, data)];
    }

    /** The chunk's offset is saved. */
    method Commit(id: UploadId, grown: Record, chunk: Bytes)
      modifies this`metas, this`log
      ensures SlotOf(id) == old(SlotOf(id).(meta := Some(grown), log := SlotOf(id).log + [chunk])) && OthersKept(id)
    {
      metas := metas[id := grown];
      log := log[id := (if id in log then log[id] else []) + [chunk]];
    }

    /** WriteChunk once the data file is open and positioned. */
    method WriteOpened(id: UploadId, record: Record, start: nat, length: nat, body: Bytes, f: ChunkFate)
      returns (r: Result<Record, Error>)
      requires id in parts && id in metas && metas[id] == record
      modifies this
      ensures (SlotOf(id), r) == Opened(old(SlotOf(id)), record, start, length, body, f) && OthersKept(id)
    {
      hide WriteAt, Truncate, RollBack;
      var n := Copied(length, body, f.copied);
      CopyIn(id, start, body[..n]);
      if f.dies { return Err(Died); }
      if n < length {
        Rollback(id, start, f.truncated);
        return Err(ShortChunk);
      }
      if |body| > length || !f.ended {
        Rollback(id, start, f.truncated);
        return Err(LongChunk);
      }
      if !f.synced || !f.saved {
        Rollback(id, start, f.truncated);
        return Err(IoError);
      }
      var grown := record.(received := record.received + n, updatedAt := f.now);
      Commit(id, grown, body[..n]);
      return Ok(grown);
    }

    method CompleteUpload(id: UploadId, sha: Bytes -> string, f: CompleteFate) returns (r: Result<Artifact, Error>)
      modifies this
      ensures (SlotOf(id), r) == Complete(options, old(SlotOf(id)), sha, f) && OthersKept(id)
    {
      hide Publish, RemoveUpload;
      var loaded := LoadUpload(id, f.now, f.removal);
      if loaded.Err? { return Err(loaded.error); }
      var record := loaded.value;
      if record.received != record.total { return Err(Incomplete); }
      if !f.hashed || id !in parts { return Err(IoError); }
      var actual := sha(parts[id]);
      if record.sha != "" && record.sha != actual { return Err(HashMismatch); }
      if !f.renamed { return Err(IoError); }
      r := PublishPart(id, record, actual, f);
    }

    method RenameToArtifacts(id: UploadId)
      requires id in parts
      modifies this`parts, this`files
      ensures SlotOf(id) == old(SlotOf(id).(file := SlotOf(id).part, part := None)) && OthersKept(id)
    {
      files, parts := files[id := parts[id]], parts - {id};
    }

    method RenameBack(id: UploadId)
      requires SlotOf(id).file.Some?
      modifies this`parts, this`files
      ensures SlotOf(id) == old(SlotOf(id).(part := SlotOf(id).file, file := None)) && OthersKept(id)
    {
      parts, files := parts[id := files[id]], files - {id};
    }

    method SaveArtifact(id: UploadId, artifact: Artifact)
      modifies this`artifacts
      ensures SlotOf(id) == old(SlotOf(id).(artifact := Some(artifact))) && OthersKept(id)
    {
      artifacts := artifacts[id := artifact];
    }

    /** CompleteUpload from the rename on. */
    method PublishPart(id: UploadId, record: Record, digest: string, f: CompleteFate) returns (r: Result<Artifact, Error>)
      requires SlotOf(id).part.Some? && SlotOf(id).meta == Some(record)
      modifies this
      ensures (SlotOf(id), r) == Publish(options, old(SlotOf(id)), record, digest, f) && OthersKept(id)
    {
      RenameToArtifacts(id);
      hide SlotOf;
      if f.death == AfterRename { return Err(Died); }
      var artifact := Artifact(record.id, record.name, record.total, digest, f.now + options.artifactTtl);
      if !f.saved {
        if f.renamedBack { RenameBack(id); }
        return Err(IoError);
      }
      SaveArtifact(id, artifact);
      if f.death == AfterSave { return Err(Died); }
      RemoveFiles(id, Removal(false, f.metaRemoved));
      return Ok(artifact);
    }

    method CancelUpload(id: UploadId, now: int, removal: Removal) returns (r: Result<(), Error>)
      modifies this
      ensures (SlotOf(id), r) == U.CancelUpload(options, old(SlotOf(id)), now, removal) && OthersKept(id)
    {
      var loaded := LoadUpload(id, now, removal);
      if loaded.Err? { return Err(loaded.error); }
      var partStays := !removal.data && id in parts;
      RemoveFiles(id, removal);
      if partStays || !removal.meta { return Err(IoError); }
      return Ok(());
    }

    /** The first half of cleanupExpired: every expired upload goes. */
    method CleanupUploads(now: int, removals: UploadId -> Removal)
      modifies this`parts, this`metas
      ensures forall id :: SlotOf(id) == AfterLoad(options, old(SlotOf(id)), now, removals(id))
    {
      hide RemoveUpload;
      var left := metas.Keys;
      while left != {}
        invariant forall id :: SlotOf(id) == if id in left then old(SlotOf(id))
                                             else AfterLoad(options, old(SlotOf(id)), now, removals(id))
      {
        var id :| id in left;
        var _ := LoadUpload(id, now, removals(id));
        left := left - {id};
      }
    }

    method ExpireOne(id: UploadId, now: int, removal: Removal)
      modifies this`files, this`artifacts
      ensures SlotOf(id) == ExpireArtifact(old(SlotOf(id)), now, removal) && OthersKept(id)
    {
      if id in artifacts && now > artifacts[id].expiresAt {
        if removal.data { files := files - {id}; }
        if removal.meta { artifacts := artifacts - {id}; }
      }
    }

    /** The second half of cleanupExpired: every expired artifact goes. */
    method CleanupArtifacts(now: int, removals: UploadId -> Removal)
      modifies this`files, this`artifacts
      ensures forall id :: SlotOf(id) == ExpireArtifact(old(SlotOf(id)), now, removals(id))
    {
      var left := artifacts.Keys;
      while left != {}
        invariant forall id :: SlotOf(id) == if id in left then old(SlotOf(id))
                                             else ExpireArtifact(old(SlotOf(id)), now, removals(id))
      {
        var id :| id in left;
        ExpireOne(id, now, removals(id));
        left := left - {id};
      }
    }
  }

  function Get<T>(m: map<UploadId, T>, id: UploadId): Option<T> {
    if id in m then Some(m[id]) else None
  }
}
