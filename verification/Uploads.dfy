/** The resumable upload protocol for one transfer id: chunks appended to a data file, an offset
    kept in a separate metadata file, rollback by truncation, and publication by rename. Every
    system call may fail, and the process may die between any two of them. Operations on one id
    never touch another id's files, and the per-id lock keeps them from overlapping. */
module Uploads {
  import opened Common

  type UploadId = string

  datatype Record = Record(id: UploadId, name: string, total: int, received: int, sha: string, updatedAt: int)
  datatype Artifact = Artifact(id: UploadId, name: string, size: int, sha: string, expiresAt: int)
  datatype Options = Options(maxUpload: int, maxChunk: int, uploadTtl: int, artifactTtl: int)

  /** Everything the spool directories hold for one id. `log` and `used` are history: the chunks
      whose offset was saved, and whether the id was handed out. */
  datatype Slot = Slot(part: Option<Bytes>, meta: Option<Record>, file: Option<Bytes>,
                       artifact: Option<Artifact>, log: seq<Bytes>, used: bool)

  const UNUSED := Slot(None, None, None, None, [], false)

  datatype Error =
    | NameOrDigestInvalid | NegativeSize | TooLarge | NotFound | Expired | OffsetConflict
    | ShortChunk | LongChunk | IoError | Incomplete | HashMismatch | Died

  /** The committed chunks, end to end. */
  function Join(chunks: seq<Bytes>): Bytes {
    if chunks == [] then [] else Join(chunks[..|chunks| - 1]) + chunks[|chunks| - 1]
  }

  function Zeros(n: nat): (z: Bytes)
    ensures |z| == n
  {
    seq(n, i => 0)
  }

  /** A write at an offset: later bytes stay, and a gap reads as zeros. */
  function WriteAt(file: Bytes, start: nat, data: Bytes): Bytes {
    (if start <= |file| then file[..start] else file + Zeros(start - |file|))
    + data + (if start + |data| <= |file| then file[start + |data|..] else [])
  }

  function Truncate(file: Bytes, size: nat): Bytes {
    if size <= |file| then file[..size] else file + Zeros(size - |file|)
  }

  // ----- The operations -----

  /** Which of two removals go through. */
  datatype Removal = Removal(data: bool, meta: bool)

  predicate UploadExpired(o: Options, record: Record, now: int) { now > record.updatedAt + o.uploadTtl }

  function RemoveUpload(s: Slot, r: Removal): Slot {
    s.(part := if r.data then None else s.part, meta := if r.meta then None else s.meta)
  }

  /** loadUpload deletes what it finds expired. */
  function AfterLoad(o: Options, s: Slot, now: int, r: Removal): Slot {
    if s.meta.Some? && UploadExpired(o, s.meta.value, now) then RemoveUpload(s, r) else s
  }

  function LoadReply(o: Options, s: Slot, now: int): Result<Record, Error> {
    if s.meta.None? then Err(NotFound)
    else if UploadExpired(o, s.meta.value, now) then Err(Expired)
    else Ok(s.meta.value)
  }

  /** What safeFilename and normalizeSHA256 made of the arguments arrives as `name` and `sha`. */
  datatype Creation = Creation(name: Option<string>, size: int, sha: Option<string>, now: int,
                               created: bool, saved: bool, cleaned: bool)

  function Create(o: Options, s: Slot, id: UploadId, c: Creation): (Slot, Result<Record, Error>) {
    if c.name.None? then (s, Err(NameOrDigestInvalid))
    else if c.size < 0 then (s, Err(NegativeSize))
    else if c.size > o.maxUpload then (s, Err(TooLarge))
    else if c.sha.None? then (s, Err(NameOrDigestInvalid))
    else if !c.created then (s.(used := true), Err(IoError))
    else if !c.saved then (s.(used := true, part := if c.cleaned then None else Some([])), Err(IoError))
    else
      var record := Record(id, c.name.value, c.size, 0, c.sha.value, c.now);
      (s.(used := true, part := Some([]), meta := Some(record)), Ok(record))
  }

  /** A parsed Content-Range header. */
  datatype Range = Range(start: int, end: int, total: int)

  predicate ValidRange(r: Range) { 0 <= r.start <= r.end < r.total }

  /** How the system calls of one WriteChunk turn out. `copied` bounds the bytes CopyN moves, and
      a process that dies does so right after them; `ended` says that a body without a further byte
      ends cleanly. */
  datatype ChunkFate = ChunkFate(now: int, removal: Removal, reached: bool, copied: nat, dies: bool,
                                 ended: bool, synced: bool, saved: bool, truncated: bool)

  /** Bytes that reach the file: the whole chunk, or what a short body or a failure leaves of it. */
  function Copied(length: nat, body: Bytes, copied: nat): nat {
    if copied < length && copied < |body| then copied
    else if |body| < length then |body|
    else length
  }

  /** The failure path: the file is cut back to where the chunk started, if that works. */
  function RollBack(s: Slot, start: nat, truncated: bool): Slot {
    if truncated && s.part.Some? then s.(part := Some(Truncate(s.part.value, start))) else s
  }

  /** WriteChunk once the data file is open and positioned. */
  function Opened(s: Slot, record: Record, start: nat, length: nat, body: Bytes, f: ChunkFate)
    : (Slot, Result<Record, Error>)
    requires s.part.Some?
  {
    var n := Copied(length, body, f.copied);
    var written := s.(part := Some(WriteAt(s.part.value, start, body[..n])));
    if f.dies then (written, Err(Died))
    else if n < length then (RollBack(written, start, f.truncated), Err(ShortChunk))
    else if |body| > length || !f.ended then (RollBack(written, start, f.truncated), Err(LongChunk))
    else if !f.synced || !f.saved then (RollBack(written, start, f.truncated), Err(IoError))
    else
      var grown := record.(received := record.received + length, updatedAt := f.now);
      (written.(meta := Some(grown), log := s.log + [body[..length]]), Ok(grown))
  }

  function WriteChunk(o: Options, s: Slot, r: Range, body: Bytes, f: ChunkFate): (Slot, Result<Record, Error>)
    requires ValidRange(r)
  {
    var length := r.end - r.start + 1;
    var s1 := AfterLoad(o, s, f.now, f.removal);
    if length > o.maxChunk then (s, Err(TooLarge))
    else if LoadReply(o, s, f.now).Err? then (s1, Err(LoadReply(o, s, f.now).error))
    else
      var record := s.meta.value;
      if r.total != record.total || r.start != record.received || r.end >= record.total then (s, Err(OffsetConflict))
      else if !f.reached || s.part.None? then (s, Err(IoError))
      else Opened(s, record, r.start, length, body, f)
  }

  /** Where a process dies inside CompleteUpload. */
  datatype Death = Survives | AfterRename | AfterSave

  datatype CompleteFate = CompleteFate(now: int, removal: Removal, hashed: bool, renamed: bool, saved: bool,
                                       renamedBack: bool, metaRemoved: bool, death: Death)

  function Complete(o: Options, s: Slot, sha: Bytes -> string, f: CompleteFate): (Slot, Result<Artifact, Error>) {
    if LoadReply(o, s, f.now).Err? then (AfterLoad(o, s, f.now, f.removal), Err(LoadReply(o, s, f.now).error))
    else
      var record := s.meta.value;
      if record.received != record.total then (s, Err(Incomplete))
      else if !f.hashed || s.part.None? then (s, Err(IoError))
      else if record.sha != "" && record.sha != sha(s.part.value) then (s, Err(HashMismatch))
      else if !f.renamed then (s, Err(IoError))
      else Publish(o, s, record, sha(s.part.value), f)
  }

  /** CompleteUpload from the rename on. */
  function Publish(o: Options, s: Slot, record: Record, digest: string, f: CompleteFate)
    : (Slot, Result<Artifact, Error>)
  {
    var moved := s.(file := s.part, part := None);
    if f.death.AfterRename? then (moved, Err(Died))
    else if !f.saved then (if f.renamedBack then s.(file := None) else moved, Err(IoError))
    else
      var artifact := Artifact(record.id, record.name, record.total, digest, f.now + o.artifactTtl);
      var published := moved.(artifact := Some(artifact));
      if f.death.AfterSave? then (published, Err(Died))
      else (published.(meta := if f.metaRemoved then None else s.meta), Ok(artifact))
  }

  function CancelUpload(o: Options, s: Slot, now: int, removal: Removal): (Slot, Result<(), Error>) {
    var s1 := AfterLoad(o, s, now, removal);
    if LoadReply(o, s, now).Err? then (s1, Err(LoadReply(o, s, now).error))
    else if (!removal.data && s.part.Some?) || !removal.meta then (RemoveUpload(s, removal), Err(IoError))
    else (RemoveUpload(s, removal), Ok(()))
  }

  /** loadArtifact and the clean-up delete an expired artifact. */
  function ExpireArtifact(s: Slot, now: int, r: Removal): Slot {
    if s.artifact.Some? && now > s.artifact.value.expiresAt
    then s.(file := if r.data then None else s.file, artifact := if r.meta then None else s.artifact)
    else s
  }

  /** What the machine may find in the data file after losing power: all that was synced before an
      offset was saved, and beyond it anything a write may have left. */
  ghost predicate Torn(s: Slot, torn: Bytes) {
    && s.part.Some? && s.meta.Some?
    && 0 <= s.meta.value.received <= |s.part.value| && s.meta.value.received <= |torn| <= s.meta.value.total
    && torn[..s.meta.value.received] == s.part.value[..s.meta.value.received]
  }

  // ----- Runs -----

  datatype Event =
    | ECreate(id: UploadId, creation: Creation)
    | EWrite(range: Range, body: Bytes, chunk: ChunkFate)
    | EComplete(completion: CompleteFate)
    | ECancel(now: int, removal: Removal)
    | EExpireUpload(now: int, removal: Removal)
    | EExpireArtifact(now: int, removal: Removal)
    | EPowerLoss(torn: Bytes)

  ghost predicate Enabled(s: Slot, e: Event) {
    match e
    case ECreate(_, _) => !s.used                     // ids are fresh random numbers
    case EWrite(range, _, _) => ValidRange(range)     // what parseContentRange lets through
    case EPowerLoss(torn) => Torn(s, torn)
    case _ => true
  }

  ghost function Next(o: Options, s: Slot, sha: Bytes -> string, e: Event): Slot
    requires Enabled(s, e)
  {
    match e
    case ECreate(id, c) => Create(o, s, id, c).0
    case EWrite(range, body, f) => WriteChunk(o, s, range, body, f).0
    case EComplete(f) => Complete(o, s, sha, f).0
    case ECancel(now, removal) => CancelUpload(o, s, now, removal).0
    case EExpireUpload(now, removal) => AfterLoad(o, s, now, removal)
    case EExpireArtifact(now, removal) => ExpireArtifact(s, now, removal)
    case EPowerLoss(torn) => s.(part := Some(torn))
  }

  ghost predicate Legal(o: Options, s: Slot, sha: Bytes -> string, es: seq<Event>)
    decreases |es|
  {
    es == [] || (Enabled(s, es[0]) && Legal(o, Next(o, s, sha, es[0]), sha, es[1..]))
  }

  ghost function Exec(o: Options, s: Slot, sha: Bytes -> string, es: seq<Event>): Slot
    requires Legal(o, s, sha, es)
    decreases |es|
  {
    if es == [] then s else Exec(o, Next(o, s, sha, es[0]), sha, es[1..])
  }

  // ----- The invariant -----

  /** The data file starts with the committed chunks, in order; what follows is leftover. */
  ghost predicate Inv(s: Slot, sha: Bytes -> string) {
    && (!s.used ==> s == UNUSED)
    && (s.meta.Some? ==>
          && 0 <= s.meta.value.received <= s.meta.value.total
          && |Join(s.log)| == s.meta.value.received
          && (s.part.Some? ==>
                && s.meta.value.received <= |s.part.value| <= s.meta.value.total
                && s.part.value[..s.meta.value.received] == Join(s.log))
          && (s.file.Some? || s.artifact.Some? ==> s.meta.value.received == s.meta.value.total))
    && (s.file.Some? ==> s.part.None? && s.file.value == Join(s.log))
    && (s.artifact.Some? ==>
          s.part.None? && s.artifact.value.size == |Join(s.log)| && s.artifact.value.sha == sha(Join(s.log)))
  }

  lemma JoinAppend(chunks: seq<Bytes>, chunk: Bytes)
    ensures Join(chunks + [chunk]) == Join(chunks) + chunk
  {
    assert (chunks + [chunk])[..|chunks|] == chunks;
  }

  /** Writing at the saved offset keeps everything before it, and stays within the total. */
  lemma WriteAtKeeps(file: Bytes, start: nat, data: Bytes, total: nat)
    requires start <= |file| <= total && start + |data| <= total
    ensures var w := WriteAt(file, start, data);
            && start + |data| <= |w| <= total
            && w[..start] == file[..start]
            && w[..start + |data|] == file[..start] + data
            && Truncate(w, start) == file[..start]
  {}

  lemma CopiedFits(length: nat, body: Bytes, copied: nat)
    ensures var n := Copied(length, body, copied); n <= length && n <= |body|
  {}

  /** A chunk at the saved offset keeps the invariant, whichever way it ends. */
  lemma OpenedKeeps(s: Slot, sha: Bytes -> string, record: Record, start: nat, length: nat, body: Bytes, f: ChunkFate)
    requires Inv(s, sha) && s.part.Some? && s.meta == Some(record)
    requires start == record.received && start + length <= record.total
    ensures Inv(Opened(s, record, start, length, body, f).0, sha)
  {
    var n := Copied(length, body, f.copied);
    CopiedFits(length, body, f.copied);
    hide WriteAt, Truncate, Copied, Join;
    WriteAtKeeps(s.part.value, start, body[..n], record.total);
    if n == length { JoinAppend(s.log, body[..length]); }
  }

  lemma RemovalKeeps(s: Slot, sha: Bytes -> string, r: Removal)
    requires Inv(s, sha)
    ensures Inv(RemoveUpload(s, r), sha)
  {
    hide Join;
  }

  lemma WriteKeeps(o: Options, s: Slot, sha: Bytes -> string, r: Range, body: Bytes, f: ChunkFate)
    requires Inv(s, sha) && ValidRange(r)
    ensures Inv(WriteChunk(o, s, r, body, f).0, sha)
  {
    hide Inv, Opened, RemoveUpload;
    RemovalKeeps(s, sha, f.removal);
    var length := r.end - r.start + 1;
    if s.meta.Some? && s.part.Some? && r.start == s.meta.value.received && r.total == s.meta.value.total
       && r.end < s.meta.value.total
    {
      OpenedKeeps(s, sha, s.meta.value, r.start, length, body, f);
    }
  }

  lemma CompleteKeeps(o: Options, s: Slot, sha: Bytes -> string, f: CompleteFate)
    requires Inv(s, sha)
    ensures Inv(Complete(o, s, sha, f).0, sha)
  {
    hide RemoveUpload, Join;
    RemovalKeeps(s, sha, f.removal);
    if s.meta.Some? && s.part.Some? && s.meta.value.received == s.meta.value.total {
      assert s.part.value[..s.meta.value.received] == s.part.value;
    }
  }

  lemma OtherStepKeeps(o: Options, s: Slot, sha: Bytes -> string, e: Event)
    requires Inv(s, sha) && Enabled(s, e) && !e.EWrite? && !e.EComplete?
    ensures Inv(Next(o, s, sha, e), sha)
  {
    hide RemoveUpload;
    match e
    case ECreate(_, _) =>
    case ECancel(_, removal) => RemovalKeeps(s, sha, removal);
    case EExpireUpload(_, removal) => RemovalKeeps(s, sha, removal);
    case EExpireArtifact(_, _) =>
    case EPowerLoss(_) =>
  }

  lemma StepKeeps(o: Options, s: Slot, sha: Bytes -> string, e: Event)
    requires Inv(s, sha) && Enabled(s, e)
    ensures Inv(Next(o, s, sha, e), sha)
  {
    hide Inv;
    match e
    case EWrite(range, body, f) => WriteKeeps(o, s, sha, range, body, f);
    case EComplete(f) => CompleteKeeps(o, s, sha, f);
    case _ => OtherStepKeeps(o, s, sha, e);
  }

  lemma {:induction false} RunKeepsInv(o: Options, s: Slot, sha: Bytes -> string, es: seq<Event>)
    requires Inv(s, sha) && Legal(o, s, sha, es)
    ensures Inv(Exec(o, s, sha, es), sha)
    decreases |es|
  {
    if es != [] {
      StepKeeps(o, s, sha, es[0]);
      RunKeepsInv(o, Next(o, s, sha, es[0]), sha, es[1..]);
    }
  }

  // ----- Theorems -----

  /** After any run, faults and power losses included: the offset is inside the data file, the
      file never outgrows the declared total, and its first bytes are the acknowledged chunks. */
  lemma CommittedBytesSurvive(o: Options, sha: Bytes -> string, es: seq<Event>)
    requires Legal(o, UNUSED, sha, es)
    ensures var s := Exec(o, UNUSED, sha, es);
            s.meta.Some? && s.part.Some? ==>
              && 0 <= s.meta.value.received <= |s.part.value| <= s.meta.value.total
              && s.part.value[..s.meta.value.received] == Join(Acknowledged(o, UNUSED, sha, es))
  {
    RunKeepsInv(o, UNUSED, sha, es);
    LogIsWhatWasAcknowledged(o, UNUSED, sha, es);
    assert UNUSED.log + Acknowledged(o, UNUSED, sha, es) == Acknowledged(o, UNUSED, sha, es);
  }

  /** The bodies of the chunks a run acknowledged, in order. */
  ghost function Acknowledged(o: Options, s: Slot, sha: Bytes -> string, es: seq<Event>): seq<Bytes>
    requires Legal(o, s, sha, es)
    decreases |es|
  {
    if es == [] then [] else AcknowledgedBy(o, s, es[0]) + Acknowledged(o, Next(o, s, sha, es[0]), sha, es[1..])
  }

  /** The body of the chunk, if the event is an acknowledged chunk. */
  ghost function AcknowledgedBy(o: Options, s: Slot, e: Event): seq<Bytes>
    requires Enabled(s, e)
  {
    if e.EWrite? && WriteChunk(o, s, e.range, e.body, e.chunk).1.Ok?
    then [e.body[..e.range.end - e.range.start + 1]] else []
  }

  lemma Regrouped(a: seq<Bytes>, b: seq<Bytes>, c: seq<Bytes>)
    ensures (a + b) + c == a + (b + c)
  {}

  lemma LogStep(o: Options, s: Slot, sha: Bytes -> string, e: Event)
    requires Enabled(s, e)
    ensures Next(o, s, sha, e).log == s.log + AcknowledgedBy(o, s, e)
  {
    hide WriteAt, Truncate;
    assert s.log + [] == s.log;
  }

  lemma {:induction false} LogIsWhatWasAcknowledged(o: Options, s: Slot, sha: Bytes -> string, es: seq<Event>)
    requires Legal(o, s, sha, es)
    ensures Exec(o, s, sha, es).log == s.log + Acknowledged(o, s, sha, es)
    decreases |es|
  {
    hide Next, Enabled, AcknowledgedBy;
    if es != [] {
      var t := Next(o, s, sha, es[0]);
      LogStep(o, s, sha, es[0]);
      LogIsWhatWasAcknowledged(o, t, sha, es[1..]);
      Regrouped(s.log, AcknowledgedBy(o, s, es[0]), Acknowledged(o, t, sha, es[1..]));
    }
  }

  /** A chunk that is not too long, continues a live upload at its offset inside its total, has a body as
      long as its range, and meets no fault. */
  predicate Acceptable(o: Options, s: Slot, r: Range, body: Bytes, f: ChunkFate) {
    var length := r.end - r.start + 1;
    && length <= o.maxChunk && |body| == length
    && s.meta.Some? && f.now <= s.meta.value.updatedAt + o.uploadTtl && s.part.Some?
    && r.total == s.meta.value.total && r.start == s.meta.value.received && r.end < s.meta.value.total
    && f.reached && f.copied >= length && !f.dies && f.ended && f.synced && f.saved
  }

  lemma AcknowledgedExactly(o: Options, s: Slot, r: Range, body: Bytes, f: ChunkFate)
    requires ValidRange(r)
    ensures WriteChunk(o, s, r, body, f).1.Ok? <==> Acceptable(o, s, r, body, f)
  {
    hide WriteAt, Truncate, RollBack, RemoveUpload;
  }

  /** A chunk is acknowledged exactly when it is acceptable, and then its bytes are committed; a chunk
      that fails, for whatever reason, leaves the offset and the committed bytes as they were. */
  lemma ChunkIsAllOrNothing(o: Options, s: Slot, sha: Bytes -> string, r: Range, body: Bytes, f: ChunkFate)
    requires Inv(s, sha) && ValidRange(r)
    ensures WriteChunk(o, s, r, body, f).1.Ok? <==> Acceptable(o, s, r, body, f)
    ensures var (t, reply) := WriteChunk(o, s, r, body, f);
            if reply.Ok? then
              && s.meta.Some? && t.meta == Some(reply.value) && r.start == s.meta.value.received
              && reply.value.received == r.end + 1 && |body| == r.end - r.start + 1
              && Join(t.log) == Join(s.log) + body
            else t.log == s.log && (t.meta == s.meta || (reply.error == Expired && t.meta == None))
  {
    AcknowledgedExactly(o, s, r, body, f);
    hide Acceptable;
    var (t, reply) := WriteChunk(o, s, r, body, f);
    if reply.Ok? {
      assert body[..r.end - r.start + 1] == body;
      JoinAppend(s.log, body);
    }
  }

  /** CompleteUpload publishes exactly the declared number of bytes, equal to the acknowledged
      chunks in order, and their digest; a declared digest matches. */
  lemma CompletePublishesTheChunks(o: Options, sha: Bytes -> string, es: seq<Event>, f: CompleteFate)
    requires Legal(o, UNUSED, sha, es)
    requires Complete(o, Exec(o, UNUSED, sha, es), sha, f).1.Ok?
    ensures var s := Exec(o, UNUSED, sha, es);
            var (t, reply) := Complete(o, s, sha, f);
            var content := Join(Acknowledged(o, UNUSED, sha, es));
            && s.meta.Some? && s.artifact == None && t.artifact == Some(reply.value) && t.part == None
            && t.file == Some(content) && |content| == s.meta.value.total == reply.value.size
            && reply.value.sha == sha(content)
            && (s.meta.value.sha == "" || s.meta.value.sha == reply.value.sha)
  {
    RunKeepsInv(o, UNUSED, sha, es);
    LogIsWhatWasAcknowledged(o, UNUSED, sha, es);
    assert UNUSED.log + Acknowledged(o, UNUSED, sha, es) == Acknowledged(o, UNUSED, sha, es);
    hide Inv, Complete, Exec, Legal, Join;
    PublishesItsLog(o, Exec(o, UNUSED, sha, es), sha, f);
  }

  lemma PublishesItsLog(o: Options, s: Slot, sha: Bytes -> string, f: CompleteFate)
    requires Inv(s, sha) && Complete(o, s, sha, f).1.Ok?
    ensures var (t, reply) := Complete(o, s, sha, f);
            && s.meta.Some? && s.artifact == None && t.artifact == Some(reply.value) && t.part == None
            && t.file == Some(Join(s.log)) && |Join(s.log)| == s.meta.value.total == reply.value.size
            && reply.value.sha == sha(Join(s.log))
            && (s.meta.value.sha == "" || s.meta.value.sha == reply.value.sha)
  {
    hide Join;
    assert s.part.value[..s.meta.value.received] == s.part.value;
  }

  /** Without a data file no operation brings one back. */
  lemma GoneStep(o: Options, s: Slot, sha: Bytes -> string, e: Event)
    requires Enabled(s, e) && s.used && s.part.None?
    ensures Next(o, s, sha, e).used && Next(o, s, sha, e).part.None? && Next(o, s, sha, e).log == s.log
  {}

  lemma {:induction false} GoneForever(o: Options, s: Slot, sha: Bytes -> string, es: seq<Event>)
    requires Legal(o, s, sha, es) && s.used && s.part.None?
    ensures Exec(o, s, sha, es).used && Exec(o, s, sha, es).part.None? && Exec(o, s, sha, es).log == s.log
    decreases |es|
  {
    if es != [] {
      GoneStep(o, s, sha, es[0]);
      GoneForever(o, Next(o, s, sha, es[0]), sha, es[1..]);
    }
  }

  /** An id is published at most once, whatever happens after the publication: no later
      CompleteUpload succeeds and no later chunk is accepted. */
  lemma PublishedOnce(o: Options, s: Slot, sha: Bytes -> string, f: CompleteFate, es: seq<Event>,
                      again: CompleteFate, r: Range, body: Bytes, chunk: ChunkFate)
    requires Inv(s, sha) && Complete(o, s, sha, f).1.Ok? && ValidRange(r)
    requires Legal(o, Complete(o, s, sha, f).0, sha, es)
    ensures var t := Exec(o, Complete(o, s, sha, f).0, sha, es);
            && Complete(o, t, sha, again).1.Err? && Complete(o, t, sha, again).0.artifact == t.artifact
            && WriteChunk(o, t, r, body, chunk).1.Err?
            && (t.file.Some? ==> t.file == Complete(o, s, sha, f).0.file)
  {
    var c := Complete(o, s, sha, f).0;
    CompleteKeeps(o, s, sha, f);
    GoneForever(o, c, sha, es);
    RunKeepsInv(o, c, sha, es);
  }

  /** The subtle crash: a chunk that was written but whose offset was not saved leaves stale bytes,
      and a shorter retry of it still commits exactly the retried bytes. */
  lemma StaleBytesAreOverwritten(o: Options, s: Slot, sha: Bytes -> string, r: Range, body: Bytes, died: ChunkFate,
                                 retry: Range, again: Bytes, f: ChunkFate)
    requires Inv(s, sha) && ValidRange(r) && ValidRange(retry)
    requires WriteChunk(o, s, r, body, died).1 == Err(Died)
    requires WriteChunk(o, WriteChunk(o, s, r, body, died).0, retry, again, f).1.Ok?
    ensures var t := WriteChunk(o, WriteChunk(o, s, r, body, died).0, retry, again, f).0;
            && t.part.Some? && t.meta.Some? && t.meta.value.received <= |t.part.value|
            && t.part.value[..t.meta.value.received] == Join(s.log) + again[..retry.end - retry.start + 1]
  {
    WriteKeeps(o, s, sha, r, body, died);
    var d := WriteChunk(o, s, r, body, died).0;
    WriteKeeps(o, d, sha, retry, again, f);
    JoinAppend(s.log, again[..retry.end - retry.start + 1]);
  }
}
