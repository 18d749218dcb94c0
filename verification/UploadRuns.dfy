/** Which uploads go through: exactly when each operation succeeds, and that content which is cut into
    chunks and sent in order, or resumed after any faults, is published. */
module UploadRuns {
  import opened Common
  import opened Uploads

  // ----- Exactly when an operation succeeds -----

  /** A creation succeeds exactly for a size within the limit and arguments that could be normalised,
      when its files can be made; the upload then starts at offset 0. */
  lemma CreatedExactly(o: Options, s: Slot, id: UploadId, c: Creation)
    ensures Create(o, s, id, c).1.Ok?
            <==> c.name.Some? && c.sha.Some? && 0 <= c.size <= o.maxUpload && c.created && c.saved
    ensures Create(o, s, id, c).1.Ok? ==>
              var t := Create(o, s, id, c).0;
              && t.part == Some([]) && t.meta.Some? && t.meta.value.received == 0 && t.meta.value.total == c.size
              && t.meta.value.name == c.name.value && t.meta.value.sha == c.sha.value && t.meta.value.updatedAt == c.now
              && t.meta == Some(Create(o, s, id, c).1.value)
  {}

  /** A completion succeeds exactly for a live upload all of whose bytes were acknowledged and whose
      digest, if one was declared, is that of its data, when every system call goes through. */
  lemma CompletedExactly(o: Options, s: Slot, sha: Bytes -> string, f: CompleteFate)
    ensures Complete(o, s, sha, f).1.Ok? <==>
              && s.meta.Some? && f.now <= s.meta.value.updatedAt + o.uploadTtl
              && s.meta.value.received == s.meta.value.total && s.part.Some?
              && (s.meta.value.sha == "" || s.meta.value.sha == sha(s.part.value))
              && f.hashed && f.renamed && f.saved && f.death == Survives
  {
    hide RemoveUpload;
  }

  /** A cancellation succeeds exactly for a live upload both of whose files can be removed, and leaves
      neither. */
  lemma CancelledExactly(o: Options, s: Slot, now: int, removal: Removal)
    ensures CancelUpload(o, s, now, removal).1.Ok? <==>
              && s.meta.Some? && now <= s.meta.value.updatedAt + o.uploadTtl
              && (removal.data || s.part.None?) && removal.meta
    ensures CancelUpload(o, s, now, removal).1.Ok? ==>
              CancelUpload(o, s, now, removal).0 == s.(part := None, meta := None)
  {}

  /** Why an operation on an upload is refused before it touches a file. */
  lemma RefusedExactly(o: Options, s: Slot, r: Range, body: Bytes, f: ChunkFate)
    requires ValidRange(r) && r.end - r.start + 1 <= o.maxChunk
    ensures var error := WriteChunk(o, s, r, body, f).1;
            && (error == Err(NotFound) <==> s.meta.None?)
            && (error == Err(Expired) <==> s.meta.Some? && f.now > s.meta.value.updatedAt + o.uploadTtl)
            && (error == Err(OffsetConflict) <==>
                  && s.meta.Some? && f.now <= s.meta.value.updatedAt + o.uploadTtl
                  && !(r.total == s.meta.value.total && r.start == s.meta.value.received && r.end < s.meta.value.total))
  {
    hide WriteAt, Truncate, RollBack, RemoveUpload, Copied;
  }

  // ----- What a failure leaves -----

  /** A chunk that fails short of a death leaves the data file as it was up to the offset, and nothing
      behind it, when the file can be cut back. */
  lemma FailedChunkIsCutBack(o: Options, s: Slot, sha: Bytes -> string, r: Range, body: Bytes, f: ChunkFate)
    requires Inv(s, sha) && ValidRange(r) && s.meta.Some? && s.part.Some?
    requires f.truncated && f.reached && !f.dies
    requires r.total == s.meta.value.total && r.start == s.meta.value.received && r.end < s.meta.value.total
    requires r.end - r.start + 1 <= o.maxChunk && f.now <= s.meta.value.updatedAt + o.uploadTtl
    requires WriteChunk(o, s, r, body, f).1.Err?
    ensures WriteChunk(o, s, r, body, f).0 == s.(part := Some(s.part.value[..s.meta.value.received]))
    ensures WriteChunk(o, s, r, body, f).1.error
            == if |body| <= r.end - r.start || f.copied <= r.end - r.start then ShortChunk
               else if |body| > r.end - r.start + 1 || !f.ended then LongChunk else IoError
  {
    hide WriteAt, Truncate, RemoveUpload;
    var length := r.end - r.start + 1;
    var n := Copied(length, body, f.copied);
    CopiedFits(length, body, f.copied);
    WriteAtKeeps(s.part.value, r.start, body[..n], r.total);
    hide Inv;
  }

  /** A completion that fails at the save and can rename back leaves the upload as it was. */
  lemma FailedCompletionIsUndone(o: Options, s: Slot, sha: Bytes -> string, f: CompleteFate)
    requires Inv(s, sha) && f.death == Survives && f.renamed && !f.saved && f.renamedBack
    requires s.meta.Some? && f.now <= s.meta.value.updatedAt + o.uploadTtl
    ensures Complete(o, s, sha, f).0 == s && Complete(o, s, sha, f).1.Err?
  {
    hide RemoveUpload, Join;
  }

  /** Why a completion is refused. */
  lemma IncompleteExactly(o: Options, s: Slot, sha: Bytes -> string, f: CompleteFate)
    ensures var error := Complete(o, s, sha, f).1; var live := s.meta.Some? && f.now <= s.meta.value.updatedAt + o.uploadTtl;
            && (error == Err(NotFound) <==> s.meta.None?)
            && (error == Err(Expired) <==> s.meta.Some? && f.now > s.meta.value.updatedAt + o.uploadTtl)
            && (error == Err(Incomplete) <==> live && s.meta.value.received != s.meta.value.total)
            && (error == Err(HashMismatch) <==>
                  && live && s.meta.value.received == s.meta.value.total && f.hashed && s.part.Some?
                  && s.meta.value.sha != "" && s.meta.value.sha != sha(s.part.value))
  {
    hide RemoveUpload;
  }

  /** A published artifact stays until its time is over and goes then, its lifetime counted from the
      completion; an upload goes by itself exactly when nothing was heard of it for its own lifetime. */
  lemma LifetimesAreKept(o: Options, s: Slot, now: int, r: Removal)
    requires r.data && r.meta
    ensures s.artifact.Some? && now > s.artifact.value.expiresAt ==>
              ExpireArtifact(s, now, r) == s.(file := None, artifact := None)
    ensures s.artifact.None? || now <= s.artifact.value.expiresAt ==> ExpireArtifact(s, now, r) == s
    ensures s.meta.Some? && now > s.meta.value.updatedAt + o.uploadTtl ==>
              AfterLoad(o, s, now, r) == s.(part := None, meta := None)
    ensures s.meta.None? || now <= s.meta.value.updatedAt + o.uploadTtl ==> AfterLoad(o, s, now, r) == s
  {}

  // ----- Whole uploads -----

  function Works(now: int, length: nat): ChunkFate {
    ChunkFate(now, Removal(true, true), true, length, false, true, true, true, true)
  }

  function Finishes(now: int): CompleteFate {
    CompleteFate(now, Removal(true, true), true, true, true, true, true, Survives)
  }

  /** One request for every chunk, from `start` on, at the given times. */
  function Sending(chunks: seq<Bytes>, start: nat, total: int, times: seq<int>): seq<Event>
    requires |times| == |chunks|
    decreases |chunks|
  {
    if chunks == [] then []
    else
      [EWrite(Range(start, start + |chunks[0]| - 1, total), chunks[0], Works(times[0], |chunks[0]|))]
      + Sending(chunks[1..], start + |chunks[0]|, total, times[1..])
  }

  predicate Sendable(o: Options, chunks: seq<Bytes>) {
    forall i :: 0 <= i < |chunks| ==> 1 <= |chunks[i]| <= o.maxChunk
  }

  /** No pause between two requests lets the upload expire. */
  predicate InTime(o: Options, from: int, times: seq<int>)
    decreases |times|
  {
    times == [] || (times[0] <= from + o.uploadTtl && InTime(o, times[0], times[1..]))
  }

  function LastTime(from: int, times: seq<int>): int { if times == [] then from else times[|times| - 1] }

  lemma {:induction false} JoinFirst(chunk: Bytes, rest: seq<Bytes>)
    ensures Join([chunk] + rest) == chunk + Join(rest)
    decreases |rest|
  {
    var all := [chunk] + rest;
    if rest == [] {
      assert all[..0] == [] && Join(all) == Join([]) + chunk;
    } else {
      assert all[..|all| - 1] == [chunk] + rest[..|rest| - 1];
      JoinFirst(chunk, rest[..|rest| - 1]);
    }
  }

  /** An upload that is live, with the bytes acknowledged so far. */
  ghost predicate Open(s: Slot, sha: Bytes -> string) { Inv(s, sha) && s.meta.Some? && s.part.Some? }

  function Sends(record: Record, chunk: Bytes, now: int): Event {
    EWrite(Range(record.received, record.received + |chunk| - 1, record.total), chunk, Works(now, |chunk|))
  }

  lemma OffsetIsInside(s: Slot, sha: Bytes -> string)
    requires Open(s, sha)
    ensures 0 <= s.meta.value.received <= s.meta.value.total
  {}

  /** One chunk that fits is acknowledged. */
  lemma OneChunk(o: Options, s: Slot, sha: Bytes -> string, chunk: Bytes, now: int)
    requires Open(s, sha) && 1 <= |chunk| <= o.maxChunk && s.meta.value.received + |chunk| <= s.meta.value.total
    requires now <= s.meta.value.updatedAt + o.uploadTtl
    ensures 0 <= s.meta.value.received
    ensures var record := s.meta.value; var e := Sends(record, chunk, now);
            && Enabled(s, e) && var t := Next(o, s, sha, e);
            && Open(t, sha) && t.log == s.log + [chunk]
            && t.meta == Some(record.(received := record.received + |chunk|, updatedAt := now))
  {
    hide Inv, WriteChunk;
    OffsetIsInside(s, sha);
    var record := s.meta.value;
    var r, f := Range(record.received, record.received + |chunk| - 1, record.total), Works(now, |chunk|);
    AcknowledgedExactly(o, s, r, chunk, f);
    WriteKeeps(o, s, sha, r, chunk, f);
    OkWrites(o, s, r, chunk, f);
    assert chunk[..|chunk|] == chunk;
  }

  lemma OkWrites(o: Options, s: Slot, r: Range, body: Bytes, f: ChunkFate)
    requires ValidRange(r) && WriteChunk(o, s, r, body, f).1.Ok?
    ensures var t := WriteChunk(o, s, r, body, f).0; var length := r.end - r.start + 1;
            && s.meta.Some? && t.part.Some? && t.log == s.log + [body[..length]]
            && t.meta == Some(s.meta.value.(received := s.meta.value.received + length, updatedAt := f.now))
  {
    hide WriteAt, Truncate, RollBack, RemoveUpload, Copied;
  }

  /** One event, then the others. */
  lemma RunsOn(o: Options, s: Slot, sha: Bytes -> string, e: Event, es: seq<Event>)
    requires Enabled(s, e) && Legal(o, Next(o, s, sha, e), sha, es)
    ensures Legal(o, s, sha, [e] + es) && Exec(o, s, sha, [e] + es) == Exec(o, Next(o, s, sha, e), sha, es)
  {
    hide Enabled, Next;
    assert ([e] + es)[1..] == es;
  }

  ghost predicate Sent(o: Options, s: Slot, sha: Bytes -> string, chunks: seq<Bytes>, times: seq<int>, es: seq<Event>)
    requires s.meta.Some?
  {
    && Legal(o, s, sha, es) && var t := Exec(o, s, sha, es); var record := s.meta.value;
    && Open(t, sha) && t.log == s.log + chunks
    && t.meta == Some(record.(received := record.received + |Join(chunks)|, updatedAt := LastTime(record.updatedAt, times)))
  }

  lemma SentOneMore(o: Options, s: Slot, sha: Bytes -> string, chunk: Bytes, now: int, chunks: seq<Bytes>,
                    times: seq<int>, e: Event, es: seq<Event>)
    requires Enabled(s, e) && s.meta.Some?
    requires var t := Next(o, s, sha, e);
             && t.meta == Some(s.meta.value.(received := s.meta.value.received + |chunk|, updatedAt := now))
             && t.log == s.log + [chunk] && Sent(o, t, sha, chunks, times, es)
    ensures Sent(o, s, sha, [chunk] + chunks, [now] + times, [e] + es)
  {
    hide Enabled, Next, Inv, Legal, Exec, Join;
    RunsOn(o, s, sha, e, es);
    JoinFirst(chunk, chunks);
    assert (s.log + [chunk]) + chunks == s.log + ([chunk] + chunks);
  }

  /** The chunks fit what is left of a live upload, and come in time. */
  ghost predicate CanSend(o: Options, s: Slot, sha: Bytes -> string, chunks: seq<Bytes>, times: seq<int>) {
    && Open(s, sha) && Sendable(o, chunks) && |times| == |chunks| && InTime(o, s.meta.value.updatedAt, times)
    && 0 <= s.meta.value.received && s.meta.value.received + |Join(chunks)| <= s.meta.value.total
  }

  lemma SendFirst(o: Options, s: Slot, sha: Bytes -> string, chunks: seq<Bytes>, times: seq<int>)
    requires CanSend(o, s, sha, chunks, times) && chunks != []
    ensures var record, e := s.meta.value, Sends(s.meta.value, chunks[0], times[0]);
            && Enabled(s, e) && var t := Next(o, s, sha, e);
            && CanSend(o, t, sha, chunks[1..], times[1..])
            && t.meta == Some(record.(received := record.received + |chunks[0]|, updatedAt := times[0]))
            && t.log == s.log + [chunks[0]]
  {
    hide Inv, Enabled, Next, Join, Sendable, Works, InTime;
    assert chunks == [chunks[0]] + chunks[1..];
    JoinFirst(chunks[0], chunks[1..]);
    FirstFits(chunks, o);
    FirstInTime(o, s.meta.value.updatedAt, times);
    OneChunk(o, s, sha, chunks[0], times[0]);
  }

  lemma FirstFits(chunks: seq<Bytes>, o: Options)
    requires chunks != [] && Sendable(o, chunks)
    ensures 1 <= |chunks[0]| <= o.maxChunk && Sendable(o, chunks[1..])
  {}

  lemma FirstInTime(o: Options, from: int, times: seq<int>)
    requires times != [] && InTime(o, from, times)
    ensures times[0] <= from + o.uploadTtl && InTime(o, times[0], times[1..])
  {}

  lemma SendingFirst(chunks: seq<Bytes>, record: Record, times: seq<int>)
    requires chunks != [] && |times| == |chunks| && 0 <= record.received
    ensures Sending(chunks, record.received, record.total, times)
            == [Sends(record, chunks[0], times[0])]
               + Sending(chunks[1..], record.received + |chunks[0]|, record.total, times[1..])
  {}

  lemma {:induction false} SendingWorks(o: Options, s: Slot, sha: Bytes -> string, chunks: seq<Bytes>, times: seq<int>)
    requires CanSend(o, s, sha, chunks, times)
    ensures Sent(o, s, sha, chunks, times, Sending(chunks, s.meta.value.received, s.meta.value.total, times))
    decreases |chunks|
  {
    hide Inv, Enabled, Next, Sent, Sends, Join, InTime, Sendable;
    if chunks == [] {
      NothingSent(o, s, sha, times);
    } else {
      var record := s.meta.value;
      SendFirst(o, s, sha, chunks, times);
      SendingFirst(chunks, record, times);
      var e := Sends(record, chunks[0], times[0]);
      var t := Next(o, s, sha, e);
      assert chunks == [chunks[0]] + chunks[1..] && times == [times[0]] + times[1..];
      hide CanSend, Sending;
      SendingWorks(o, t, sha, chunks[1..], times[1..]);
      SentOneMore(o, s, sha, chunks[0], times[0], chunks[1..], times[1..], e,
                  Sending(chunks[1..], record.received + |chunks[0]|, record.total, times[1..]));
    }
  }

  lemma NothingSent(o: Options, s: Slot, sha: Bytes -> string, times: seq<int>)
    requires Open(s, sha) && times == []
    ensures Sent(o, s, sha, [], times, [])
  {
    hide Inv;
    assert s.log + [] == s.log;
  }

  lemma {:induction false} JoinOfBoth(a: seq<Bytes>, b: seq<Bytes>)
    ensures Join(a + b) == Join(a) + Join(b)
    decreases |a|
  {
    if a == [] {
      assert a + b == b && Join(a) == [];
    } else {
      assert a == [a[0]] + a[1..] && a + b == [a[0]] + (a[1..] + b);
      JoinOfBoth(a[1..], b);
      JoinFirst(a[0], a[1..]);
      JoinFirst(a[0], a[1..] + b);
    }
  }

  /** Resuming: whatever faults, crashes and power losses an upload has been through, sending the bytes that
      are missing from its offset on, in chunks and in time, and completing it succeeds; and the file is
      what was acknowledged before followed by what was sent now. */
  lemma ResumedUploadCompletes(o: Options, sha: Bytes -> string, es: seq<Event>, chunks: seq<Bytes>,
                               times: seq<int>, now: int)
    requires Legal(o, UNUSED, sha, es)
    requires var s := Exec(o, UNUSED, sha, es);
             && s.meta.Some? && s.part.Some? && |times| == |chunks| && InTime(o, s.meta.value.updatedAt, times + [now])
             && s.meta.value.received + |Join(chunks)| == s.meta.value.total
             && (s.meta.value.sha == ""
                 || s.meta.value.sha == sha(Join(Acknowledged(o, UNUSED, sha, es)) + Join(chunks)))
    requires Sendable(o, chunks)
    ensures var s := Exec(o, UNUSED, sha, es); var record := s.meta.value;
            && 0 <= record.received
            && var rest := Sending(chunks, record.received, record.total, times);
            && Legal(o, s, sha, rest)
            && var content := Join(Acknowledged(o, UNUSED, sha, es)) + Join(chunks);
               var (t, reply) := Complete(o, Exec(o, s, sha, rest), sha, Finishes(now));
            && reply == Ok(Artifact(record.id, record.name, |content|, sha(content), now + o.artifactTtl))
            && t.file == Some(content) && t.artifact == Some(reply.value)
  {
    var s := Exec(o, UNUSED, sha, es);
    RunKeepsInv(o, UNUSED, sha, es);
    LogIsWhatWasAcknowledged(o, UNUSED, sha, es);
    assert UNUSED.log + Acknowledged(o, UNUSED, sha, es) == Acknowledged(o, UNUSED, sha, es);
    CompletesFrom(o, s, sha, chunks, times, now);
  }

  lemma InTimeFirst(o: Options, from: int, times: seq<int>, now: int)
    requires InTime(o, from, times + [now])
    ensures InTime(o, from, times) && now <= LastTime(from, times) + o.uploadTtl
    decreases |times|
  {
    if times == [] {
      assert times + [now] == [now];
    } else {
      assert (times + [now])[0] == times[0] && (times + [now])[1..] == times[1..] + [now];
      InTimeFirst(o, times[0], times[1..], now);
    }
  }

  lemma CompletesFrom(o: Options, s: Slot, sha: Bytes -> string, chunks: seq<Bytes>, times: seq<int>, now: int)
    requires Open(s, sha) && Sendable(o, chunks) && |times| == |chunks|
    requires InTime(o, s.meta.value.updatedAt, times + [now])
    requires s.meta.value.received + |Join(chunks)| == s.meta.value.total
    requires s.meta.value.sha == "" || s.meta.value.sha == sha(Join(s.log) + Join(chunks))
    ensures var record := s.meta.value; 0 <= record.received && var rest := Sending(chunks, record.received, record.total, times);
            && Legal(o, s, sha, rest)
            && var content := Join(s.log) + Join(chunks);
               var (t, reply) := Complete(o, Exec(o, s, sha, rest), sha, Finishes(now));
            && reply == Ok(Artifact(record.id, record.name, |content|, sha(content), now + o.artifactTtl))
            && t.file == Some(content) && t.artifact == Some(reply.value)
  {
    var record := s.meta.value;
    assert 0 <= record.received;
    InTimeFirst(o, record.updatedAt, times, now);
    SendingWorks(o, s, sha, chunks, times);
    var t := Exec(o, s, sha, Sending(chunks, record.received, record.total, times));
    JoinOfBoth(s.log, chunks);
    assert t.part.value[..t.meta.value.received] == t.part.value;
    hide Inv, Exec, Legal, Complete, Join, Sending;
    CompletedExactly(o, t, sha, Finishes(now));
    CompletedArtifact(o, t, sha, Finishes(now));
  }

  lemma CompletedArtifact(o: Options, s: Slot, sha: Bytes -> string, f: CompleteFate)
    requires Complete(o, s, sha, f).1.Ok?
    ensures var (t, reply) := Complete(o, s, sha, f); var record := s.meta.value;
            && s.meta.Some? && s.part.Some? && t.file == s.part && t.artifact == Some(reply.value)
            && reply.value == Artifact(record.id, record.name, record.total, sha(s.part.value), f.now + o.artifactTtl)
  {
    hide RemoveUpload;
  }

  /** A new upload: any content within the limit, cut into chunks that are not too long and sent in order
      and in time, is published, and the file is the content. */
  lemma FaultlessUploadCompletes(o: Options, id: UploadId, name: string, declared: string, sha: Bytes -> string,
                                 chunks: seq<Bytes>, created: int, times: seq<int>, now: int)
    requires |Join(chunks)| <= o.maxUpload && Sendable(o, chunks) && |times| == |chunks|
    requires InTime(o, created, times + [now])
    requires declared == "" || declared == sha(Join(chunks))
    ensures var content := Join(chunks);
            var create := ECreate(id, Creation(Some(name), |content|, Some(declared), created, true, true, true));
            && Enabled(UNUSED, create)
            && var s := Next(o, UNUSED, sha, create); var es := Sending(chunks, 0, |content|, times);
            && Legal(o, s, sha, es)
            && var (t, reply) := Complete(o, Exec(o, s, sha, es), sha, Finishes(now));
            && reply == Ok(Artifact(id, name, |content|, sha(content), now + o.artifactTtl))
            && t.file == Some(content) && t.artifact == Some(reply.value)
  {
    var content := Join(chunks);
    var create := ECreate(id, Creation(Some(name), |content|, Some(declared), created, true, true, true));
    var s := Next(o, UNUSED, sha, create);
    StepKeeps(o, UNUSED, sha, create);
    assert Join([]) == [] && [] + content == content;
    hide Complete, Exec, Legal, Inv;
    CompletesFrom(o, s, sha, chunks, times, now);
  }
}
