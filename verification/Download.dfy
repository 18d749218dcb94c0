/** The resuming, retrying download into a .part file. */
module Download {
  import opened Common

  /** What one request meets: no response, or a response with its announced length (-1 when unknown),
      the bytes that arrived, whether the connection broke after them, and how the file calls went. */
  datatype Answer =
    | NoResponse
    | Response(status: int, length: int, body: Bytes, broken: bool, opens: bool, accepts: nat, closes: bool)

  type Part = Option<Bytes>

  datatype Tried = Tried(part: Part, count: int, ok: bool)

  function Size(part: Part): nat { if part.Some? then |part.value| else 0 }

  predicate Accepted(a: Answer) { a.Response? && 200 <= a.status < 300 }

  /** A partial response to a ranged request is appended; anything else starts the file again. */
  predicate Appends(part: Part, a: Answer) { Size(part) > 0 && a.Response? && a.status == 206 }

  function Offset(part: Part, a: Answer): nat { if Appends(part, a) then Size(part) else 0 }

  /** The bytes a limited reader passes on: maxBytes-offset+1 in 64 bits, and none when that is not positive. */
  function Readable(maxBytes: int, offset: nat, available: nat): (n: nat)
    ensures n <= available
  {
    if maxBytes <= 0 then available
    else
      var limit := Wrap64(maxBytes - offset + 1);
      if limit <= 0 then 0 else if limit < available then limit else available
  }

  predicate CutShort(maxBytes: int, offset: nat, available: nat) {
    maxBytes > 0 && Wrap64(maxBytes - offset + 1) <= available
  }

  /** downloadAttempt. */
  function Attempt(part: Part, maxBytes: int, a: Answer): Tried {
    if !Accepted(a) then Tried(part, Size(part), false)
    else
      var offset := Offset(part, a);
      if (maxBytes > 0 && a.length >= 0 && a.length + offset > maxBytes) || !a.opens then Tried(part, offset, false)
      else
        var base := if Appends(part, a) then part.value else [];
        var readable := Readable(maxBytes, offset, |a.body|);
        var written := if a.accepts < readable then a.accepts else readable;
        var copied := written == readable && (CutShort(maxBytes, offset, |a.body|) || !a.broken);
        Tried(Some(base + a.body[..written]), offset + written,
              copied && a.closes && !(maxBytes > 0 && offset + written > maxBytes))
  }

  /** The content is stable and ranges are honoured: what arrives is the content from the offset on,
      whole unless the connection breaks. */
  predicate Honest(content: Bytes, part: Part, a: Answer) {
    Accepted(a) ==>
      && (Appends(part, a) ==> Size(part) < |content|)
      && var rest := if Appends(part, a) then content[Size(part)..] else content;
         a.body <= rest && (!a.broken ==> a.body == rest) && (a.length == -1 || a.length == |rest|)
  }

  predicate IsPart(part: Part, content: Bytes) { part.Some? ==> part.value <= content }

  /** After any attempt the .part file is still a beginning of the content. */
  lemma PartStaysPrefix(content: Bytes, part: Part, maxBytes: int, a: Answer)
    requires IsPart(part, content) && Honest(content, part, a)
    ensures IsPart(Attempt(part, maxBytes, a).part, content)
  {
    var t := Attempt(part, maxBytes, a);
    if t.part != part {
      var offset := Offset(part, a);
      var written := |t.part.value| - offset;
      if Appends(part, a) {
        assert content == part.value + content[offset..];
        assert a.body[..written] <= content[offset..];
      }
    }
  }

  /** The one limit whose reader length leaves the 64-bit range. */
  predicate Wraps(part: Part, maxBytes: int, a: Answer) { maxBytes == MAX_INT64 && Offset(part, a) == 0 }

  lemma ReadableExactly(maxBytes: int, offset: nat, available: nat)
    requires 0 < maxBytes <= MAX_INT64 && offset <= MAX_INT64
    ensures maxBytes == MAX_INT64 && offset == 0 ==> Readable(maxBytes, offset, available) == 0
    ensures !(maxBytes == MAX_INT64 && offset == 0) ==>
              Readable(maxBytes, offset, available)
              == (var limit := maxBytes - offset + 1; if limit <= 0 then 0 else if limit < available then limit else available)
    ensures !(maxBytes == MAX_INT64 && offset == 0) ==>
              (CutShort(maxBytes, offset, available) <==> maxBytes - offset + 1 <= available)
  {
    if maxBytes == MAX_INT64 && offset == 0 { assert Wrap64(maxBytes - offset + 1) == -TWO_63; }
  }

  /** All of the content, counted right and within the limit. */
  predicate Whole(t: Tried, content: Bytes, maxBytes: int) {
    t.part == Some(content) && t.count == |content| && (maxBytes > 0 ==> |content| <= maxBytes)
  }

  /** A success means the whole content, counted right and within the limit, exactly unless the limit
      is the largest 64-bit number, the file was started anew, and there is something to download. */
  lemma SuccessIsWhole(content: Bytes, part: Part, maxBytes: int, a: Answer)
    requires IsPart(part, content) && Honest(content, part, a) && |content| <= MAX_INT64
    requires 0 <= maxBytes <= MAX_INT64 && Attempt(part, maxBytes, a).ok
    ensures Whole(Attempt(part, maxBytes, a), content, maxBytes) <==> !(Wraps(part, maxBytes, a) && content != [])
  {
    hide Wrap64;
    var t := Attempt(part, maxBytes, a);
    var offset := Offset(part, a);
    if maxBytes > 0 { ReadableExactly(maxBytes, offset, |a.body|); }
    hide Readable, CutShort;
    var rest := if Appends(part, a) then content[offset..] else content;
    if Wraps(part, maxBytes, a) {
      assert [] + a.body[..0] == [];
      assert t.count == 0 && t.part == Some([]);
    } else {
      var readable := Readable(maxBytes, offset, |a.body|);
      assert a.accepts >= readable;
      assert !CutShort(maxBytes, offset, |a.body|);
      assert a.body == rest && a.body[..|rest|] == rest && readable == |rest|;
      if Appends(part, a) {
        assert content == part.value + content[offset..];
      } else {
        assert [] + content == content;
      }
    }
  }

  /** The whole content sent to the largest limit: nothing is written, and it counts as a success. */
  lemma LargestLimitLosesAll(content: Bytes)
    requires content != [] && |content| <= MAX_INT64
    ensures var a := Response(200, |content|, content, false, true, |content|, true);
            Honest(content, None, a) && Attempt(None, MAX_INT64, a) == Tried(Some([]), 0, true)
  {
    ReadableExactly(MAX_INT64, 0, |content|);
    assert [] + content[..0] == [];
  }

  // ----- When an attempt can succeed -----

  /** A server that answers a range with that range or refuses it. */
  predicate AnswersRanges(part: Part, a: Answer) { Accepted(a) && Size(part) > 0 ==> a.status == 206 }

  /** With such a server some attempt can succeed exactly when the .part file is not already complete
      (or longer), and the content is within the limit. */
  lemma CanSucceed(content: Bytes, part: Part, maxBytes: int)
    requires IsPart(part, content) && |content| <= MAX_INT64 && 0 <= maxBytes <= MAX_INT64
    ensures (exists a :: Honest(content, part, a) && AnswersRanges(part, a) && Attempt(part, maxBytes, a).ok)
            <==> (Size(part) == 0 || Size(part) < |content|) && (maxBytes == 0 || |content| <= maxBytes)
  {
    hide Wrap64;
    if (Size(part) == 0 || Size(part) < |content|) && (maxBytes == 0 || |content| <= maxBytes) {
      var rest := if Size(part) > 0 then content[Size(part)..] else content;
      var a := Response(if Size(part) > 0 then 206 else 200, |rest|, rest, false, true, |rest|, true);
      if maxBytes > 0 { ReadableExactly(maxBytes, Size(part), |rest|); }
      assert Honest(content, part, a) && AnswersRanges(part, a) && Attempt(part, maxBytes, a).ok;
    }
    forall a | Honest(content, part, a) && AnswersRanges(part, a) && Attempt(part, maxBytes, a).ok
      ensures (Size(part) == 0 || Size(part) < |content|) && (maxBytes == 0 || |content| <= maxBytes)
    {
      SuccessIsWhole(content, part, maxBytes, a);
    }
  }

  /** In particular a complete .part file is refused for ever, and stays as it is. */
  lemma CompletePartIsStuck(content: Bytes, maxBytes: int, a: Answer)
    requires content != [] && Honest(content, Some(content), a) && AnswersRanges(Some(content), a)
    ensures Attempt(Some(content), maxBytes, a) == Tried(Some(content), |content|, false)
  {}

  // ----- The retries -----

  /** The attempts in order until one succeeds, the caller gives up (cancelled after an attempt), or
      the retries are used up. */
  function Retry(part: Part, maxBytes: int, answers: seq<Answer>, cancelled: seq<bool>): Tried
    requires |answers| == |cancelled| && answers != []
    decreases |answers|
  {
    var t := Attempt(part, maxBytes, answers[0]);
    if t.ok || cancelled[0] || |answers| == 1 then t else Retry(t.part, maxBytes, answers[1..], cancelled[1..])
  }

  /** The server keeps its promises to every attempt that is made. */
  predicate AllHonest(content: Bytes, part: Part, maxBytes: int, answers: seq<Answer>)
    decreases |answers|
  {
    answers == [] || (Honest(content, part, answers[0])
                      && AllHonest(content, Attempt(part, maxBytes, answers[0]).part, maxBytes, answers[1..]))
  }

  /** The last attempt that was made: the .part file it met, and what it got. */
  datatype Made = Made(part: Part, answer: Answer)

  function LastMade(part: Part, maxBytes: int, answers: seq<Answer>, cancelled: seq<bool>): Made
    requires |answers| == |cancelled| && answers != []
    decreases |answers|
  {
    var t := Attempt(part, maxBytes, answers[0]);
    if t.ok || cancelled[0] || |answers| == 1 then Made(part, answers[0])
    else LastMade(t.part, maxBytes, answers[1..], cancelled[1..])
  }

  /** Over any number of failed and resumed attempts the .part file stays a beginning of the content. A
      success means all of it, exactly unless the limit is 2^63-1, there is something to download, and
      the attempt that succeeded started the file anew. */
  lemma {:induction false} RetriesKeepThePrefix(content: Bytes, part: Part, maxBytes: int,
                                                answers: seq<Answer>, cancelled: seq<bool>)
    requires |answers| == |cancelled| && answers != [] && |content| <= MAX_INT64 && 0 <= maxBytes <= MAX_INT64
    requires IsPart(part, content) && AllHonest(content, part, maxBytes, answers)
    ensures var t := Retry(part, maxBytes, answers, cancelled); var m := LastMade(part, maxBytes, answers, cancelled);
            && IsPart(t.part, content)
            && (t.ok ==> (Whole(t, content, maxBytes) <==> !(Wraps(m.part, maxBytes, m.answer) && content != [])))
    decreases |answers|
  {
    hide Attempt, Honest, Wraps;
    var t := Attempt(part, maxBytes, answers[0]);
    PartStaysPrefix(content, part, maxBytes, answers[0]);
    if t.ok {
      SuccessIsWhole(content, part, maxBytes, answers[0]);
    } else if !cancelled[0] && |answers| > 1 {
      RetriesKeepThePrefix(content, t.part, maxBytes, answers[1..], cancelled[1..]);
    }
  }

  predicate AllRanged(content: Bytes, answers: seq<Answer>) {
    forall i :: 0 <= i < |answers| ==> Honest(content, Some(content), answers[i]) && AnswersRanges(Some(content), answers[i])
  }

  /** Resuming from a complete .part file fails whatever the number of retries. */
  lemma {:induction false} CompletePartNeverFinishes(content: Bytes, maxBytes: int,
                                                     answers: seq<Answer>, cancelled: seq<bool>)
    requires |answers| == |cancelled| && answers != [] && content != [] && AllRanged(content, answers)
    ensures Retry(Some(content), maxBytes, answers, cancelled) == Tried(Some(content), |content|, false)
    decreases |answers|
  {
    hide Attempt, Honest, AnswersRanges;
    assert Honest(content, Some(content), answers[0]) && AnswersRanges(Some(content), answers[0]);
    CompletePartIsStuck(content, maxBytes, answers[0]);
    if !cancelled[0] && |answers| > 1 {
      CompletePartNeverFinishes(content, maxBytes, answers[1..], cancelled[1..]);
    }
  }

  // ----- The operation -----

  datatype Failure = AlreadyExists | NotDownloaded | Unreadable | ChecksumMismatch | NotRenamed

  datatype Request = Request(overwrite: bool, resume: bool, maxBytes: int, sha256: string)

  /** How the rest of the operation turns out: whether the old .part file could be removed, the file
      hashed, the old destination removed and the new one put in place. */
  datatype Fate = Fate(clears: bool, hashes: bool, removes: bool, renames: bool)

  datatype Files = Files(part: Part, destination: Option<Bytes>)

  datatype Done = Done(files: Files, result: Result<int, Failure>)

  /** downloadOperation; `sum` is the hash as hexadecimal text, compared without regard to case. */
  function Operate(files: Files, q: Request, answers: seq<Answer>, cancelled: seq<bool>, sameSum: Bytes -> bool,
                   fate: Fate): Done
    requires |answers| == |cancelled| && answers != []
  {
    if !q.overwrite && files.destination.Some? then Done(files, Err(AlreadyExists))
    else
      var t := Retry(Resumed(files, q, fate), q.maxBytes, answers, cancelled);
      var after := Files(t.part, files.destination);
      if !t.ok then Done(after, Err(NotDownloaded))
      else if !fate.hashes || t.part.None? then Done(after, Err(Unreadable))
      else if q.sha256 != "" && !sameSum(t.part.value) then Done(after, Err(ChecksumMismatch))
      else
        var cleared := if q.overwrite && fate.removes then Files(t.part, None) else after;
        if fate.renames then Done(Files(None, t.part), Ok(t.count)) else Done(cleared, Err(NotRenamed))
  }

  /** What the retries start from. */
  function Resumed(files: Files, q: Request, fate: Fate): Part { if !q.resume && fate.clears then None else files.part }

  /** A download that reports success leaves the server's content at the destination, all of it exactly
      unless its limit is 2^63-1 and the attempt that succeeded started a non-empty file anew. One that
      fails leaves there what was there, or nothing when only the last rename failed. */
  lemma DownloadsAreExact(content: Bytes, files: Files, q: Request, answers: seq<Answer>, cancelled: seq<bool>,
                          sameSum: Bytes -> bool, fate: Fate)
    requires |answers| == |cancelled| && answers != [] && |content| <= MAX_INT64 && 0 <= q.maxBytes <= MAX_INT64
    requires IsPart(files.part, content)
    requires AllHonest(content, Resumed(files, q, fate), q.maxBytes, answers)
    ensures var done := Operate(files, q, answers, cancelled, sameSum, fate);
            var m := LastMade(Resumed(files, q, fate), q.maxBytes, answers, cancelled);
            && IsPart(done.files.part, content)
            && (done.result.Ok? ==>
                  && done.files.part == None && done.files.destination.Some?
                  && (q.sha256 != "" ==> sameSum(done.files.destination.value))
                  && (Whole(Tried(done.files.destination, done.result.value, true), content, q.maxBytes)
                      <==> !(Wraps(m.part, q.maxBytes, m.answer) && content != [])))
            && (done.result.Err? ==>
                  done.files.destination == files.destination
                  || (done.files.destination.None? && done.result.error.NotRenamed? && done.files.part.Some?))
  {
    hide Attempt, Honest, Retry, AllHonest, LastMade, Wraps;
    RetriesKeepThePrefix(content, Resumed(files, q, fate), q.maxBytes, answers, cancelled);
  }

  // ----- Downloads that finish -----

  /** An attempt against an honest server succeeds exactly when it is answered, nothing breaks or fails, the
      disk takes the rest of the content, and all of the content is within the limit. */
  lemma SucceedsExactly(content: Bytes, part: Part, maxBytes: int, a: Answer)
    requires IsPart(part, content) && Honest(content, part, a) && |content| <= MAX_INT64
    requires 0 <= maxBytes < MAX_INT64
    ensures Attempt(part, maxBytes, a).ok <==>
              && a.Response? && 200 <= a.status < 300 && a.opens && a.closes && !a.broken
              && a.accepts >= (if Size(part) > 0 && a.status == 206 then |content| - Size(part) else |content|)
              && (maxBytes == 0 || |content| <= maxBytes)
  {
    hide Wrap64;
    if Accepted(a) {
      if maxBytes > 0 { ReadableExactly(maxBytes, Offset(part, a), |a.body|); }
      hide Readable, CutShort;
    }
  }

  predicate Delivers(a: Answer, content: Bytes) {
    a.Response? && 200 <= a.status < 300 && a.opens && a.closes && !a.broken && a.accepts >= |content|
  }

  /** However many attempts break off, as long as the caller does not give up: an attempt at which nothing
      breaks finishes the download, and what is there is the content, resumed or not. */
  lemma {:induction false} InterruptedDownloadsFinish(content: Bytes, part: Part, maxBytes: int,
                                                      answers: seq<Answer>, cancelled: seq<bool>)
    requires |answers| == |cancelled| && answers != [] && |content| <= MAX_INT64 && 0 <= maxBytes < MAX_INT64
    requires IsPart(part, content) && AllHonest(content, part, maxBytes, answers)
    requires maxBytes == 0 || |content| <= maxBytes
    requires (forall i :: 0 <= i < |cancelled| ==> !cancelled[i]) && Delivers(answers[|answers| - 1], content)
    ensures var t := Retry(part, maxBytes, answers, cancelled); t.ok && Whole(t, content, maxBytes)
    decreases |answers|
  {
    hide Attempt, Honest;
    PartStaysPrefix(content, part, maxBytes, answers[0]);
    var t := Attempt(part, maxBytes, answers[0]);
    SucceedsExactly(content, part, maxBytes, answers[0]);
    if t.ok {
      SuccessIsWhole(content, part, maxBytes, answers[0]);
    } else {
      InterruptedDownloadsFinish(content, t.part, maxBytes, answers[1..], cancelled[1..]);
    }
  }

  /** The whole operation: then the content is at the destination, unless something was there already and
      was not to be overwritten, the declared sum is another, or the last steps fail. */
  lemma DownloadsFinishExactly(content: Bytes, files: Files, q: Request, answers: seq<Answer>, cancelled: seq<bool>,
                               sameSum: Bytes -> bool, fate: Fate)
    requires |answers| == |cancelled| && answers != [] && |content| <= MAX_INT64 && 0 <= q.maxBytes < MAX_INT64
    requires IsPart(files.part, content) && AllHonest(content, Resumed(files, q, fate), q.maxBytes, answers)
    requires q.maxBytes == 0 || |content| <= q.maxBytes
    requires (forall i :: 0 <= i < |cancelled| ==> !cancelled[i]) && Delivers(answers[|answers| - 1], content)
    ensures var done := Operate(files, q, answers, cancelled, sameSum, fate);
            && (done.result.Ok? <==>
                  && (q.overwrite || files.destination.None?) && fate.hashes
                  && (q.sha256 == "" || sameSum(content)) && fate.renames)
            && (done.result.Ok? ==> done == Done(Files(None, Some(content)), Ok(|content|)))
  {
    hide Retry, AllHonest, Delivers;
    InterruptedDownloadsFinish(content, Resumed(files, q, fate), q.maxBytes, answers, cancelled);
  }

  class Downloader {
    var part: Part
    var destination: Option<Bytes>

    constructor (files: Files)
      ensures Files(part, destination) == files
    {
      part, destination := files.part, files.destination;
    }

    /** io.Copy from the body, limited when there is a maximum. */
    method CopyBody(maxBytes: int, offset: nat, a: Answer) returns (written: nat, failed: bool)
      requires a.Response?
      ensures var readable := Readable(maxBytes, offset, |a.body|);
              && written == (if a.accepts < readable then a.accepts else readable)
              && !failed == (written == readable && (CutShort(maxBytes, offset, |a.body|) || !a.broken))
    {
      written, failed := |a.body|, a.broken;
      if maxBytes > 0 {
        var limit := Wrap64(maxBytes - offset + 1);
        if limit <= |a.body| { failed := false; }
        written := if limit <= 0 then 0 else if limit < |a.body| then limit else |a.body|;
      }
      if a.accepts < written { written, failed := a.accepts, true; }
    }

    /** downloadAttempt on the .part file. */
    method TryOnce(maxBytes: int, a: Answer) returns (count: int, ok: bool)
      modifies this`part
      ensures Tried(part, count, ok) == Attempt(old(part), maxBytes, a)
    {
      var offset := if part.Some? then |part.value| else 0;
      if a.NoResponse? || a.status < 200 || a.status >= 300 { return offset, false; }
      var append := offset > 0 && a.status == 206;
      if !append { offset := 0; }
      if maxBytes > 0 && a.length >= 0 && a.length + offset > maxBytes { return offset, false; }
      if !a.opens { return offset, false; }
      if !append { part := Some([]); }
      var written, failed := CopyBody(maxBytes, offset, a);
      hide Readable, CutShort;
      part := Some(part.value + a.body[..written]);
      count := offset + written;
      ok := !failed && a.closes && !(maxBytes > 0 && count > maxBytes);
    }

    method RetryLoop(maxBytes: int, answers: seq<Answer>, cancelled: seq<bool>) returns (count: int, ok: bool)
      requires |answers| == |cancelled| && answers != []
      modifies this`part
      ensures Tried(part, count, ok) == Retry(old(part), maxBytes, answers, cancelled)
    {
      hide Attempt;
      count, ok := 0, false;
      var attempt := 0;
      assert answers[0..] == answers && cancelled[0..] == cancelled;
      while attempt < |answers|
        invariant 0 <= attempt <= |answers|
        invariant attempt < |answers| ==>
                    Retry(part, maxBytes, answers[attempt..], cancelled[attempt..])
                    == Retry(old(part), maxBytes, answers, cancelled)
        invariant attempt == |answers| ==> Tried(part, count, ok) == Retry(old(part), maxBytes, answers, cancelled)
      {
        assert answers[attempt..][1..] == answers[attempt + 1..] && cancelled[attempt..][1..] == cancelled[attempt + 1..];
        count, ok := TryOnce(maxBytes, answers[attempt]);
        if ok || cancelled[attempt] { return; }
        attempt := attempt + 1;
      }
    }

    method DownloadTo(q: Request, answers: seq<Answer>, cancelled: seq<bool>, sameSum: Bytes -> bool, fate: Fate)
      returns (r: Result<int, Failure>)
      requires |answers| == |cancelled| && answers != []
      modifies this
      ensures Done(Files(part, destination), r)
              == Operate(old(Files(part, destination)), q, answers, cancelled, sameSum, fate)
    {
      hide Retry;
      if !q.overwrite && destination.Some? { return Err(AlreadyExists); }
      if !q.resume && fate.clears { part := None; }
      var count, ok := RetryLoop(q.maxBytes, answers, cancelled);
      if !ok { return Err(NotDownloaded); }
      if !fate.hashes || part.None? { return Err(Unreadable); }
      if q.sha256 != "" && !sameSum(part.value) { return Err(ChecksumMismatch); }
      if q.overwrite && fate.removes { destination := None; }
      if !fate.renames { return Err(NotRenamed); }
      part, destination := None, part;
      r := Ok(count);
    }
  }
}
