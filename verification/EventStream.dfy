/** The reader of event streams in section 9.2.6 of the HTML standard, and exactly where the bridge's
    reader differs from it. The standard's events are filtered as the bridge's are: reading ends at
    data that is not JSON and at the answer that is awaited. */
module EventStream {
  import opened Common
  import opened Text
  import opened Stream

  const BYTE_ORDER_MARK := '\U{FEFF}'

  // ----- The standard's lines -----

  /** Lines end with LF, CR LF or a single CR; `line` is what was read of the current one. */
  function EndLines(s: string, line: string): seq<string>
    decreases |s|
  {
    if s == "" then (if line == "" then [] else [line])
    else if s[0] == '\n' then [line] + EndLines(s[1..], "")
    else if s[0] == '\r' then [line] + EndLines(if |s| > 1 && s[1] == '\n' then s[2..] else s[1..], "")
    else EndLines(s[1..], line + [s[0]])
  }

  /** A leading byte order mark is dropped. */
  function StandardLines(text: string): seq<string> {
    EndLines(if text != "" && text[0] == BYTE_ORDER_MARK then text[1..] else text, "")
  }

  /** A CR that ends a line by itself, before the end of the text. */
  predicate LoneReturn(s: string) { exists i :: 0 <= i < |s| - 1 && s[i] == '\r' && s[i + 1] != '\n' }

  predicate Marked(s: string) { s != "" && s[0] == BYTE_ORDER_MARK }

  lemma LinesStep(line: string, end: string, rest: string)
    requires OneLine(line) && (end == "\n" || end == "\r\n")
    ensures Lines(line + end + rest) == [line] + Lines(rest)
  {
    if end == "\n" {
      FirstLine(line, rest);
    } else {
      var s := (line + "\r") + ['\n'] + rest;
      assert s == line + end + rest;
      IndexOfFirst(line + "\r", '\n', rest);
      assert s[..|line| + 1] == line + "\r" && s[|line| + 2..] == rest;
      assert (line + "\r")[..|line|] == line;
    }
  }

  lemma TailHasNoLoneReturn(s: string, n: nat)
    requires !LoneReturn(s) && n <= |s|
    ensures !LoneReturn(s[n..])
  {
    forall i | 0 <= i < |s[n..]| - 1 ensures !(s[n..][i] == '\r' && s[n..][i + 1] != '\n') {
      assert s[n..][i] == s[n + i] && s[n..][i + 1] == s[n + i + 1];
    }
  }

  lemma {:induction false} SameWithoutReturns(s: string, line: string)
    requires !LoneReturn(s) && OneLine(line)
    ensures Lines(line + s) == EndLines(s, line)
    decreases |s|
  {
    hide Lines, LoneReturn;
    if s == "" {
      assert line + s == line;
      LastLine(line, "");
    } else if s[0] == '\n' {
      assert line + s == line + "\n" + s[1..];
      LinesStep(line, "\n", s[1..]);
      TailHasNoLoneReturn(s, 1);
      assert "" + s[1..] == s[1..];
      SameWithoutReturns(s[1..], "");
    } else if s == "\r" {
      LastLine(line, "\r");
    } else if s[0] == '\r' {
      ReturnThenLineFeed(s);
      assert line + s == line + "\r\n" + s[2..];
      LinesStep(line, "\r\n", s[2..]);
      TailHasNoLoneReturn(s, 2);
      assert "" + s[2..] == s[2..];
      SameWithoutReturns(s[2..], "");
    } else {
      assert line + s == line + [s[0]] + s[1..];
      TailHasNoLoneReturn(s, 1);
      SameWithoutReturns(s[1..], line + [s[0]]);
    }
  }

  lemma ReturnThenLineFeed(s: string)
    requires !LoneReturn(s) && |s| > 1 && s[0] == '\r'
    ensures s[1] == '\n'
  {}

  lemma LastLine(line: string, end: string)
    requires OneLine(line) && (end == "" || end == "\r")
    ensures Lines(line + end) == if line + end == "" then [] else [line]
  {
    if end == "\r" {
      assert (line + end)[..|line|] == line;
    } else {
      assert line + end == line;
    }
  }

  lemma {:induction false} StandardLinesHaveNoReturn(s: string, line: string)
    requires '\r' !in line
    ensures forall l :: l in EndLines(s, line) ==> '\r' !in l
    decreases |s|
  {
    if s != "" {
      if s[0] == '\n' {
        StandardLinesHaveNoReturn(s[1..], "");
      } else if s[0] == '\r' {
        StandardLinesHaveNoReturn(if |s| > 1 && s[1] == '\n' then s[2..] else s[1..], "");
      } else {
        StandardLinesHaveNoReturn(s[1..], line + [s[0]]);
      }
    }
  }

  lemma {:induction false} LoneReturnStaysInLine(s: string, i: nat)
    requires i < |s| - 1 && s[i] == '\r' && s[i + 1] != '\n'
    ensures exists l :: l in Lines(s) && '\r' in l
    decreases |s|
  {
    if '\n' !in s {
      assert DropCR(s)[i] == '\r';
      assert DropCR(s) in Lines(s);
    } else {
      var k := IndexOf(s, '\n');
      var first := s[..k];
      if i < k {
        assert DropCR(first)[i] == '\r';
        assert DropCR(first) in Lines(s);
      } else {
        LoneReturnStaysInLine(s[k + 1..], i - k - 1);
        var l :| l in Lines(s[k + 1..]) && '\r' in l;
        assert l in Lines(s);
      }
    }
  }

  lemma {:induction false} OneMoreInFront(s: string, c: char, line: string)
    ensures EndLines(s, [c] + line) ==
            if EndLines(s, line) == [] then [[c]] else [[c] + EndLines(s, line)[0]] + EndLines(s, line)[1..]
    decreases |s|
  {
    if s == "" {
      assert [c] + "" == [c] && [line][1..] == [];
    } else if s[0] == '\n' || s[0] == '\r' {
      var rest := EndLines(if s[0] == '\r' && |s| > 1 && s[1] == '\n' then s[2..] else s[1..], "");
      assert ([line] + rest)[1..] == rest;
    } else {
      assert [c] + line + [s[0]] == [c] + (line + [s[0]]);
      OneMoreInFront(s[1..], c, line + [s[0]]);
    }
  }

  /** The bridge and the standard see the same lines exactly when no CR stands alone before the end and
      the text does not start with a byte order mark. */
  lemma SameLinesExactly(text: string)
    ensures Lines(text) == StandardLines(text) <==> !LoneReturn(text) && !Marked(text)
  {
    hide Lines, EndLines;
    assert "" + text == text;
    if LoneReturn(text) {
      var i :| 0 <= i < |text| - 1 && text[i] == '\r' && text[i + 1] != '\n';
      LoneReturnStaysInLine(text, i);
      StandardLinesHaveNoReturn(if Marked(text) then text[1..] else text, "");
    } else {
      SameWithoutReturns(text, "");
      if Marked(text) {
        FirstOfMarked(text);
        OneMoreInFront(text[1..], BYTE_ORDER_MARK, "");
        var unmarked := EndLines(text[1..], "");
        if unmarked != [] { assert |[BYTE_ORDER_MARK] + unmarked[0]| == |unmarked[0]| + 1; }
      }
    }
  }

  lemma FirstOfMarked(text: string)
    requires Marked(text)
    ensures EndLines(text, "") == EndLines(text[1..], [BYTE_ORDER_MARK] + "")
  {
    assert "" + [text[0]] == [BYTE_ORDER_MARK] + "";
  }

  // ----- The standard's reader -----

  /** The last event id buffer is kept between events and becomes the last event id at the end of each,
      whatever it holds. */
  function StandardDispatch(j: Json, r: Reader): (Reader, Option<Ending>) {
    if r.data == [] then (Reader(r.eventID, [], r.eventID, r.emitted), None)
    else
      var payload := Join(r.data);
      if !j.valid(payload) then (Reader(r.eventID, [], r.eventID, r.emitted), Some(BadJson))
      else (Reader(r.eventID, [], r.eventID, r.emitted + [payload]), if j.matching(payload) then Some(Matched) else None)
  }

  /** An event that the end of the stream leaves unfinished is discarded. */
  function StandardRead(j: Json, lines: seq<string>, r: Reader): Outcome
    decreases |lines|
  {
    if lines == [] then Ended(r, Finished)
    else if lines[0] == "" then
      var (after, ending) := StandardDispatch(j, r);
      if ending.Some? then Ended(after, ending.value) else StandardRead(j, lines[1..], after)
    else StandardRead(j, lines[1..], ReadLine(r, lines[0]))
  }

  // ----- A text as events -----

  /** The lines between empty ones, and those of an event left unfinished. */
  datatype Events = Events(done: seq<seq<string>>, rest: seq<string>)

  function EventsOf(lines: seq<string>): Events {
    if lines == [] then Events([], [])
    else
      var e := EventsOf(lines[1..]);
      if lines[0] == "" then Events([[]] + e.done, e.rest)
      else if e.done == [] then Events([], [lines[0]] + e.rest)
      else Events([[lines[0]] + e.done[0]] + e.done[1..], e.rest)
  }

  predicate NamesField(line: string, name: string) { !(":" <= line) && FieldName(line) == name }

  function DataOf(event: seq<string>): seq<string> {
    if event == [] then []
    else (if NamesField(event[0], "data") then [FieldValue(event[0])] else []) + DataOf(event[1..])
  }

  /** The ids an event gives itself; one with a NUL is no id. */
  function IdsOf(event: seq<string>): seq<string> {
    if event == [] then []
    else (if NamesField(event[0], "id") && '\0' !in FieldValue(event[0]) then [FieldValue(event[0])] else [])
         + IdsOf(event[1..])
  }

  function LastOf(values: seq<string>, otherwise: string): string {
    if values == [] then otherwise else values[|values| - 1]
  }

  function ReadEvent(r: Reader, event: seq<string>): Reader
    decreases |event|
  {
    if event == [] then r else ReadEvent(ReadLine(r, event[0]), event[1..])
  }

  lemma {:induction false} ReadEventGathers(r: Reader, event: seq<string>)
    ensures ReadEvent(r, event)
            == Reader(LastOf(IdsOf(event), r.eventID), r.data + DataOf(event), r.lastID, r.emitted)
    decreases |event|
  {
    hide NamesField, FieldValue, ReadLine, LastOf;
    if event == [] {
      assert r.data + [] == r.data;
      NoLast(r.eventID);
    } else {
      var line, rest := event[0], event[1..];
      ReadEventGathers(ReadLine(r, line), rest);
      LineGathers(r, line);
      Regrouped(r.data, if NamesField(line, "data") then [FieldValue(line)] else [], DataOf(rest));
      LastBehind(if NamesField(line, "id") && '\0' !in FieldValue(line) then [FieldValue(line)] else [], IdsOf(rest),
                 r.eventID);
    }
  }

  lemma NoLast(otherwise: string)
    ensures LastOf([], otherwise) == otherwise
  {}

  lemma Regrouped(a: seq<string>, b: seq<string>, c: seq<string>)
    ensures (a + b) + c == a + (b + c)
  {}

  lemma LastBehind(first: seq<string>, rest: seq<string>, otherwise: string)
    ensures LastOf(first + rest, otherwise) == LastOf(rest, LastOf(first, otherwise))
  {}

  lemma LineGathers(r: Reader, line: string)
    ensures var next := ReadLine(r, line);
            && next.data == r.data + (if NamesField(line, "data") then [FieldValue(line)] else [])
            && next.eventID == LastOf(if NamesField(line, "id") && '\0' !in FieldValue(line) then [FieldValue(line)] else [],
                                      r.eventID)
            && next.lastID == r.lastID && next.emitted == r.emitted
  {
    hide FieldName, FieldValue;
  }

  /** Whether reading ends with an event. */
  predicate Stops(j: Json, event: seq<string>) {
    var data := DataOf(event);
    data != [] && (!j.valid(Join(data)) || j.matching(Join(data)))
  }

  /** What an event passes on. */
  function Sent(j: Json, event: seq<string>): seq<string> {
    var data := DataOf(event);
    if data != [] && j.valid(Join(data)) then [Join(data)] else []
  }

  function EndingOf(j: Json, event: seq<string>): Ending {
    if !Stops(j, event) then Finished else if j.valid(Join(DataOf(event))) then Matched else BadJson
  }

  /** The events that are read: up to and with the first that ends the reading. */
  function UpToStop(j: Json, events: seq<seq<string>>): seq<seq<string>> {
    if events == [] then [] else if Stops(j, events[0]) then [events[0]] else [events[0]] + UpToStop(j, events[1..])
  }

  predicate Stopped(j: Json, events: seq<seq<string>>) {
    events != [] && (Stops(j, events[0]) || Stopped(j, events[1..]))
  }

  function SentAll(j: Json, events: seq<seq<string>>): seq<string> {
    if events == [] then [] else Sent(j, events[0]) + SentAll(j, events[1..])
  }

  function LastEnding(j: Json, events: seq<seq<string>>): Ending {
    if events == [] then Finished else if Stops(j, events[0]) then EndingOf(j, events[0]) else LastEnding(j, events[1..])
  }

  /** The id the bridge remembers: the last one that is not empty, event by event. */
  function BridgeId(lastID: string, events: seq<seq<string>>): string
    decreases |events|
  {
    if events == [] then lastID
    else
      var id := LastOf(IdsOf(events[0]), "");
      BridgeId(if id != "" then id else lastID, events[1..])
  }

  function IdsOfAll(events: seq<seq<string>>): seq<string> {
    if events == [] then [] else IdsOf(events[0]) + IdsOfAll(events[1..])
  }

  /** The id the standard remembers: the last one of the stream, or none once an event has ended. */
  function StandardId(lastID: string, events: seq<seq<string>>): string {
    if events == [] then lastID else LastOf(IdsOfAll(events), "")
  }

  // ----- What the two readers make of the events -----

  lemma {:induction false} BridgeReadsEvents(j: Json, lines: seq<string>, r: Reader, e: Events)
    requires e == EventsOf(lines)
    ensures Consume(j, lines, r) ==
            if e.done == [] then
              (var (after, ending) := Dispatch(j, ReadEvent(r, e.rest)); Ended(after, if ending.Some? then ending.value else Finished))
            else
              (var (after, ending) := Dispatch(j, ReadEvent(r, e.done[0]));
               if ending.Some? then Ended(after, ending.value) else Consume(j, LinesAfter(lines), after))
    decreases |lines|
  {
    hide ReadLine, Dispatch;
    if lines != [] {
      if lines[0] != "" {
        var f := EventsOf(lines[1..]);
        BridgeReadsEvents(j, lines[1..], ReadLine(r, lines[0]), f);
        if e.done == [] {
          assert e.rest[1..] == f.rest;
        } else {
          assert e.done[0][1..] == f.done[0];
        }
      }
    }
  }

  /** The lines after the first empty one. */
  function LinesAfter(lines: seq<string>): seq<string> {
    if lines == [] then [] else if lines[0] == "" then lines[1..] else LinesAfter(lines[1..])
  }

  lemma {:induction false} EventsAfter(lines: seq<string>)
    requires EventsOf(lines).done != []
    ensures EventsOf(LinesAfter(lines)) == Events(EventsOf(lines).done[1..], EventsOf(lines).rest)
    ensures |LinesAfter(lines)| < |lines|
  {
    if lines[0] != "" { EventsAfter(lines[1..]); }
  }

  lemma {:induction false} StandardReadsEvents(j: Json, lines: seq<string>, r: Reader, e: Events)
    requires e == EventsOf(lines)
    ensures StandardRead(j, lines, r) ==
            if e.done == [] then Ended(ReadEvent(r, e.rest), Finished)
            else
              (var (after, ending) := StandardDispatch(j, ReadEvent(r, e.done[0]));
               if ending.Some? then Ended(after, ending.value) else StandardRead(j, LinesAfter(lines), after))
    decreases |lines|
  {
    hide ReadLine, StandardDispatch;
    if lines != [] {
      if lines[0] != "" {
        var f := EventsOf(lines[1..]);
        StandardReadsEvents(j, lines[1..], ReadLine(r, lines[0]), f);
        if e.done == [] {
          assert e.rest[1..] == f.rest;
        } else {
          assert e.done[0][1..] == f.done[0];
        }
      }
    }
  }

  /** Reading event by event as the bridge does ... */
  function Bridged(j: Json, events: seq<seq<string>>, lastID: string, emitted: seq<string>): Outcome
    decreases |events|
  {
    if events == [] then Outcome(lastID, emitted, Finished)
    else
      var id := LastOf(IdsOf(events[0]), "");
      var next := if id != "" then id else lastID;
      if Stops(j, events[0]) then Outcome(next, emitted + Sent(j, events[0]), EndingOf(j, events[0]))
      else Bridged(j, events[1..], next, emitted + Sent(j, events[0]))
  }

  /** ... and as the standard does, with the id it has read so far. */
  function Standard(j: Json, events: seq<seq<string>>, buffer: string, lastID: string, emitted: seq<string>): Outcome
    decreases |events|
  {
    if events == [] then Outcome(lastID, emitted, Finished)
    else
      var id := LastOf(IdsOf(events[0]), buffer);
      if Stops(j, events[0]) then Outcome(id, emitted + Sent(j, events[0]), EndingOf(j, events[0]))
      else Standard(j, events[1..], id, id, emitted + Sent(j, events[0]))
  }

  lemma BridgeEnds(j: Json, event: seq<string>, lastID: string, emitted: seq<string>)
    ensures var id := LastOf(IdsOf(event), "");
            var (after, ending) := Dispatch(j, ReadEvent(Idle(lastID, emitted), event));
            && after == Idle(if id != "" then id else lastID, emitted + Sent(j, event))
            && (ending.Some? <==> Stops(j, event)) && (ending.Some? ==> ending.value == EndingOf(j, event))
            && (ending.None? ==> EndingOf(j, event) == Finished)
  {
    hide IdsOf, DataOf, ReadEvent;
    ReadEventGathers(Idle(lastID, emitted), event);
    assert [] + DataOf(event) == DataOf(event) && emitted + [] == emitted;
  }

  lemma StandardEnds(j: Json, event: seq<string>, buffer: string, lastID: string, emitted: seq<string>)
    ensures var id := LastOf(IdsOf(event), buffer);
            var (after, ending) := StandardDispatch(j, ReadEvent(Reader(buffer, [], lastID, emitted), event));
            && after == Reader(id, [], id, emitted + Sent(j, event))
            && (ending.Some? <==> Stops(j, event)) && (ending.Some? ==> ending.value == EndingOf(j, event))
  {
    hide IdsOf, DataOf, ReadEvent;
    ReadEventGathers(Reader(buffer, [], lastID, emitted), event);
    assert [] + DataOf(event) == DataOf(event) && emitted + [] == emitted;
  }

  /** The bridge reads the unfinished event like the others. */
  lemma {:induction false} BridgeInEvents(j: Json, lines: seq<string>, lastID: string, emitted: seq<string>)
    ensures var e := EventsOf(lines);
            Consume(j, lines, Idle(lastID, emitted)) == Bridged(j, e.done + [e.rest], lastID, emitted)
    decreases |lines|
  {
    hide Consume, ReadEvent, Dispatch, IdsOf, Stops, Sent, EndingOf, EventsOf, LinesAfter;
    var e := EventsOf(lines);
    var all := e.done + [e.rest];
    var first := all[0];
    BridgeReadsEvents(j, lines, Idle(lastID, emitted), e);
    BridgeEnds(j, first, lastID, emitted);
    if e.done == [] {
      assert all[1..] == [];
    } else {
      EventsAfter(lines);
      assert all[1..] == e.done[1..] + [e.rest];
      var id := LastOf(IdsOf(first), "");
      if !Stops(j, first) { BridgeInEvents(j, LinesAfter(lines), if id != "" then id else lastID, emitted + Sent(j, first)); }
    }
  }

  /** The standard reads the finished events only. */
  lemma {:induction false} StandardInEvents(j: Json, lines: seq<string>, buffer: string, lastID: string,
                                            emitted: seq<string>)
    ensures StandardRead(j, lines, Reader(buffer, [], lastID, emitted))
            == Standard(j, EventsOf(lines).done, buffer, lastID, emitted)
    decreases |lines|
  {
    hide StandardRead, ReadEvent, StandardDispatch, IdsOf, Stops, Sent, EndingOf, EventsOf, LinesAfter;
    var e := EventsOf(lines);
    StandardReadsEvents(j, lines, Reader(buffer, [], lastID, emitted), e);
    if e.done == [] {
      ReadEventGathers(Reader(buffer, [], lastID, emitted), e.rest);
    } else {
      var first := e.done[0];
      StandardEnds(j, first, buffer, lastID, emitted);
      EventsAfter(lines);
      var id := LastOf(IdsOf(first), buffer);
      if !Stops(j, first) { StandardInEvents(j, LinesAfter(lines), id, id, emitted + Sent(j, first)); }
    }
  }

  lemma {:induction false} BridgedMeans(j: Json, events: seq<seq<string>>, lastID: string, emitted: seq<string>)
    ensures var read := UpToStop(j, events);
            Bridged(j, events, lastID, emitted)
            == Outcome(BridgeId(lastID, read), emitted + SentAll(j, read), LastEnding(j, events))
    decreases |events|
  {
    hide IdsOf, Stops, Sent, EndingOf;
    if events == [] {
      assert emitted + [] == emitted;
    } else {
      var id := LastOf(IdsOf(events[0]), "");
      var read := UpToStop(j, events);
      assert read[1..] == if Stops(j, events[0]) then [] else UpToStop(j, events[1..]);
      BridgedMeans(j, events[1..], if id != "" then id else lastID, emitted + Sent(j, events[0]));
      assert emitted + Sent(j, events[0]) + SentAll(j, read[1..]) == emitted + (Sent(j, events[0]) + SentAll(j, read[1..]));
      assert Sent(j, events[0]) + [] == Sent(j, events[0]);
    }
  }

  lemma {:induction false} StandardMeans(j: Json, events: seq<seq<string>>, buffer: string, lastID: string,
                                         emitted: seq<string>)
    ensures var read := UpToStop(j, events);
            Standard(j, events, buffer, lastID, emitted)
            == Outcome(if read == [] then lastID else LastOf(IdsOfAll(read), buffer), emitted + SentAll(j, read),
                       LastEnding(j, events))
    decreases |events|
  {
    hide IdsOf, Stops, Sent, EndingOf;
    if events == [] {
      assert emitted + [] == emitted;
    } else {
      var id := LastOf(IdsOf(events[0]), buffer);
      var read := UpToStop(j, events);
      assert read[1..] == if Stops(j, events[0]) then [] else UpToStop(j, events[1..]);
      StandardMeans(j, events[1..], id, id, emitted + Sent(j, events[0]));
      assert emitted + Sent(j, events[0]) + SentAll(j, read[1..]) == emitted + (Sent(j, events[0]) + SentAll(j, read[1..]));
      assert Sent(j, events[0]) + [] == Sent(j, events[0]);
      IdsContinue(IdsOf(events[0]), IdsOfAll(read[1..]), buffer);
    }
  }

  lemma IdsContinue(a: seq<string>, b: seq<string>, buffer: string)
    ensures LastOf(a + b, buffer) == LastOf(b, LastOf(a, buffer))
  {}

  // ----- When they agree -----

  /** No finished event that is read ends with an id of its own that is not empty. */
  predicate NoneNamed(read: seq<seq<string>>) {
    forall i :: 0 <= i < |read| ==> LastOf(IdsOf(read[i]), "") == ""
  }

  /** The ids agree: an unfinished event that is read names no new one; and once an event has ended, the
      last id field is there and not empty, or no id was ever known. */
  predicate IdsAgree(j: Json, lines: seq<string>, lastID: string) {
    var e := EventsOf(lines);
    var read := UpToStop(j, e.done);
    var unfinished := if Stopped(j, e.done) then "" else LastOf(IdsOf(e.rest), "");
    if unfinished != "" then unfinished == StandardId(lastID, read)
    else read == [] || LastOf(IdsOfAll(read), "") != "" || (lastID == "" && NoneNamed(read))
  }

  lemma {:induction false} ReadAppend(j: Json, events: seq<seq<string>>, last: seq<string>)
    ensures UpToStop(j, events + [last]) == if Stopped(j, events) then UpToStop(j, events) else events + [last]
    ensures LastEnding(j, events + [last]) == if Stopped(j, events) then LastEnding(j, events) else EndingOf(j, last)
    ensures !Stopped(j, events) ==> UpToStop(j, events) == events && LastEnding(j, events) == Finished
    ensures Stopped(j, events) ==> LastEnding(j, events) != Finished
  {
    hide Stops;
    var all := events + [last];
    if events == [] {
      assert all == [last] && all[1..] == [];
      assert UpToStop(j, []) == [];
      EndingIsFinished(j, last);
    } else {
      assert all[0] == events[0] && all[1..] == events[1..] + [last];
      ReadAppend(j, events[1..], last);
      EndingIsFinished(j, events[0]);
    }
  }

  lemma EndingIsFinished(j: Json, event: seq<string>)
    ensures EndingOf(j, event) == Finished <==> !Stops(j, event)
  {}

  lemma {:induction false} SentAppend(j: Json, events: seq<seq<string>>, last: seq<string>)
    ensures SentAll(j, events + [last]) == SentAll(j, events) + Sent(j, last)
  {
    hide Sent;
    if events == [] {
      assert [last][1..] == [] && [] + [last] == [last];
      assert Sent(j, last) + [] == Sent(j, last);
    } else {
      assert (events + [last])[0] == events[0] && (events + [last])[1..] == events[1..] + [last];
      SentAppend(j, events[1..], last);
    }
  }

  lemma {:induction false} BridgeIdAppend(lastID: string, events: seq<seq<string>>, last: seq<string>)
    ensures var id := LastOf(IdsOf(last), "");
            BridgeId(lastID, events + [last]) == if id != "" then id else BridgeId(lastID, events)
    decreases |events|
  {
    hide IdsOf;
    if events == [] {
      assert [] + [last] == [last] && [last][1..] == [];
    } else {
      assert (events + [last])[0] == events[0] && (events + [last])[1..] == events[1..] + [last];
      var id := LastOf(IdsOf(events[0]), "");
      BridgeIdAppend(if id != "" then id else lastID, events[1..], last);
    }
  }

  /** The bridge's id against the last id field and the ids that were named. */
  lemma {:induction false} BridgeIdMeans(lastID: string, read: seq<seq<string>>)
    ensures LastOf(IdsOfAll(read), "") != "" ==> BridgeId(lastID, read) == LastOf(IdsOfAll(read), "")
    ensures BridgeId(lastID, read) == "" <==> lastID == "" && NoneNamed(read)
    decreases |read|
  {
    hide IdsOf;
    if read != [] {
      var id := LastOf(IdsOf(read[0]), "");
      var next := if id != "" then id else lastID;
      BridgeIdMeans(next, read[1..]);
      assert NoneNamed(read) <==> id == "" && NoneNamed(read[1..]) by { NamedSplits(read); }
      IdsContinue(IdsOf(read[0]), IdsOfAll(read[1..]), "");
      if IdsOfAll(read[1..]) == [] { NoIdsKeep(next, read[1..]); }
    }
  }

  lemma NamedSplits(read: seq<seq<string>>)
    requires read != []
    ensures NoneNamed(read) <==> LastOf(IdsOf(read[0]), "") == "" && NoneNamed(read[1..])
  {
    hide IdsOf, LastOf;
    if LastOf(IdsOf(read[0]), "") == "" && NoneNamed(read[1..]) {
      forall i | 0 <= i < |read| ensures LastOf(IdsOf(read[i]), "") == "" {
        if i > 0 { assert read[1..][i - 1] == read[i]; }
      }
    }
  }

  lemma {:induction false} NoIdsKeep(lastID: string, events: seq<seq<string>>)
    requires IdsOfAll(events) == []
    ensures BridgeId(lastID, events) == lastID
    decreases |events|
  {
    hide IdsOf;
    if events != [] { NoIdsKeep(lastID, events[1..]); }
  }

  /** What the two remember, against the condition on the ids. */
  lemma IdsAgreeExactly(j: Json, lines: seq<string>, lastID: string)
    ensures var e := EventsOf(lines);
            BridgeId(lastID, UpToStop(j, e.done + [e.rest])) == StandardId(lastID, UpToStop(j, e.done))
            <==> IdsAgree(j, lines, lastID)
  {
    hide EventsOf, IdsOf, UpToStop, BridgeId, LastEnding, Stopped, EndingOf, IdsOfAll, NoneNamed;
    var e := EventsOf(lines);
    ReadAppend(j, e.done, e.rest);
    BridgeIdAppend(lastID, e.done, e.rest);
    BridgeIdMeans(lastID, UpToStop(j, e.done));
    if UpToStop(j, e.done) == [] { NothingRead(lastID); }
  }

  /** From the same lines, whatever they are: the readers pass on the same payloads exactly when the
      unfinished event, if reading gets to it, passes on nothing; they end alike exactly when it does not
      end the reading; and they remember the same id exactly when the ids agree. */
  lemma ReadersAgreeExactly(j: Json, lines: seq<string>, lastID: string, emitted: seq<string>)
    ensures var bridge := Consume(j, lines, Idle(lastID, emitted));
            var standard := StandardRead(j, lines, Idle(lastID, emitted));
            var e := EventsOf(lines); var stopped := Stopped(j, e.done);
            && (bridge.emitted == standard.emitted <==> stopped || Sent(j, e.rest) == [])
            && (bridge.ending == standard.ending <==> stopped || !Stops(j, e.rest))
            && (bridge.lastID == standard.lastID <==> IdsAgree(j, lines, lastID))
  {
    hide Consume, StandardRead, EventsOf, Sent, Stops, IdsOf, SentAll, UpToStop, BridgeId, LastEnding, Stopped, EndingOf,
         Bridged, Standard, IdsAgree, IdsOfAll;
    var e := EventsOf(lines);
    BridgeInEvents(j, lines, lastID, emitted);
    BridgedMeans(j, e.done + [e.rest], lastID, emitted);
    StandardInEvents(j, lines, "", lastID, emitted);
    StandardMeans(j, e.done, "", lastID, emitted);
    ReadAppend(j, e.done, e.rest);
    SentAppend(j, e.done, e.rest);
    EndingIsFinished(j, e.rest);
    IdsAgreeExactly(j, lines, lastID);
    if !Stopped(j, e.done) {
      SameAfter(emitted, SentAll(j, e.done) + Sent(j, e.rest), SentAll(j, e.done));
      SameAfter(SentAll(j, e.done), Sent(j, e.rest), []);
      assert SentAll(j, e.done) + [] == SentAll(j, e.done);
    }
  }

  lemma NothingRead(lastID: string)
    ensures BridgeId(lastID, []) == lastID
  {}

  /** For every text, by its events: the same payloads are passed on exactly when the bridge's events, the
      unfinished one included, carry what the standard's finished events carry; and the same id is
      remembered exactly when the last one of them that is not empty is the last of the standard's. */
  lemma TextsAgreeByEvents(j: Json, text: string, lastID: string, emitted: seq<string>)
    ensures var e, f := EventsOf(Lines(text)), EventsOf(StandardLines(text));
            var read, asked := UpToStop(j, e.done + [e.rest]), UpToStop(j, f.done);
            var bridge := Consume(j, Lines(text), Idle(lastID, emitted));
            var standard := StandardRead(j, StandardLines(text), Idle(lastID, emitted));
            && (bridge.emitted == standard.emitted <==> SentAll(j, read) == SentAll(j, asked))
            && (bridge.lastID == standard.lastID <==> BridgeId(lastID, read) == StandardId(lastID, asked))
  {
    hide Consume, StandardRead, EventsOf, UpToStop, SentAll, Bridged, Standard, Lines, StandardLines, LastEnding, BridgeId,
         IdsOfAll;
    var e, f := EventsOf(Lines(text)), EventsOf(StandardLines(text));
    BridgeInEvents(j, Lines(text), lastID, emitted);
    BridgedMeans(j, e.done + [e.rest], lastID, emitted);
    StandardInEvents(j, StandardLines(text), "", lastID, emitted);
    StandardMeans(j, f.done, "", lastID, emitted);
    SameAfter(emitted, SentAll(j, UpToStop(j, e.done + [e.rest])), SentAll(j, UpToStop(j, f.done)));
  }

  lemma SameAfter(a: seq<string>, b: seq<string>, c: seq<string>)
    ensures a + b == a + c <==> b == c
  {
    assert (a + b)[|a|..] == b && (a + c)[|a|..] == c;
  }

  /** Two events with the same data and the same last id, whatever else their lines say. */
  predicate SameFields(a: seq<string>, b: seq<string>) {
    DataOf(a) == DataOf(b) && (IdsOf(a) == [] <==> IdsOf(b) == []) && LastOf(IdsOf(a), "") == LastOf(IdsOf(b), "")
  }

  predicate SameDone(a: seq<seq<string>>, b: seq<seq<string>>) {
    |a| == |b| && forall i :: 0 <= i < |a| ==> SameFields(a[i], b[i])
  }

  /** The text has the same events for both: each CR that stands alone only splits lines that both ignore. */
  predicate ReturnsDoNotMatter(text: string) {
    SameDone(EventsOf(Lines(text)).done, EventsOf(StandardLines(text)).done)
  }

  lemma {:induction false} FieldsDecide(j: Json, a: seq<seq<string>>, b: seq<seq<string>>, buffer: string,
                                        lastID: string, emitted: seq<string>)
    requires SameDone(a, b)
    ensures Standard(j, a, buffer, lastID, emitted) == Standard(j, b, buffer, lastID, emitted)
    decreases |a|
  {
    hide DataOf, IdsOf;
    if a != [] {
      assert SameFields(a[0], b[0]);
      assert forall i :: 0 <= i < |a[1..]| ==> a[1..][i] == a[i + 1] && b[1..][i] == b[i + 1];
      var id := LastOf(IdsOf(a[0]), buffer);
      FieldsDecide(j, a[1..], b[1..], id, id, emitted + Sent(j, a[0]));
    }
  }

  lemma SameTextSameFields(text: string)
    requires !LoneReturn(text) && !Marked(text)
    ensures ReturnsDoNotMatter(text)
  {
    hide Lines, StandardLines, EventsOf, SameFields;
    SameLinesExactly(text);
    forall a: seq<string> ensures SameFields(a, a) { SameAsItself(a); }
  }

  lemma SameAsItself(a: seq<string>)
    ensures SameFields(a, a)
  {}

  /** For every text in which no lone CR and no byte order mark matters: the bridge passes on the payloads
      and remembers the id that the standard asks for exactly when the unfinished event, if reading gets
      to it, passes on nothing, and the ids agree. */
  lemma TextsAgreeExactly(j: Json, text: string, lastID: string, emitted: seq<string>)
    requires ReturnsDoNotMatter(text)
    ensures var bridge := Consume(j, Lines(text), Idle(lastID, emitted));
            var standard := StandardRead(j, StandardLines(text), Idle(lastID, emitted));
            var e := EventsOf(Lines(text));
            bridge.emitted == standard.emitted && bridge.lastID == standard.lastID
            <==> (Stopped(j, e.done) || Sent(j, e.rest) == []) && IdsAgree(j, Lines(text), lastID)
  {
    hide Consume, StandardRead, EventsOf, Sent, Stopped, IdsAgree, Lines, StandardLines, SameDone, Standard;
    var e, f := EventsOf(Lines(text)), EventsOf(StandardLines(text));
    StandardInEvents(j, StandardLines(text), "", lastID, emitted);
    StandardInEvents(j, Lines(text), "", lastID, emitted);
    FieldsDecide(j, e.done, f.done, "", lastID, emitted);
    ReadersAgreeExactly(j, Lines(text), lastID, emitted);
  }
}
