/** The progress stream of a task, as it is produced by polling and as the bridge reads it back. A
    polled response is its JSON text. */
module Stream {
  import opened Common
  import opened Text

  // ----- Producing -----

  /** What the text of a response tells: an error, a finished task, and the notifications about it. */
  datatype Codec = Codec(failed: string -> bool, terminal: string -> bool, notify: (string, string) -> string)

  const METHODS := ["notifications/tasks", "notifications/tasks/status"]

  datatype Event = Event(id: nat, payload: string)

  /** The polling loop: `previous` was the last response sent, `id` the last event number. */
  function PollFrom(c: Codec, polls: seq<string>, previous: string, id: nat): seq<Event>
    decreases |polls|
  {
    if polls == [] then []
    else
      var current := polls[0];
      if current == previous then PollFrom(c, polls[1..], previous, id)
      else if c.failed(current) then [Event(id + 1, current)]
      else
        var notices := [Event(id + 1, c.notify(METHODS[0], current)), Event(id + 2, c.notify(METHODS[1], current))];
        if c.terminal(current) then notices else notices + PollFrom(c, polls[1..], current, id + 2)
  }

  /** streamTask on an initial response without error, and the responses polled until the client leaves. */
  function StreamTask(c: Codec, initial: string, polls: seq<string>): seq<Event> {
    [Event(1, initial)] + if c.terminal(initial) then [] else PollFrom(c, polls, initial, 1)
  }

  // ----- What the stream says -----

  /** A list without the elements that repeat the one before. */
  function Destutter(states: seq<string>): (r: seq<string>)
    ensures states != [] ==> r != [] && r[0] == states[0]
  {
    if |states| <= 1 then states
    else if states[0] == states[1] then Destutter(states[1..])
    else [states[0]] + Destutter(states[1..])
  }

  predicate NoRepeats(states: seq<string>) { forall i :: 0 < i < |states| ==> states[i - 1] != states[i] }

  lemma {:induction false} DestutterHasNoRepeats(states: seq<string>)
    ensures NoRepeats(Destutter(states))
    ensures forall s :: s in Destutter(states) <==> s in states
    ensures NoRepeats(states) ==> Destutter(states) == states
  {
    if |states| > 1 {
      DestutterHasNoRepeats(states[1..]);
      assert forall s :: s in states <==> s == states[0] || s in states[1..];
      var rest := Destutter(states[1..]);
      if states[0] != states[1] {
        forall i | 0 < i < |[states[0]] + rest| ensures ([states[0]] + rest)[i - 1] != ([states[0]] + rest)[i] {
          if i > 1 { assert rest[i - 2] != rest[i - 1]; }
        }
      } else {
        assert states[0] == states[1] && !NoRepeats(states);
      }
    }
  }

  predicate Last(c: Codec, state: string) { c.failed(state) || c.terminal(state) }

  /** Up to and with the first error or finished state. */
  function UpToLast(c: Codec, states: seq<string>): seq<string> {
    if states == [] then [] else if Last(c, states[0]) then [states[0]] else [states[0]] + UpToLast(c, states[1..])
  }

  /** An error is sent as it is, any other state as one notification under each name. */
  function Notices(c: Codec, states: seq<string>): seq<string> {
    if states == [] then []
    else (if c.failed(states[0]) then [states[0]] else [c.notify(METHODS[0], states[0]), c.notify(METHODS[1], states[0])])
         + Notices(c, states[1..])
  }

  /** The states polled after the first response, without repeats. */
  function Changes(initial: string, polls: seq<string>): seq<string> { Destutter([initial] + polls)[1..] }

  /** What a stream is to say. */
  function Expected(c: Codec, initial: string, polls: seq<string>): seq<string> {
    [initial] + if c.terminal(initial) then [] else Notices(c, UpToLast(c, Changes(initial, polls)))
  }

  function Payloads(events: seq<Event>): seq<string> {
    seq(|events|, i requires 0 <= i < |events| => events[i].payload)
  }

  predicate NumberedFrom(events: seq<Event>, first: nat) {
    forall i :: 0 <= i < |events| ==> events[i].id == first + i
  }

  /** What the loop still sends: the changes of state, up to the last. */
  lemma {:induction false} PollsAreChanges(c: Codec, polls: seq<string>, previous: string, id: nat)
    ensures Payloads(PollFrom(c, polls, previous, id)) == Notices(c, UpToLast(c, Changes(previous, polls)))
    ensures NumberedFrom(PollFrom(c, polls, previous, id), id + 1)
    decreases |polls|
  {
    DestutterHasNoRepeats([previous] + polls);
    if polls != [] {
      var current, rest := polls[0], polls[1..];
      assert ([previous] + polls)[1..] == polls == [current] + rest;
      DestutterHasNoRepeats(polls);
      if current == previous {
        PollsAreChanges(c, rest, previous, id);
      } else {
        var changes := Destutter(polls);
        assert Destutter([previous] + polls)[1..] == changes;
        if !Last(c, current) {
          PollsAreChanges(c, rest, current, id + 2);
          assert changes == Destutter([current] + rest);
          StepOver(c, changes, PollFrom(c, rest, current, id + 2), id);
        } else {
          assert UpToLast(c, changes) == [current];
          assert Notices(c, [current][1..]) == [];
        }
      }
    }
  }

  lemma NumberedOver(first: Event, second: Event, later: seq<Event>, id: nat)
    requires first.id == id + 1 && second.id == id + 2 && NumberedFrom(later, id + 3)
    ensures NumberedFrom([first, second] + later, id + 1)
  {
    var all := [first, second] + later;
    forall i | 0 <= i < |all| ensures all[i].id == id + 1 + i {
      if i >= 2 { assert all[i] == later[i - 2]; }
    }
  }

  lemma PayloadsOver(first: Event, second: Event, later: seq<Event>)
    ensures Payloads([first, second] + later) == [first.payload, second.payload] + Payloads(later)
  {}

  lemma NoticesOver(c: Codec, changes: seq<string>)
    requires changes != [] && !Last(c, changes[0])
    ensures Notices(c, UpToLast(c, changes))
            == [c.notify(METHODS[0], changes[0]), c.notify(METHODS[1], changes[0])] + Notices(c, UpToLast(c, changes[1..]))
  {
    var tail := UpToLast(c, changes[1..]);
    assert UpToLast(c, changes) == [changes[0]] + tail;
    assert ([changes[0]] + tail)[1..] == tail;
  }

  lemma StepOver(c: Codec, changes: seq<string>, later: seq<Event>, id: nat)
    requires changes != [] && !Last(c, changes[0])
    requires Payloads(later) == Notices(c, UpToLast(c, changes[1..])) && NumberedFrom(later, id + 3)
    ensures var notices := [Event(id + 1, c.notify(METHODS[0], changes[0])), Event(id + 2, c.notify(METHODS[1], changes[0]))];
            Payloads(notices + later) == Notices(c, UpToLast(c, changes)) && NumberedFrom(notices + later, id + 1)
  {
    hide Payloads, Notices, NumberedFrom, UpToLast;
    var first := Event(id + 1, c.notify(METHODS[0], changes[0]));
    var second := Event(id + 2, c.notify(METHODS[1], changes[0]));
    NumberedOver(first, second, later, id);
    PayloadsOver(first, second, later);
    NoticesOver(c, changes);
  }

  /** The stream is the first response and then the states it polled with consecutive repeats removed,
      up to the first error or finished state, and its events are numbered 1, 2, 3, ... */
  lemma StreamIsTheChanges(c: Codec, initial: string, polls: seq<string>)
    ensures NumberedFrom(StreamTask(c, initial, polls), 1)
    ensures Payloads(StreamTask(c, initial, polls)) == Expected(c, initial, polls)
  {
    PollsAreChanges(c, polls, initial, 1);
    var events := StreamTask(c, initial, polls);
    var rest := if c.terminal(initial) then [] else PollFrom(c, polls, initial, 1);
    assert events == [Event(1, initial)] + rest;
    assert Payloads(events) == [initial] + Payloads(rest);
    forall i | 0 <= i < |events| ensures events[i].id == 1 + i {
      if i > 0 { assert events[i] == rest[i - 1]; }
    }
  }

  // ----- Printing and reading lines -----

  /** writeSSE. */
  function Frame(e: Event): string {
    "id: " + Decimal(e.id) + "\n" + "event: message" + "\n" + "data: " + e.payload + "\n" + "\n"
  }

  function Print(events: seq<Event>): string {
    if events == [] then "" else Frame(events[0]) + Print(events[1..])
  }

  function DropCR(line: string): string {
    if line != "" && line[|line| - 1] == '\r' then line[..|line| - 1] else line
  }

  /** bufio.ScanLines. */
  function Lines(s: string): seq<string>
    decreases |s|
  {
    if s == "" then []
    else if '\n' !in s then [DropCR(s)]
    else
      var i := IndexOf(s, '\n');
      [DropCR(s[..i])] + Lines(s[i + 1..])
  }

  lemma FirstLine(line: string, rest: string)
    requires '\n' !in line && '\r' !in line
    ensures Lines(line + "\n" + rest) == [line] + Lines(rest)
  {
    var s := line + ['\n'] + rest;
    assert s == line + "\n" + rest;
    IndexOfFirst(line, '\n', rest);
    assert s[..|line|] == line && s[|line| + 1..] == rest;
  }

  predicate OneLine(s: string) { '\n' !in s && '\r' !in s }

  lemma DigitsAreTame(n: nat)
    ensures OneLine(Decimal(n)) && '\0' !in Decimal(n) && Decimal(n) != ""
  {
    assert forall i :: 0 <= i < |Decimal(n)| ==> IsDigit(Decimal(n)[i]);
  }

  lemma FrameLines(e: Event, rest: string)
    requires OneLine(e.payload)
    ensures Lines(Frame(e) + rest) == ["id: " + Decimal(e.id), "event: message", "data: " + e.payload, ""] + Lines(rest)
  {
    hide Lines, Decimal;
    var id, data := "id: " + Decimal(e.id), "data: " + e.payload;
    DigitsAreTame(e.id);
    var last := "" + "\n" + rest;
    var third := data + "\n" + last;
    var second := "event: message" + "\n" + third;
    assert Frame(e) + rest == id + "\n" + second;
    FirstLine(id, second);
    FirstLine("event: message", third);
    FirstLine(data, last);
    FirstLine("", rest);
  }

  // ----- Reading events -----

  /** The reader between two lines, with what it has passed on so far. */
  datatype Reader = Reader(eventID: string, data: seq<string>, lastID: string, emitted: seq<string>)

  datatype Ending = Finished | BadJson | Matched

  datatype Outcome = Outcome(lastID: string, emitted: seq<string>, ending: Ending)

  /** Whether a payload is JSON, and whether it answers the awaited request (never, when reading does
      not stop there). */
  datatype Json = Json(valid: string -> bool, matching: string -> bool)

  function Join(parts: seq<string>): string {
    if parts == [] then "" else if |parts| == 1 then parts[0] else parts[0] + "\n" + Join(parts[1..])
  }

  /** The end of an event: its reader, and whether reading ends with it. */
  function Dispatch(j: Json, r: Reader): (Reader, Option<Ending>) {
    var lastID := if r.eventID != "" then r.eventID else r.lastID;
    if r.data == [] then (Reader("", [], lastID, r.emitted), None)
    else
      var payload := Join(r.data);
      if !j.valid(payload) then (Reader("", [], lastID, r.emitted), Some(BadJson))
      else (Reader("", [], lastID, r.emitted + [payload]), if j.matching(payload) then Some(Matched) else None)
  }

  function FieldName(line: string): string { if ':' in line then line[..IndexOf(line, ':')] else line }

  function FieldValue(line: string): string {
    if ':' !in line then ""
    else
      var value := line[IndexOf(line, ':') + 1..];
      if " " <= value then value[1..] else value
  }

  function ReadLine(r: Reader, line: string): Reader {
    if ":" <= line then r
    else if FieldName(line) == "id" then (if '\0' in FieldValue(line) then r else r.(eventID := FieldValue(line)))
    else if FieldName(line) == "data" then r.(data := r.data + [FieldValue(line)])
    else r
  }

  function Ended(r: Reader, ending: Ending): Outcome { Outcome(r.lastID, r.emitted, ending) }

  /** consumeSSE: an event ends at an empty line, and at the end of the input. */
  function Consume(j: Json, lines: seq<string>, r: Reader): Outcome
    decreases |lines|
  {
    if lines == [] then
      var (after, ending) := Dispatch(j, r);
      Ended(after, if ending.Some? then ending.value else Finished)
    else if lines[0] == "" then
      var (after, ending) := Dispatch(j, r);
      if ending.Some? then Ended(after, ending.value) else Consume(j, lines[1..], after)
    else Consume(j, lines[1..], ReadLine(r, lines[0]))
  }

  /** A reader between two events. */
  function Idle(lastID: string, emitted: seq<string>): Reader { Reader("", [], lastID, emitted) }

  // ----- The round trip -----

  lemma FieldsOfFrame(e: Event, r: Reader)
    ensures ReadLine(r, "id: " + Decimal(e.id)) == r.(eventID := Decimal(e.id))
    ensures ReadLine(r, "event: message") == r
    ensures ReadLine(r, "data: " + e.payload) == r.(data := r.data + [e.payload])
  {
    hide IndexOf, Decimal, FieldName, FieldValue;
    DigitsAreTame(e.id);
    NamedField("id", Decimal(e.id));
    NamedField("event", "message");
    NamedField("data", e.payload);
    assert "event: message" == "event" + [':'] + (" " + "message");
    assert "id: " + Decimal(e.id) == "id" + [':'] + (" " + Decimal(e.id));
    assert "data: " + e.payload == "data" + [':'] + (" " + e.payload);
  }

  lemma NamedField(name: string, value: string)
    requires ':' !in name && name != ""
    ensures var line := name + [':'] + (" " + value);
            !(":" <= line) && FieldName(line) == name && FieldValue(line) == value
  {
    var line := name + [':'] + (" " + value);
    IndexOfFirst(name, ':', " " + value);
    assert line[0] == name[0] != ':';
    assert line[..|name|] == name;
    assert line[|name| + 1..] == " " + value;
    assert (" " + value)[1..] == value;
  }

  lemma OneFrame(j: Json, e: Event, rest: string, lastID: string, emitted: seq<string>)
    requires OneLine(e.payload) && j.valid(e.payload)
    ensures Consume(j, Lines(Frame(e) + rest), Idle(lastID, emitted))
            == if j.matching(e.payload) then Outcome(Decimal(e.id), emitted + [e.payload], Matched)
               else Consume(j, Lines(rest), Idle(Decimal(e.id), emitted + [e.payload]))
  {
    hide Lines, Decimal, ReadLine, Frame;
    FrameLines(e, rest);
    var lines := Lines(Frame(e) + rest);
    var id, data := "id: " + Decimal(e.id), "data: " + e.payload;
    var r0 := Idle(lastID, emitted);
    var r1 := r0.(eventID := Decimal(e.id));
    var r3 := r1.(data := [e.payload]);
    FieldsOfFrame(e, r0);
    FieldsOfFrame(e, r1);
    assert lines[0] == id && lines[1..] == ["event: message", data, ""] + Lines(rest);
    assert lines[1..][1..] == [data, ""] + Lines(rest);
    assert lines[1..][1..][1..] == [""] + Lines(rest);
    assert lines[1..][1..][1..][1..] == Lines(rest);
    assert Consume(j, lines, r0) == Consume(j, lines[1..], r1);
    assert Consume(j, lines[1..], r1) == Consume(j, lines[1..][1..], r1);
    assert r1.data + [e.payload] == [e.payload];
    assert Consume(j, lines[1..][1..], r1) == Consume(j, lines[1..][1..][1..], r3);
    assert Join(r3.data) == e.payload;
    assert r3.data != [] && r3.eventID != "";
  }

  /** The payloads up to and with the first that answers the awaited request. */
  function UpToMatch(j: Json, payloads: seq<string>): seq<string> {
    if payloads == [] then []
    else if j.matching(payloads[0]) then [payloads[0]]
    else [payloads[0]] + UpToMatch(j, payloads[1..])
  }

  predicate Readable(j: Json, events: seq<Event>) {
    forall i :: 0 <= i < |events| ==> OneLine(events[i].payload) && j.valid(events[i].payload)
  }

  function LastID(events: seq<Event>, count: nat, otherwise: string): string
    requires count <= |events|
  {
    if count == 0 then otherwise else Decimal(events[count - 1].id)
  }

  lemma {:induction false} UpToMatchIsPrefix(j: Json, payloads: seq<string>)
    ensures UpToMatch(j, payloads) <= payloads
    ensures var n := |UpToMatch(j, payloads)|;
            && (forall i :: 0 <= i < n - 1 ==> !j.matching(payloads[i]))
            && (n < |payloads| ==> n > 0 && j.matching(payloads[n - 1]))
  {
    if payloads != [] {
      UpToMatchIsPrefix(j, payloads[1..]);
      if !j.matching(payloads[0]) {
        var n := |UpToMatch(j, payloads)|;
        forall i | 0 <= i < n - 1 ensures !j.matching(payloads[i]) {
          if i > 0 { assert payloads[1..][i - 1] == payloads[i]; }
        }
        if n < |payloads| { assert payloads[n - 1] == payloads[1..][n - 2]; }
      }
    }
  }

  /** Reading a printed stream back passes on exactly its payloads in order, up to and with the first
      that answers the awaited request, and remembers the number of the last event it read. */
  lemma {:induction false} StreamRoundTrip(j: Json, events: seq<Event>, lastID: string, emitted: seq<string>)
    requires Readable(j, events)
    ensures |UpToMatch(j, Payloads(events))| <= |events|
    ensures var read := UpToMatch(j, Payloads(events));
            var outcome := Consume(j, Lines(Print(events)), Idle(lastID, emitted));
            && outcome.emitted == emitted + read
            && outcome.lastID == LastID(events, |read|, lastID)
            && (outcome.ending == Matched <==> read != [] && j.matching(read[|read| - 1]))
            && outcome.ending != BadJson
    decreases |events|
  {
    hide Lines, Decimal, Frame, Dispatch, ReadLine;
    UpToMatchIsPrefix(j, Payloads(events));
    if events == [] {
      EmptyInput(j, lastID, emitted);
    } else {
      var e, rest := events[0], events[1..];
      assert Payloads(events)[1..] == Payloads(rest) && Payloads(events)[0] == e.payload;
      OneFrame(j, e, Print(rest), lastID, emitted);
      if !j.matching(e.payload) {
        StreamRoundTrip(j, rest, Decimal(e.id), emitted + [e.payload]);
        var read := UpToMatch(j, Payloads(rest));
        assert UpToMatch(j, Payloads(events)) == [e.payload] + read;
        assert emitted + [e.payload] + read == emitted + ([e.payload] + read);
        assert LastID(rest, |read|, Decimal(e.id)) == LastID(events, |read| + 1, lastID);
      }
    }
  }

  lemma EmptyInput(j: Json, lastID: string, emitted: seq<string>)
    ensures Lines("") == [] && Consume(j, [], Idle(lastID, emitted)) == Outcome(lastID, emitted, Finished)
  {}

  /** From the printer to the reader: what a stream says arrives, up to and with the first payload that
      answers an awaited request, together with the number of the last event read. */
  lemma StreamArrives(c: Codec, j: Json, initial: string, polls: seq<string>, lastID: string)
    requires Readable(j, StreamTask(c, initial, polls))
    ensures var outcome := Consume(j, Lines(Print(StreamTask(c, initial, polls))), Idle(lastID, []));
            && outcome.emitted == UpToMatch(j, Expected(c, initial, polls))
            && outcome.emitted != [] && outcome.lastID == Decimal(|outcome.emitted|) && outcome.ending != BadJson
            && (outcome.ending == Matched <==> j.matching(outcome.emitted[|outcome.emitted| - 1]))
  {
    hide Lines, Decimal, Consume, StreamTask, Print, Expected, Readable, UpToMatch;
    var events := StreamTask(c, initial, polls);
    StreamIsTheChanges(c, initial, polls);
    StreamRoundTrip(j, events, lastID, []);
    StreamStarts(c, initial, polls);
    SomethingIsRead(j, Payloads(events));
    var read := UpToMatch(j, Payloads(events));
    assert events[|read| - 1].id == |read|;
  }

  lemma SomethingIsRead(j: Json, payloads: seq<string>)
    requires payloads != []
    ensures UpToMatch(j, payloads) != []
  {}

  predicate Unmatched(j: Json, payloads: seq<string>) { forall i :: 0 <= i < |payloads| ==> !j.matching(payloads[i]) }

  /** Without an awaited answer everything is read. */
  lemma {:induction false} UnmatchedIsReadWhole(j: Json, payloads: seq<string>)
    requires Unmatched(j, payloads)
    ensures UpToMatch(j, payloads) == payloads
  {
    if payloads != [] { UnmatchedIsReadWhole(j, payloads[1..]); }
  }

  lemma StreamStarts(c: Codec, initial: string, polls: seq<string>)
    ensures StreamTask(c, initial, polls) != []
  {}
}
