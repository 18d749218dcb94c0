/** streamTask and consumeSSE as loops: one writes events while it polls, the other changes the bridge
    line by line. */
module StreamLoops {
  import opened Common
  import opened Text
  import opened Stream

  lemma {:induction false} PrintOfJoined(a: seq<Event>, b: seq<Event>)
    ensures Print(a + b) == Print(a) + Print(b)
  {
    hide Frame;
    if a == [] {
      assert a + b == b;
    } else {
      assert (a + b)[0] == a[0] && (a + b)[1..] == a[1..] + b;
      PrintOfJoined(a[1..], b);
    }
  }

  method StreamTaskLoop(c: Codec, initial: string, polls: seq<string>) returns (out: string)
    ensures out == Print(StreamTask(c, initial, polls))
  {
    hide Frame, Print;
    var eventID := 1;
    var events: seq<Event> := [Event(eventID, initial)];
    out := Frame(Event(eventID, initial));
    OneEvent(Event(1, initial));
    if c.terminal(initial) {
      assert StreamTask(c, initial, polls) == events;
      return;
    }
    var previous := initial;
    assert polls[0..] == polls;
    for n := 0 to |polls|
      invariant out == Print(events)
      invariant eventID >= 1 && events + PollFrom(c, polls[n..], previous, eventID) == StreamTask(c, initial, polls)
    {
      assert polls[n..][0] == polls[n] && polls[n..][1..] == polls[n + 1..];
      var current := polls[n];
      if current == previous { continue; }
      if c.failed(current) {
        eventID := eventID + 1;
        out := out + Frame(Event(eventID, current));
        OneEvent(Event(eventID, current));
        PrintOfJoined(events, [Event(eventID, current)]);
        assert StreamTask(c, initial, polls) == events + [Event(eventID, current)];
        return;
      }
      ghost var before, first := events, eventID;
      for k := 0 to 2
        invariant out == Print(events) && eventID == first + k
        invariant events == before + Notified(c, current, first)[..k]
      {
        eventID := eventID + 1;
        var e := Event(eventID, c.notify(METHODS[k], current));
        assert e == Notified(c, current, first)[k];
        OneEvent(e);
        PrintOfJoined(events, [e]);
        out := out + Frame(e);
        events := events + [e];
      }
      assert Notified(c, current, first)[..2] == Notified(c, current, first);
      previous := current;
      if c.terminal(current) { return; }
    }
    assert polls[|polls|..] == [] && events + [] == events;
  }

  function Notified(c: Codec, state: string, id: nat): seq<Event> {
    [Event(id + 1, c.notify(METHODS[0], state)), Event(id + 2, c.notify(METHODS[1], state))]
  }

  lemma OneEvent(e: Event)
    ensures Print([e]) == Frame(e)
  {
    hide Frame;
    assert [e][1..] == [];
  }

  class Bridge {
    var lastEventID: string
    var emitted: seq<string>

    constructor ()
      ensures lastEventID == "" && emitted == []
    {
      lastEventID, emitted := "", [];
    }

    /** Ends the event read so far. */
    method DispatchEvent(j: Json, eventID: string, data: seq<string>) returns (ending: Option<Ending>)
      modifies this
      ensures var (after, e) := Dispatch(j, Reader(eventID, data, old(lastEventID), old(emitted)));
              lastEventID == after.lastID && emitted == after.emitted && ending == e
    {
      if eventID != "" { lastEventID := eventID; }
      if |data| == 0 { return None; }
      var payload := Join(data);
      if !j.valid(payload) { return Some(BadJson); }
      emitted := emitted + [payload];
      if j.matching(payload) { return Some(Matched); }
      return None;
    }

    method ConsumeSSE(j: Json, text: string) returns (ending: Ending)
      modifies this
      ensures Outcome(lastEventID, emitted, ending) == Consume(j, Lines(text), Idle(old(lastEventID), old(emitted)))
    {
      hide Lines, Dispatch, FieldName, FieldValue;
      var lines := Lines(text);
      var eventID: string := "";
      var data: seq<string> := [];
      assert lines[0..] == lines;
      for n := 0 to |lines|
        invariant Consume(j, lines[n..], Reader(eventID, data, lastEventID, emitted))
                  == Consume(j, lines, Idle(old(lastEventID), old(emitted)))
      {
        assert lines[n..][0] == lines[n] && lines[n..][1..] == lines[n + 1..];
        var line := lines[n];
        if line == "" {
          DispatchClears(j, Reader(eventID, data, lastEventID, emitted));
          var done := DispatchEvent(j, eventID, data);
          eventID, data := "", [];
          if done.Some? { return done.value; }
          continue;
        }
        if ":" <= line { continue; }
        var value := FieldValue(line);
        match FieldName(line) {
          case "id" => if '\0' !in value { eventID := value; }
          case "data" => data := data + [value];
          case _ =>
        }
      }
      var done := DispatchEvent(j, eventID, data);
      ending := if done.Some? then done.value else Finished;
    }
  }

  lemma DispatchClears(j: Json, r: Reader)
    ensures Dispatch(j, r).0.eventID == "" && Dispatch(j, r).0.data == []
  {}
}
