/** Printed streams are read as the HTML standard asks, and one input for every way in which the bridge
    reads others differently. */
module EventStreamInputs {
  import opened Common
  import opened Text
  import opened Stream
  import opened EventStream

  // ----- Printed streams -----

  function FrameEvent(e: Event): seq<string> { ["id: " + Decimal(e.id), "event: message", "data: " + e.payload] }

  lemma FrameFields(e: Event)
    ensures DataOf(FrameEvent(e)) == [e.payload] && IdsOf(FrameEvent(e)) == [Decimal(e.id)]
  {
    hide Decimal, FieldName, FieldValue;
    var event := FrameEvent(e);
    DigitsAreTame(e.id);
    NamedField("id", Decimal(e.id));
    NamedField("event", "message");
    NamedField("data", e.payload);
    assert event[0] == "id" + [':'] + (" " + Decimal(e.id));
    assert event[1] == "event" + [':'] + (" " + "message");
    assert event[2] == "data" + [':'] + (" " + e.payload);
    assert event[1..][1..] == [event[2]] && event[1..][1..][1..] == [];
    assert DataOf(event[1..][1..]) == [e.payload] && IdsOf(event[1..][1..]) == [];
    assert DataOf(event[1..]) == [e.payload] && IdsOf(event[1..]) == [];
  }

  function FrameEvents(events: seq<Event>): seq<seq<string>> {
    if events == [] then [] else [FrameEvent(events[0])] + FrameEvents(events[1..])
  }

  lemma {:induction false} PrintedEvents(events: seq<Event>)
    requires forall i :: 0 <= i < |events| ==> OneLine(events[i].payload)
    ensures EventsOf(Lines(Print(events))) == Events(FrameEvents(events), [])
  {
    hide Lines, Frame;
    if events == [] {
      assert Lines("") == [] by { LastLine("", ""); assert "" + "" == ""; }
    } else {
      var e, rest := events[0], Lines(Print(events[1..]));
      PrintedEvents(events[1..]);
      FrameLines(e, Print(events[1..]));
      FourLines(FrameEvent(e), rest);
      assert FrameEvent(e) + [""] + rest == ["id: " + Decimal(e.id), "event: message", "data: " + e.payload, ""] + rest;
    }
  }

  lemma OneMoreLine(line: string, lines: seq<string>, first: seq<string>, others: seq<seq<string>>, rest: seq<string>)
    requires line != "" && EventsOf(lines) == Events([first] + others, rest)
    ensures EventsOf([line] + lines) == Events([[line] + first] + others, rest)
  {
    assert ([line] + lines)[1..] == lines && ([first] + others)[1..] == others;
  }

  lemma FourLines(event: seq<string>, rest: seq<string>)
    requires |event| == 3 && forall i :: 0 <= i < 3 ==> event[i] != ""
    ensures EventsOf(event + [""] + rest) == Events([event] + EventsOf(rest).done, EventsOf(rest).rest)
  {
    var e := EventsOf(rest);
    var ended := [""] + rest;
    assert ended[1..] == rest;
    assert EventsOf(ended) == Events([[]] + e.done, e.rest);
    hide EventsOf;
    var third := [event[2]] + ended;
    var second := [event[1]] + third;
    OneMoreLine(event[2], ended, [], e.done, e.rest);
    OneMoreLine(event[1], third, [event[2]] + [], e.done, e.rest);
    OneMoreLine(event[0], second, [event[1]] + ([event[2]] + []), e.done, e.rest);
    assert event + [""] + rest == [event[0]] + second;
    assert [event[0]] + ([event[1]] + ([event[2]] + [])) == event;
  }

  lemma {:induction false} PrintedHasNoReturn(events: seq<Event>)
    requires forall i :: 0 <= i < |events| ==> OneLine(events[i].payload)
    ensures '\r' !in Print(events) && !Marked(Print(events))
  {
    hide Decimal;
    if events != [] {
      DigitsAreTame(events[0].id);
      PrintedHasNoReturn(events[1..]);
      assert Print(events)[0] == Frame(events[0])[0] == 'i';
    }
  }

  lemma {:induction false} PrintedIds(j: Json, events: seq<Event>)
    requires events != []
    ensures UpToStop(j, FrameEvents(events)) != []
    ensures LastOf(IdsOfAll(UpToStop(j, FrameEvents(events))), "") != ""
  {
    hide Stops, IdsOf, Decimal, FrameEvent;
    var all := FrameEvents(events);
    var read := UpToStop(j, all);
    assert all[0] == FrameEvent(events[0]) && all[1..] == FrameEvents(events[1..]);
    FrameFields(events[0]);
    DigitsAreTame(events[0].id);
    assert read[1..] == if Stops(j, all[0]) then [] else UpToStop(j, all[1..]);
    IdsContinue(IdsOf(read[0]), IdsOfAll(read[1..]), "");
    if read[1..] != [] {
      PrintedIds(j, events[1..]);
      LastOfSome(IdsOfAll(read[1..]), LastOf(IdsOf(read[0]), ""));
    }
  }

  lemma LastOfSome(values: seq<string>, otherwise: string)
    requires LastOf(values, "") != ""
    ensures LastOf(values, otherwise) == LastOf(values, "")
  {}

  /** Printed streams stay clear of every difference: the bridge reads them as the standard does. */
  lemma PrintedStreamsConform(j: Json, events: seq<Event>, lastID: string, emitted: seq<string>)
    requires Readable(j, events)
    ensures var text := Print(events);
            Consume(j, Lines(text), Idle(lastID, emitted)) == StandardRead(j, StandardLines(text), Idle(lastID, emitted))
  {
    hide Consume, StandardRead, EventsOf, IdsOf, DataOf, Lines, StandardLines, Print, UpToStop, Stopped, FrameEvents, IdsOfAll;
    var text := Print(events);
    PrintedHasNoReturn(events);
    SameLinesExactly(text);
    PrintedEvents(events);
    ReadersAgreeExactly(j, Lines(text), lastID, emitted);
    NothingInEmpty();
    if events == [] { NoEventsRead(j); } else { PrintedIds(j, events); }
  }

  lemma NothingInEmpty()
    ensures DataOf([]) == [] && IdsOf([]) == []
  {}

  lemma NoEventsRead(j: Json)
    ensures UpToStop(j, FrameEvents([])) == []
  {}

  // ----- One input for each difference -----

  lemma {:induction false} Collect(a: string, s: string, line: string)
    requires OneLine(a)
    ensures EndLines(a + s, line) == EndLines(s, line + a)
    decreases |a|
  {
    if a == "" {
      assert a + s == s && line + a == line;
    } else {
      assert (a + s)[0] == a[0] && (a + s)[1..] == a[1..] + s && line + [a[0]] + a[1..] == line + a;
      Collect(a[1..], s, line + [a[0]]);
    }
  }

  lemma StandardLine(line: string, end: char, rest: string)
    requires OneLine(line) && (end == '\n' || (end == '\r' && (rest == "" || rest[0] != '\n')))
    ensures EndLines(line + [end] + rest, "") == [line] + EndLines(rest, "")
  {
    assert line + [end] + rest == line + ([end] + rest) && "" + line == line;
    Collect(line, [end] + rest, "");
    assert ([end] + rest)[1..] == rest;
  }

  lemma AnyLine(line: string, rest: string)
    requires '\n' !in line && (line == "" || line[|line| - 1] != '\r')
    ensures Lines(line + ['\n'] + rest) == [line] + Lines(rest)
  {
    hide IndexOf;
    var s := line + ['\n'] + rest;
    IndexOfFirst(line, '\n', rest);
    LineEndsAt(s, |line|);
    hide Lines;
    assert s[..|line|] == line && s[|line| + 1..] == rest;
  }

  lemma LineEndsAt(s: string, i: nat)
    requires '\n' in s && i == IndexOf(s, '\n')
    ensures Lines(s) == [DropCR(s[..i])] + Lines(s[i + 1..])
  {
    hide IndexOf, DropCR;
  }

  lemma DataLine(r: Reader, value: string)
    ensures ReadLine(r, "data: " + value) == r.(data := r.data + [value])
  {
    FieldsOfFrame(Event(0, value), r);
  }

  /** Two lines and an empty one as two events: the reading of `data: value` and an empty line. */
  lemma OneData(j: Json, value: string, r: Reader)
    requires j.valid(value) && !j.matching(value) && r.data == []
    ensures Consume(j, ["data: " + value, ""], r)
            == Outcome(if r.eventID != "" then r.eventID else r.lastID, r.emitted + [value], Finished)
    ensures StandardRead(j, ["data: " + value, ""], r) == Outcome(r.eventID, r.emitted + [value], Finished)
  {
    hide ReadLine;
    DataLine(r, value);
    var lines := ["data: " + value, ""];
    assert lines[1..] == [""] && [""][1..] == [] && [] + [value] == [value];
    assert Join([value]) == value;
  }

  /** The end of the stream: the bridge passes on what the standard discards. */
  lemma UnfinishedEventIsPassedOn(j: Json)
    requires j.valid("1") && !j.matching("1")
    ensures Consume(j, Lines("data: 1"), Idle("", [])).emitted == ["1"]
    ensures StandardRead(j, StandardLines("data: 1"), Idle("", [])).emitted == []
  {
    hide ReadLine;
    var text := "data: 1";
    assert text + "" == text;
    LastLine(text, "");
    SameLinesExactly(text);
    DataLine(Idle("", []), "1");
    assert "data: " + "1" == text && [text][1..] == [] && [] + ["1"] == ["1"];
    assert Join(["1"]) == "1";
  }

  /** An event without an id: the bridge remembers the one from an earlier stream, the standard starts
      every stream without one. */
  lemma EarlierIdIsKept(j: Json)
    requires j.valid("1") && !j.matching("1")
    ensures Consume(j, Lines("data: 1\n\n"), Idle("7", [])).lastID == "7"
    ensures StandardRead(j, StandardLines("data: 1\n\n"), Idle("7", [])).lastID == ""
  {
    hide Consume, StandardRead, Lines;
    var text := "data: 1\n\n";
    assert text == "data: 1" + ['\n'] + "\n" && "\n" == "" + ['\n'] + "";
    AnyLine("data: 1", "\n");
    AnyLine("", "");
    assert "" + "" == "";
    LastLine("", "");
    assert Lines(text) == ["data: 1", ""];
    assert "data: " + "1" == "data: 1";
    SameLinesExactly(text);
    OneData(j, "1", Idle("7", []));
  }

  const EMPTY_ID := "id: 7\ndata: 1\n\nid\ndata: 1\n\n"

  lemma SecondEventLines()
    ensures Lines("id\ndata: 1\n\n") == ["id", "data: 1", ""]
  {
    hide Lines;
    assert "id\ndata: 1\n\n" == "id" + ['\n'] + ("data: 1" + ['\n'] + ("" + ['\n'] + ""));
    AnyLine("id", "data: 1" + ['\n'] + ("" + ['\n'] + ""));
    AnyLine("data: 1", "" + ['\n'] + "");
    AnyLine("", "");
    assert "" + "" == "";
    LastLine("", "");
  }

  lemma EmptyIdLines()
    ensures Lines(EMPTY_ID) == ["id: 7", "data: 1", "", "id", "data: 1", ""]
  {
    hide Lines;
    var t := "id\ndata: 1\n\n";
    assert EMPTY_ID == "id: 7" + ['\n'] + ("data: 1" + ['\n'] + ("" + ['\n'] + t));
    AnyLine("id: 7", "data: 1" + ['\n'] + ("" + ['\n'] + t));
    AnyLine("data: 1", "" + ['\n'] + t);
    AnyLine("", t);
    SecondEventLines();
  }

  lemma EmptyIdStandardLines()
    ensures StandardLines(EMPTY_ID) == Lines(EMPTY_ID)
  {
    assert !LoneReturn(EMPTY_ID) && !Marked(EMPTY_ID);
    hide Lines, EndLines;
    SameLinesExactly(EMPTY_ID);
  }

  lemma IdLines(r: Reader)
    ensures ReadLine(r, "id: 7") == r.(eventID := "7") && ReadLine(r, "id") == r.(eventID := "")
  {
    NamedField("id", "7");
    assert "id" + [':'] + (" " + "7") == "id: 7";
    assert ':' !in "id";
  }

  /** An id line, one line of data and an empty line, before other lines. */
  lemma OneEvent(j: Json, id: string, value: string, rest: seq<string>, lastID: string, buffer: string, emitted: seq<string>)
    requires j.valid("1") && !j.matching("1") && id != ""
    requires forall r: Reader :: ReadLine(r, id) == r.(eventID := value)
    ensures Consume(j, [id, "data: 1", ""] + rest, Idle(lastID, emitted))
            == Consume(j, rest, Idle(if value != "" then value else lastID, emitted + ["1"]))
    ensures StandardRead(j, [id, "data: 1", ""] + rest, Reader(buffer, [], lastID, emitted))
            == StandardRead(j, rest, Reader(value, [], value, emitted + ["1"]))
  {
    hide ReadLine;
    var lines := [id, "data: 1", ""] + rest;
    var two := ["data: 1", ""] + rest;
    assert lines[1..] == two && two[1..] == [""] + rest && ([""] + rest)[1..] == rest;
    DataLine(Reader(value, [], lastID, emitted), "1");
    assert "data: " + "1" == "data: 1" && [] + ["1"] == ["1"] && Join(["1"]) == "1";
    var named, full := Reader(value, [], lastID, emitted), Reader(value, ["1"], lastID, emitted);
    assert Consume(j, lines, Idle(lastID, emitted)) == Consume(j, two, named) == Consume(j, [""] + rest, full);
    assert StandardRead(j, lines, Reader(buffer, [], lastID, emitted)) == StandardRead(j, two, named)
        == StandardRead(j, [""] + rest, full);
  }

  /** An empty id: the standard forgets the last id, the bridge keeps it. */
  lemma EmptyIdIsIgnored(j: Json)
    requires j.valid("1") && !j.matching("1")
    ensures Consume(j, Lines(EMPTY_ID), Idle("", [])).lastID == "7"
    ensures StandardRead(j, StandardLines(EMPTY_ID), Idle("", [])).lastID == ""
  {
    EmptyIdLines();
    EmptyIdStandardLines();
    hide Consume, StandardRead, ReadLine, Lines, StandardLines;
    forall r: Reader ensures ReadLine(r, "id: 7") == r.(eventID := "7") && ReadLine(r, "id") == r.(eventID := "") {
      IdLines(r);
    }
    var second := ["id", "data: 1", ""];
    assert second == second + [];
    OneEvent(j, "id: 7", "7", second, "", "", []);
    OneEvent(j, "id", "", [], "7", "7", [] + ["1"]);
    assert ["id: 7", "data: 1", ""] + second == ["id: 7", "data: 1", "", "id", "data: 1", ""];
    NothingLeft(j, Idle("7", [] + ["1"] + ["1"]));
    NothingLeft(j, Reader("", [], "", [] + ["1"] + ["1"]));
  }

  lemma NothingLeft(j: Json, r: Reader)
    requires r.data == [] && r.eventID == ""
    ensures Consume(j, [], r) == StandardRead(j, [], r) == Outcome(r.lastID, r.emitted, Finished)
  {}

  const LONE_RETURN := "data: [1,\rdata: 2]\n\n"

  lemma LoneReturnLines()
    ensures Lines(LONE_RETURN) == ["data: " + "[1,\rdata: 2]", ""]
  {
    hide Lines;
    var line := "data: [1,\rdata: 2]";
    assert LONE_RETURN == line + ['\n'] + "\n" && "\n" == "" + ['\n'] + "" && "" + "" == "";
    AnyLine(line, "\n");
    AnyLine("", "");
    LastLine("", "");
    assert line == "data: " + "[1,\rdata: 2]";
  }

  lemma LoneReturnStandardLines()
    ensures StandardLines(LONE_RETURN) == ["data: " + "[1,", "data: " + "2]", ""]
  {
    hide EndLines;
    assert LONE_RETURN == "data: [1," + ['\r'] + ("data: 2]" + ['\n'] + "\n");
    assert "\n" == "" + ['\n'] + "";
    StandardLine("data: [1,", '\r', "data: 2]" + ['\n'] + "\n");
    StandardLine("data: 2]", '\n', "\n");
    StandardLine("", '\n', "");
    NoStandardLines();
    assert "data: " + "[1," == "data: [1," && "data: " + "2]" == "data: 2]";
  }

  lemma NoStandardLines()
    ensures EndLines("", "") == []
  {}

  lemma OneBadData(j: Json, value: string)
    requires !j.valid(value)
    ensures Consume(j, ["data: " + value, ""], Idle("", [])) == Outcome("", [], BadJson)
  {
    hide ReadLine;
    DataLine(Idle("", []), value);
    var lines := ["data: " + value, ""];
    assert lines[1..] == [""] && [""][1..] == [] && [] + [value] == [value];
    assert Join([value]) == value;
  }

  lemma TwoData(j: Json, first: string, second: string)
    requires j.valid(first + "\n" + second) && !j.matching(first + "\n" + second)
    ensures StandardRead(j, ["data: " + first, "data: " + second, ""], Idle("", []))
            == Outcome("", [first + "\n" + second], Finished)
  {
    hide ReadLine;
    DataLine(Idle("", []), first);
    DataLine(Reader("", [first], "", []), second);
    var lines := ["data: " + first, "data: " + second, ""];
    assert lines[1..] == ["data: " + second, ""] && lines[1..][1..] == [""] && [""][1..] == [];
    assert [] + [first] == [first] && [first] + [second] == [first, second] && [first, second][1..] == [second];
    assert Join([first, second]) == first + "\n" + second;
    assert StandardRead(j, lines, Idle("", [])) == StandardRead(j, lines[1..], Reader("", [first], "", []))
        == StandardRead(j, [""], Reader("", [first, second], "", []));
    assert [] + [first + "\n" + second] == [first + "\n" + second];
  }

  /** A CR by itself: one line of data, not JSON, for the bridge, and two that are for the standard. */
  lemma LoneReturnJoinsLines(j: Json)
    requires j.valid("[1,\n2]") && !j.matching("[1,\n2]") && !j.valid("[1,\rdata: 2]")
    ensures Consume(j, Lines(LONE_RETURN), Idle("", [])) == Outcome("", [], BadJson)
    ensures StandardRead(j, StandardLines(LONE_RETURN), Idle("", [])) == Outcome("", ["[1,\n2]"], Finished)
  {
    hide Consume, StandardRead, Lines, StandardLines;
    LoneReturnLines();
    LoneReturnStandardLines();
    OneBadData(j, "[1,\rdata: 2]");
    assert "[1," + "\n" + "2]" == "[1,\n2]";
    TwoData(j, "[1,", "2]");
  }

  /** A byte order mark: the bridge takes it for a part of the first field's name. */
  lemma MarkHidesTheFirstField(j: Json)
    requires j.valid("1") && !j.matching("1")
    ensures var text := [BYTE_ORDER_MARK] + "data: 1\n\n";
            && Consume(j, Lines(text), Idle("", [])).emitted == []
            && StandardRead(j, StandardLines(text), Idle("", [])).emitted == ["1"]
  {
    hide Consume, StandardRead, Lines, ReadLine;
    var plain := "data: 1\n\n";
    var text := [BYTE_ORDER_MARK] + plain;
    var line := [BYTE_ORDER_MARK] + "data: 1";
    assert text == line + ['\n'] + "\n" && "\n" == "" + ['\n'] + "" && "" + "" == "";
    AnyLine(line, "\n");
    AnyLine("", "");
    LastLine("", "");
    assert Lines(text) == [line, ""];
    MarkedLine(Idle("", []));
    NothingSent(j, line);
    assert text[1..] == plain && plain == "data: 1" + ['\n'] + "\n";
    StandardLine("data: 1", '\n', "\n");
    StandardLine("", '\n', "");
    assert StandardLines(text) == ["data: 1", ""];
    assert "data: " + "1" == "data: 1";
    OneData(j, "1", Idle("", []));
  }

  lemma MarkedLine(r: Reader)
    ensures ReadLine(r, [BYTE_ORDER_MARK] + "data: 1") == r
  {
    var name := [BYTE_ORDER_MARK] + "data";
    NamedField(name, "1");
    assert name + [':'] + (" " + "1") == [BYTE_ORDER_MARK] + "data: 1";
    assert |name| == 5;
  }

  lemma NothingSent(j: Json, line: string)
    requires line != "" && ReadLine(Idle("", []), line) == Idle("", [])
    ensures Consume(j, [line, ""], Idle("", [])).emitted == []
  {
    hide ReadLine;
    assert [line, ""][1..] == [""] && [""][1..] == [];
  }

  const ACCIDENT := "x\rdata: 1\n\ndata: 1"

  lemma AccidentLines()
    ensures Lines(ACCIDENT) == ["x\rdata: 1", "", "data: 1"]
    ensures StandardLines(ACCIDENT) == ["x", "data: 1", "", "data: 1"]
  {
    hide Lines, EndLines;
    var line, last := "x\rdata: 1", "data: 1";
    assert ACCIDENT == line + ['\n'] + ("" + ['\n'] + last);
    AnyLine(line, "" + ['\n'] + last);
    AnyLine("", last);
    assert last + "" == last;
    LastLine(last, "");
    assert ACCIDENT == "x" + ['\r'] + (last + ['\n'] + ("" + ['\n'] + last));
    StandardLine("x", '\r', last + ['\n'] + ("" + ['\n'] + last));
    StandardLine(last, '\n', "" + ['\n'] + last);
    StandardLine("", '\n', last);
    Collect(last, "", "");
    assert "" + last == last;
    OneStandardLine(last);
  }

  lemma OneStandardLine(line: string)
    requires line != ""
    ensures EndLines("", line) == [line]
  {}

  /** A CR that matters need not show: what the bridge misses here it makes up at the end of the stream.
      No condition on the separators alone can be exact. */
  lemma AgreementByAccident(j: Json)
    requires j.valid("1") && !j.matching("1")
    ensures LoneReturn(ACCIDENT)
    ensures Consume(j, Lines(ACCIDENT), Idle("", [])) == StandardRead(j, StandardLines(ACCIDENT), Idle("", []))
  {
    assert ACCIDENT[1] == '\r' && ACCIDENT[2] == 'd';
    AccidentLines();
    hide Lines, StandardLines, Consume, StandardRead;
    BridgeByAccident(j);
    StandardByAccident(j);
  }

  lemma OneValue(r: Reader)
    requires r.data == []
    ensures ReadLine(r, "data: 1") == r.(data := ["1"])
    ensures Join(["1"]) == "1"
  {
    DataLine(r, "1");
    assert "data: " + "1" == "data: 1" && [] + ["1"] == ["1"];
  }

  lemma BridgeByAccident(j: Json)
    requires j.valid("1") && !j.matching("1")
    ensures Consume(j, ["x\rdata: 1", "", "data: 1"], Idle("", [])) == Outcome("", ["1"], Finished)
  {
    hide ReadLine;
    AccidentalLine(Idle("", []));
    OneValue(Idle("", []));
    var lines := ["x\rdata: 1", "", "data: 1"];
    assert lines[1..] == ["", "data: 1"] && lines[1..][1..] == ["data: 1"] && ["data: 1"][1..] == [] && [] + ["1"] == ["1"];
    assert Consume(j, lines, Idle("", [])) == Consume(j, ["data: 1"], Idle("", []));
  }

  lemma StandardByAccident(j: Json)
    requires j.valid("1") && !j.matching("1")
    ensures StandardRead(j, ["x", "data: 1", "", "data: 1"], Idle("", [])) == Outcome("", ["1"], Finished)
  {
    hide ReadLine;
    AccidentalLine(Idle("", []));
    OneValue(Idle("", []));
    OneValue(Idle("", ["1"]));
    var lines, ended := ["x", "data: 1", "", "data: 1"], ["", "data: 1"];
    assert lines[1..][1..] == ended && ended[1..] == ["data: 1"] && ["data: 1"][1..] == [] && [] + ["1"] == ["1"];
    assert StandardRead(j, lines, Idle("", [])) == StandardRead(j, ended, Reader("", ["1"], "", []));
    assert StandardRead(j, ended, Reader("", ["1"], "", [])) == StandardRead(j, ["data: 1"], Idle("", ["1"]));
  }

  lemma AccidentalLine(r: Reader)
    ensures ReadLine(r, "x\rdata: 1") == r && ReadLine(r, "x") == r
  {
    NamedField("x\rdata", "1");
    assert "x\rdata" + [':'] + (" " + "1") == "x\rdata: 1";
    assert |"x\rdata"| == 6 && ':' !in "x";
  }
}
