/** Cron expressions and the search for the next minute that matches one. Times are nanoseconds
    since the start of year 1; minutes are numbered from there. The zone has one fixed offset, in
    seconds. */
module Cron {
  import opened Common
  import opened Text
  import opened Calendar

  const SECOND := 1_000_000_000
  const MINUTE := 60 * SECOND

  datatype CronError = BadStep | BadStart | BadEnd | BadNumber | OutOfRange | WrongFieldCount | NoMatch

  // ----- One field -----

  /** The values first, first + step, ... up to last. */
  datatype Span = Span(first: int, last: int, step: int)

  predicate InSpan(s: Span, value: int)
    requires s.step > 0
  {
    s.first <= value <= s.last && (value - s.first) % s.step == 0
  }

  function BeforeFirst(s: string, c: char): string { if c in s then s[..IndexOf(s, c)] else s }
  function AfterFirst(s: string, c: char): string { if c in s then s[IndexOf(s, c) + 1..] else "" }

  function ReadStep(part: string): Result<int, CronError> {
    if '/' !in part then Ok(1)
    else
      match ParseInt64(AfterFirst(part, '/'))
      case None => Err(BadStep)
      case Some(n) => if n <= 0 then Err(BadStep) else Ok(n)
  }

  function ReadBase(base: string, minimum: int, maximum: int): Result<(int, int), CronError> {
    if base == "*" then Ok((minimum, maximum))
    else if '-' in base then
      match ParseInt64(BeforeFirst(base, '-'))
      case None => Err(BadStart)
      case Some(first) =>
        match ParseInt64(AfterFirst(base, '-'))
        case None => Err(BadEnd)
        case Some(last) => Ok((first, last))
    else
      match ParseInt64(base)
      case None => Err(BadNumber)
      case Some(n) => Ok((n, n))
  }

  function ReadPart(part: string, minimum: int, maximum: int): (r: Result<Span, CronError>)
    ensures r.Ok? ==> r.value.step > 0 && minimum <= r.value.first <= r.value.last <= maximum
  {
    var step :- ReadStep(part);
    var range :- ReadBase(BeforeFirst(part, '/'), minimum, maximum);
    if range.0 < minimum || range.1 > maximum || range.0 > range.1 then Err(OutOfRange)
    else Ok(Span(range.0, range.1, step))
  }

  /** The parts of a field in order: the first that matches decides, and nothing after it is looked at. */
  function PartsMatch(parts: seq<string>, value: int, minimum: int, maximum: int): Result<bool, CronError>
    decreases |parts|
  {
    if parts == [] then Ok(false)
    else
      var span :- ReadPart(parts[0], minimum, maximum);
      if InSpan(span, value) then Ok(true) else PartsMatch(parts[1..], value, minimum, maximum)
  }

  /** cronFieldMatches. */
  function FieldMatches(field: string, value: int, minimum: int, maximum: int): Result<bool, CronError> {
    PartsMatch(Split(field, ','), value, minimum, maximum)
  }

  predicate ValidParts(parts: seq<string>, minimum: int, maximum: int) {
    forall i :: 0 <= i < |parts| ==> ReadPart(parts[i], minimum, maximum).Ok?
  }

  predicate Denotes(parts: seq<string>, value: int, minimum: int, maximum: int) {
    exists i :: 0 <= i < |parts| && ReadPart(parts[i], minimum, maximum).Ok?
             && InSpan(ReadPart(parts[i], minimum, maximum).value, value)
  }

  /** Without an invalid part, a field matches exactly the values some part of it denotes. */
  lemma {:induction false} PartsMatchTheirUnion(parts: seq<string>, value: int, minimum: int, maximum: int)
    requires ValidParts(parts, minimum, maximum)
    ensures PartsMatch(parts, value, minimum, maximum) == Ok(Denotes(parts, value, minimum, maximum))
    decreases |parts|
  {
    hide ReadPart;
    if parts != [] {
      var span := ReadPart(parts[0], minimum, maximum).value;
      PartsMatchTheirUnion(parts[1..], value, minimum, maximum);
      if Denotes(parts, value, minimum, maximum) && !InSpan(span, value) {
        var i :| 0 <= i < |parts| && ReadPart(parts[i], minimum, maximum).Ok?
                 && InSpan(ReadPart(parts[i], minimum, maximum).value, value);
        assert parts[1..][i - 1] == parts[i];
      }
      if Denotes(parts[1..], value, minimum, maximum) {
        var i :| 0 <= i < |parts[1..]| && ReadPart(parts[1..][i], minimum, maximum).Ok?
                 && InSpan(ReadPart(parts[1..][i], minimum, maximum).value, value);
        assert parts[i + 1] == parts[1..][i];
      }
    }
  }

  /** An invalid part is reported exactly for the values no part before it matches. */
  lemma {:induction false} InvalidPartSeenWhenReached(parts: seq<string>, value: int, minimum: int, maximum: int)
    ensures PartsMatch(parts, value, minimum, maximum).Err? <==>
            exists i :: 0 <= i < |parts| && ReadPart(parts[i], minimum, maximum).Err?
                     && !Denotes(parts[..i], value, minimum, maximum)
    decreases |parts|
  {
    hide ReadPart;
    if parts != [] {
      InvalidPartSeenWhenReached(parts[1..], value, minimum, maximum);
      if ReadPart(parts[0], minimum, maximum).Err? {
        assert parts[..0] == [];
      } else {
        forall i | 1 <= i < |parts|
          ensures Denotes(parts[..i], value, minimum, maximum)
                  <==> InSpan(ReadPart(parts[0], minimum, maximum).value, value)
                       || Denotes(parts[1..][..i - 1], value, minimum, maximum)
        {
          DenotesFirst(parts[..i], value, minimum, maximum);
          assert parts[..i][1..] == parts[1..][..i - 1];
        }
        if i :| 0 <= i < |parts[1..]| && ReadPart(parts[1..][i], minimum, maximum).Err?
                && !Denotes(parts[1..][..i], value, minimum, maximum) {
          assert parts[i + 1] == parts[1..][i];
        }
        if i :| 0 <= i < |parts| && ReadPart(parts[i], minimum, maximum).Err?
                && !Denotes(parts[..i], value, minimum, maximum) {
          assert parts[1..][i - 1] == parts[i];
        }
      }
    }
  }

  lemma DenotesFirst(parts: seq<string>, value: int, minimum: int, maximum: int)
    requires parts != [] && ReadPart(parts[0], minimum, maximum).Ok?
    ensures Denotes(parts, value, minimum, maximum)
            <==> InSpan(ReadPart(parts[0], minimum, maximum).value, value) || Denotes(parts[1..], value, minimum, maximum)
  {
    hide ReadPart;
    var rest := parts[1..];
    if Denotes(parts, value, minimum, maximum) && !InSpan(ReadPart(parts[0], minimum, maximum).value, value) {
      var i :| 0 <= i < |parts| && ReadPart(parts[i], minimum, maximum).Ok?
               && InSpan(ReadPart(parts[i], minimum, maximum).value, value);
      assert rest[i - 1] == parts[i];
    }
    if Denotes(rest, value, minimum, maximum) {
      var i :| 0 <= i < |rest| && ReadPart(rest[i], minimum, maximum).Ok?
               && InSpan(ReadPart(rest[i], minimum, maximum).value, value);
      assert parts[i + 1] == rest[i];
    }
  }

  // ----- A minute -----

  const LOWEST: seq<int> := [0, 0, 1, 1, 0]
  const HIGHEST: seq<int> := [59, 23, 31, 12, 6]

  /** A minute's minute, hour, day, month and weekday on the local clock. */
  function ClockOf(minute: int, offset: int): (values: seq<int>)
    ensures |values| == 5
  {
    var local := (minute * 60 + offset) / 60;
    var day := local / 1440;
    [local % 60, local % 1440 / 60, DateOf(day).day, DateOf(day).month, Weekday(day)]
  }

  /** Every clock value lies in the range its field allows. */
  lemma ClockInRange(minute: int, offset: int, i: nat)
    requires i < 5
    ensures LOWEST[i] <= ClockOf(minute, offset)[i] <= HIGHEST[i]
  {
    hide YearOf, BeforeYear, DateOf;
    DayOfItsDate((minute * 60 + offset) / 60 / 1440);
  }

  /** The fields one by one; the first that does not match ends the check. */
  function CheckFrom(fields: seq<string>, values: seq<int>, i: nat): Result<bool, CronError>
    requires |fields| == 5 && |values| == 5 && i <= 5
    decreases 5 - i
  {
    if i == 5 then Ok(true)
    else
      var ok :- FieldMatches(fields[i], values[i], LOWEST[i], HIGHEST[i]);
      if ok then CheckFrom(fields, values, i + 1) else Ok(false)
  }

  function Check(fields: seq<string>, offset: int, minute: int): Result<bool, CronError>
    requires |fields| == 5
  {
    CheckFrom(fields, ClockOf(minute, offset), 0)
  }

  // ----- The search -----

  function Search(fields: seq<string>, offset: int, minute: int, limit: int): Result<int, CronError>
    requires |fields| == 5
    decreases limit - minute
  {
    if minute >= limit then Err(NoMatch)
    else
      var ok :- Check(fields, offset, minute);
      if ok then Ok(minute) else Search(fields, offset, minute + 1, limit)
  }

  predicate IsSpace(c: char) {
    c in "\t\n\U{B}\U{C}\r \U{85}\U{A0}\U{1680}\U{2028}\U{2029}\U{202F}\U{205F}\U{3000}" || '\U{2000}' <= c <= '\U{200A}'
  }

  /** strings.Fields, with the word read so far. */
  function Words(s: string, word: string): seq<string>
    decreases |s|
  {
    if s == "" then (if word == "" then [] else [word])
    else if IsSpace(s[0]) then (if word == "" then [] else [word]) + Words(s[1..], "")
    else Words(s[1..], word + [s[0]])
  }

  /** Five years after a minute, at the same time of day. */
  function Horizon(minute: int, offset: int): int {
    var day := (minute * 60 + offset) / 60 / 1440;
    minute + 1440 * (AddYears(day, 5) - day)
  }

  function FirstMinute(after: int): int { after / MINUTE + 1 }

  /** nextCronTime. */
  function NextCron(expression: string, after: int, offset: int): Result<int, CronError> {
    var fields := Words(expression, "");
    if |fields| != 5 then Err(WrongFieldCount)
    else
      var minute :- Search(fields, offset, FirstMinute(after), Horizon(FirstMinute(after), offset));
      Ok(minute * MINUTE)
  }

  predicate Passes(fields: seq<string>, offset: int, from: int, to: int)
    requires |fields| == 5
  {
    forall m :: from <= m < to ==> Check(fields, offset, m) == Ok(false)
  }

  /** The first minute that is not simply without a match fails with `e`. */
  predicate FailsFirst(fields: seq<string>, offset: int, from: int, to: int, e: CronError)
    requires |fields| == 5
  {
    exists m :: from <= m < to && Check(fields, offset, m) == Err(e) && Passes(fields, offset, from, m)
  }

  /** The search is decided by the first minute that is not simply without a match. */
  lemma {:induction false} SearchStopsAtTheFirst(fields: seq<string>, offset: int, minute: int, limit: int)
    requires |fields| == 5
    ensures match Search(fields, offset, minute, limit)
            case Ok(m) => minute <= m < limit && Check(fields, offset, m) == Ok(true) && Passes(fields, offset, minute, m)
            case Err(e) => (e.NoMatch? && Passes(fields, offset, minute, limit)) || FailsFirst(fields, offset, minute, limit, e)
    decreases limit - minute
  {
    hide Check;
    if minute < limit {
      if Check(fields, offset, minute) == Ok(false) {
        SearchStopsAtTheFirst(fields, offset, minute + 1, limit);
        var r := Search(fields, offset, minute + 1, limit);
        if r.Err? && FailsFirst(fields, offset, minute + 1, limit, r.error) {
          var m :| minute + 1 <= m < limit && Check(fields, offset, m) == Err(r.error)
                   && Passes(fields, offset, minute + 1, m);
          assert Passes(fields, offset, minute, m);
        }
      } else if Check(fields, offset, minute).Err? {
        assert Passes(fields, offset, minute, minute);
      }
    }
  }

  // ----- Valid expressions -----

  predicate ValidField(field: string, i: nat)
    requires i < 5
  {
    ValidParts(Split(field, ','), LOWEST[i], HIGHEST[i])
  }

  predicate ValidExpression(expression: string) {
    |Words(expression, "")| == 5 && forall i :: 0 <= i < 5 ==> ValidField(Words(expression, "")[i], i)
  }

  predicate FieldAllows(field: string, i: nat, value: int)
    requires i < 5
  {
    Denotes(Split(field, ','), value, LOWEST[i], HIGHEST[i])
  }

  /** All five fields allow the minute: day of month and weekday must both fit. */
  predicate Matches(expression: string, offset: int, minute: int)
    requires |Words(expression, "")| == 5
  {
    forall i :: 0 <= i < 5 ==> FieldAllows(Words(expression, "")[i], i, ClockOf(minute, offset)[i])
  }

  lemma {:induction false} CheckIsConjunction(fields: seq<string>, values: seq<int>, i: nat)
    requires |fields| == 5 && |values| == 5 && i <= 5
    requires forall k :: 0 <= k < 5 ==> ValidField(fields[k], k)
    ensures CheckFrom(fields, values, i) == Ok(forall k :: i <= k < 5 ==> FieldAllows(fields[k], k, values[k]))
    decreases 5 - i
  {
    hide FieldMatches, FieldAllows, ValidField;
    if i < 5 {
      assert ValidField(fields[i], i);
      FieldIsUnion(fields[i], i, values[i]);
      CheckIsConjunction(fields, values, i + 1);
    }
  }

  lemma FieldIsUnion(field: string, i: nat, value: int)
    requires i < 5 && ValidField(field, i)
    ensures FieldMatches(field, value, LOWEST[i], HIGHEST[i]) == Ok(FieldAllows(field, i, value))
  {
    hide PartsMatch, Denotes;
    PartsMatchTheirUnion(Split(field, ','), value, LOWEST[i], HIGHEST[i]);
  }

  lemma CheckedMeansMatching(expression: string, offset: int, minute: int)
    requires ValidExpression(expression)
    ensures Check(Words(expression, ""), offset, minute) == Ok(Matches(expression, offset, minute))
  {
    hide FieldMatches, FieldAllows, ValidField, ClockOf;
    CheckIsConjunction(Words(expression, ""), ClockOf(minute, offset), 0);
  }

  predicate NoneIn(expression: string, offset: int, from: int, to: int)
    requires |Words(expression, "")| == 5
  {
    forall m :: from <= m < to ==> !Matches(expression, offset, m)
  }

  /** For a valid expression the answer is the least matching minute strictly after the given time,
      and there is no answer exactly when the next five years have no matching minute. */
  lemma NextCronIsLeast(expression: string, after: int, offset: int)
    requires ValidExpression(expression)
    ensures match NextCron(expression, after, offset)
            case Ok(t) =>
              && t > after && t % MINUTE == 0 && Matches(expression, offset, t / MINUTE)
              && NoneIn(expression, offset, after / MINUTE + 1, t / MINUTE)
              && t / MINUTE < Horizon(FirstMinute(after), offset)
            case Err(e) =>
              e.NoMatch? && NoneIn(expression, offset, after / MINUTE + 1, Horizon(FirstMinute(after), offset))
  {
    hide Check, Matches, ValidExpression, Horizon, Words;
    var fields := Words(expression, "");
    assert |fields| == 5 by { ValidHasFive(expression); }
    forall m ensures Check(fields, offset, m) == Ok(Matches(expression, offset, m)) {
      CheckedMeansMatching(expression, offset, m);
    }
    SearchStopsAtTheFirst(fields, offset, FirstMinute(after), Horizon(FirstMinute(after), offset));
  }

  lemma ValidHasFive(expression: string)
    requires ValidExpression(expression)
    ensures |Words(expression, "")| == 5
  {}

  /** The horizon is five years away: 1825 to 1827 days. */
  lemma HorizonIsFiveYears(minute: int, offset: int)
    ensures 1825 * 1440 <= Horizon(minute, offset) - minute <= 1827 * 1440
  {
    hide AddYears;
    FiveYears((minute * 60 + offset) / 60 / 1440);
  }

  lemma StarIsTheRange(i: nat)
    requires i < 5
    ensures Split("*", ',') == ["*"]
    ensures ReadPart("*", LOWEST[i], HIGHEST[i]) == Ok(Span(LOWEST[i], HIGHEST[i], 1))
  {
    assert "*"[0] == '*';
  }

  lemma StarAllows(minute: int, offset: int, i: nat)
    requires i < 5
    ensures FieldAllows("*", i, ClockOf(minute, offset)[i])
  {
    hide ClockOf, ReadPart, Split;
    StarIsTheRange(i);
    ClockInRange(minute, offset, i);
    var parts, value := Split("*", ','), ClockOf(minute, offset)[i];
    assert ReadPart(parts[0], LOWEST[i], HIGHEST[i]) == Ok(Span(LOWEST[i], HIGHEST[i], 1));
    assert InSpan(Span(LOWEST[i], HIGHEST[i], 1), value);
  }

  /** Five stars match every minute, because no clock value leaves the range of its field; so the next
      time is the next minute. */
  lemma StarsMatchEveryMinute(expression: string, after: int, offset: int)
    requires Words(expression, "") == ["*", "*", "*", "*", "*"]
    ensures ValidExpression(expression) && forall minute :: Matches(expression, offset, minute)
    ensures NextCron(expression, after, offset) == Ok(FirstMinute(after) * MINUTE)
  {
    hide ClockOf, ReadPart, Words, Split, Horizon, NextCron;
    forall i | 0 <= i < 5 ensures ValidField("*", i) { StarIsTheRange(i); }
    forall minute ensures Matches(expression, offset, minute) {
      forall i | 0 <= i < 5 ensures FieldAllows("*", i, ClockOf(minute, offset)[i]) { StarAllows(minute, offset, i); }
    }
    NextCronIsLeast(expression, after, offset);
    HorizonIsFiveYears(FirstMinute(after), offset);
    assert Matches(expression, offset, FirstMinute(after));
  }

  // ----- Repeated application -----

  /** The times reached by asking again from each answer, at most n of them. */
  function Runs(expression: string, after: int, offset: int, n: nat): seq<int>
    decreases n
  {
    if n == 0 then []
    else
      match NextCron(expression, after, offset)
      case Err(e) => []
      case Ok(t) => [t] + Runs(expression, t, offset, n - 1)
  }

  predicate Rising(times: seq<int>) { forall i, j :: 0 <= i < j < |times| ==> times[i] < times[j] }

  function LastOf(times: seq<int>, otherwise: int): int { if times == [] then otherwise else times[|times| - 1] }

  predicate AtMinutes(times: seq<int>, after: int) {
    forall t :: t in times ==> t > after && t % MINUTE == 0
  }

  /** Between two times exactly the matching minutes are listed. */
  ghost predicate ListsMatches(expression: string, offset: int, after: int, last: int, times: seq<int>)
    requires |Words(expression, "")| == 5
  {
    forall m :: after < m * MINUTE <= last ==> (Matches(expression, offset, m) <==> m * MINUTE in times)
  }

  /** Asking again and again lists every matching minute, once and in order, with none left out
      before the last one listed; a list that ends early has nothing in the next five years. */
  lemma {:induction false} RunsEnumerate(expression: string, after: int, offset: int, n: nat)
    requires ValidExpression(expression)
    ensures |Words(expression, "")| == 5
    ensures var times := Runs(expression, after, offset, n); var last := LastOf(times, after);
            && Rising(times) && AtMinutes(times, after) && ListsMatches(expression, offset, after, last, times)
            && (|times| < n ==> NoneIn(expression, offset, FirstMinute(last), Horizon(FirstMinute(last), offset)))
    decreases n
  {
    hide Matches, ValidExpression, Horizon, Words, NextCron;
    ValidHasFive(expression);
    if n > 0 {
      NextCronIsLeast(expression, after, offset);
      if NextCron(expression, after, offset).Ok? {
        var t := NextCron(expression, after, offset).value;
        RunsEnumerate(expression, t, offset, n - 1);
        ListsOneMore(expression, offset, after, t, Runs(expression, t, offset, n - 1));
      }
    }
  }

  lemma ListsOneMore(expression: string, offset: int, after: int, t: int, rest: seq<int>)
    requires |Words(expression, "")| == 5
    requires t > after && t % MINUTE == 0 && Matches(expression, offset, t / MINUTE)
    requires NoneIn(expression, offset, after / MINUTE + 1, t / MINUTE)
    requires Rising(rest) && AtMinutes(rest, t) && ListsMatches(expression, offset, t, LastOf(rest, t), rest)
    ensures var times := [t] + rest; var last := LastOf(times, after);
            last == LastOf(rest, t) && Rising(times) && AtMinutes(times, after)
            && ListsMatches(expression, offset, after, last, times)
  {
    hide Matches, Words;
    var times := [t] + rest;
    forall i | 0 <= i < |rest| ensures rest[i] > t { assert rest[i] in rest; }
    assert LastOf(times, after) == LastOf(rest, t);
    forall m | after < m * MINUTE <= LastOf(rest, t)
      ensures Matches(expression, offset, m) <==> m * MINUTE in times
    {
      if m * MINUTE < t {
        assert after / MINUTE + 1 <= m < t / MINUTE;
      } else if m * MINUTE == t {
        assert m == t / MINUTE && times[0] == t;
      }
    }
  }
}
