/** nextCronTime and cronFieldMatches as the loops they are. */
module CronLoops {
  import opened Common
  import opened Text
  import opened Cron

  /** One part of a field: its step, then its range, then the bounds. */
  method CronPart(part: string, minimum: int, maximum: int) returns (r: Result<Span, CronError>)
    ensures r == ReadPart(part, minimum, maximum)
  {
    hide ParseInt64, IndexOf;
    var step := 1;
    var base := part;
    if '/' in part {
      base := part[..IndexOf(part, '/')];
      var parsed := ParseInt64(part[IndexOf(part, '/') + 1..]);
      if parsed.None? || parsed.value <= 0 { return Err(BadStep); }
      step := parsed.value;
    }
    var first, last := minimum, maximum;
    if base != "*" {
      if '-' in base {
        var parsed := ParseInt64(base[..IndexOf(base, '-')]);
        if parsed.None? { return Err(BadStart); }
        first := parsed.value;
        parsed := ParseInt64(base[IndexOf(base, '-') + 1..]);
        if parsed.None? { return Err(BadEnd); }
        last := parsed.value;
      } else {
        var parsed := ParseInt64(base);
        if parsed.None? { return Err(BadNumber); }
        first, last := parsed.value, parsed.value;
      }
    }
    if first < minimum || last > maximum || first > last { return Err(OutOfRange); }
    r := Ok(Span(first, last, step));
  }

  method CronFieldMatches(field: string, value: int, minimum: int, maximum: int) returns (r: Result<bool, CronError>)
    ensures r == FieldMatches(field, value, minimum, maximum)
  {
    hide InSpan, ReadPart, Split;
    var parts := Split(field, ',');
    assert parts[0..] == parts;
    for i := 0 to |parts|
      invariant PartsMatch(parts[i..], value, minimum, maximum) == FieldMatches(field, value, minimum, maximum)
    {
      assert parts[i..][0] == parts[i] && parts[i..][1..] == parts[i + 1..];
      var span :- CronPart(parts[i], minimum, maximum);
      if InSpan(span, value) { return Ok(true); }
    }
    r := Ok(false);
  }

  /** One candidate minute against the five fields. */
  method CandidateMatches(fields: seq<string>, minute: int, offset: int) returns (r: Result<bool, CronError>)
    requires |fields| == 5
    ensures r == Check(fields, offset, minute)
  {
    hide FieldMatches, ClockOf;
    var values := ClockOf(minute, offset);
    for index := 0 to 5
      invariant CheckFrom(fields, values, index) == CheckFrom(fields, values, 0)
    {
      var ok :- CronFieldMatches(fields[index], values[index], LOWEST[index], HIGHEST[index]);
      if !ok { return Ok(false); }
    }
    r := Ok(true);
  }

  method NextCronTime(expression: string, after: int, offset: int) returns (r: Result<int, CronError>)
    ensures r == NextCron(expression, after, offset)
    ensures ValidExpression(expression) && r.Ok? ==>
              r.value > after && NoneIn(expression, offset, after / MINUTE + 1, r.value / MINUTE)
  {
    hide Check, Horizon, Words, ValidExpression, NoneIn;
    if ValidExpression(expression) { NextCronIsLeast(expression, after, offset); }
    var fields := Words(expression, "");
    if |fields| != 5 { return Err(WrongFieldCount); }
    var candidate := after / MINUTE + 1;
    var limit := Horizon(candidate, offset);
    while candidate < limit
      invariant Search(fields, offset, candidate, limit) == Search(fields, offset, FirstMinute(after), limit)
    {
      var found :- CandidateMatches(fields, candidate, offset);
      if found { return Ok(candidate * MINUTE); }
      candidate := candidate + 1;
    }
    r := Err(NoMatch);
  }

  /** An invalid part behind a part that matches everything is never reported. */
  lemma InvalidPartsCanHide(value: int)
    requires 0 <= value <= 59
    ensures ReadPart("99", 0, 59).Err? && FieldMatches("*,99", value, 0, 59) == Ok(true)
  {
    StarFirst();
    StarRead();
    BadSecond();
    hide ReadPart, Split;
  }

  lemma StarFirst()
    ensures Split("*,99", ',') == ["*", "99"]
  {
    assert "*,99" == "*" + [','] + "99";
    SplitFirst("*", ',', "99");
  }

  lemma StarRead()
    ensures ReadPart("*", 0, 59) == Ok(Span(0, 59, 1))
  {}

  lemma BadSecond()
    ensures ReadPart("99", 0, 59).Err?
  {
    assert AllDigits("99") && DigitsValue("99") == 99 by {
      assert "99"[..1] == "9" && "9"[..0] == "";
    }
  }
}
