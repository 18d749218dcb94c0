/** The grammar of cron expressions and what it means: everything that can be written is read back as
    itself, and the next time is told in the words of what was written. */
module CronText {
  import opened Common
  import opened Text
  import opened Calendar
  import opened Cron

  // ----- The grammar -----

  datatype Base = Star | Number(n: nat) | Interval(first: nat, last: nat)

  /** A part of a field: what it ranges over, and possibly a step. */
  datatype Part = Part(base: Base, step: Option<nat>)

  function BaseText(b: Base): string {
    match b
    case Star => "*"
    case Number(n) => Decimal(n)
    case Interval(first, last) => Decimal(first) + ['-'] + Decimal(last)
  }

  function PartText(p: Part): string {
    match p.step
    case None => BaseText(p.base)
    case Some(k) => BaseText(p.base) + ['/'] + Decimal(k)
  }

  function FieldText(parts: seq<Part>): string
    requires parts != []
  {
    if |parts| == 1 then PartText(parts[0]) else PartText(parts[0]) + [','] + FieldText(parts[1..])
  }

  /** A part that can be written for a field of these bounds. */
  predicate Writable(p: Part, minimum: int, maximum: int) {
    && 0 <= minimum <= maximum <= MAX_INT64
    && (p.step.Some? ==> 1 <= p.step.value <= MAX_INT64)
    && match p.base
       case Star => true
       case Number(n) => minimum <= n <= maximum
       case Interval(first, last) => minimum <= first <= last <= maximum
  }

  predicate AllWritable(parts: seq<Part>, minimum: int, maximum: int) {
    parts != [] && forall i :: 0 <= i < |parts| ==> Writable(parts[i], minimum, maximum)
  }

  // ----- The meaning -----

  function Least(b: Base, minimum: int): int {
    match b case Star => minimum case Number(n) => n case Interval(first, _) => first
  }

  function Greatest(b: Base, maximum: int): int {
    match b case Star => maximum case Number(n) => n case Interval(_, last) => last
  }

  /** The value is in the range, and a whole number of steps after its start. */
  ghost predicate Means(p: Part, value: int, minimum: int, maximum: int) {
    && Least(p.base, minimum) <= value <= Greatest(p.base, maximum)
    && (p.step.Some? ==> exists j: nat :: value == Least(p.base, minimum) + j * p.step.value)
  }

  ghost predicate SomeMeans(parts: seq<Part>, value: int, minimum: int, maximum: int) {
    exists i :: 0 <= i < |parts| && Means(parts[i], value, minimum, maximum)
  }

  /** A star means the whole range, a number itself alone, an interval what lies in it. */
  lemma UnsteppedParts(value: int, n: nat, first: nat, last: nat, minimum: int, maximum: int)
    ensures Means(Part(Star, None), value, minimum, maximum) <==> minimum <= value <= maximum
    ensures Means(Part(Number(n), None), value, minimum, maximum) <==> value == n
    ensures Means(Part(Interval(first, last), None), value, minimum, maximum) <==> first <= value <= last
  {}

  // ----- Reading what was written -----

  lemma DigitsHaveNo(s: string, c: char)
    requires AllDigits(s) && !IsDigit(c)
    ensures c !in s
  {}

  lemma BeforeAndAfter(a: string, c: char, b: string)
    requires c !in a
    ensures c in a + [c] + b && BeforeFirst(a + [c] + b, c) == a && AfterFirst(a + [c] + b, c) == b
  {
    IndexOfFirst(a, c, b);
    var s := a + [c] + b;
    assert s[..|a|] == a && s[|a| + 1..] == b;
  }

  lemma IntervalRead(first: nat, last: nat, minimum: int, maximum: int)
    requires first <= MAX_INT64 && last <= MAX_INT64
    ensures ReadBase(Decimal(first) + ['-'] + Decimal(last), minimum, maximum) == Ok((first, last))
  {
    hide Decimal, ParseInt64, BeforeFirst, AfterFirst;
    var a, b := Decimal(first), Decimal(last);
    var base := a + ['-'] + b;
    DigitsHaveNo(a, '-');
    BeforeAndAfter(a, '-', b);
    assert |base| >= 2;
    ParseDecimal(first);
    ParseDecimal(last);
  }

  lemma NumberRead(n: nat, minimum: int, maximum: int)
    requires n <= MAX_INT64
    ensures ReadBase(Decimal(n), minimum, maximum) == Ok((n, n))
  {
    hide Decimal, ParseInt64;
    DigitsHaveNo(Decimal(n), '-');
    DigitsHaveNo(Decimal(n), '*');
    assert "*"[0] == '*';
    ParseDecimal(n);
  }

  lemma BaseRead(b: Base, minimum: int, maximum: int)
    requires Writable(Part(b, None), minimum, maximum)
    ensures ReadBase(BaseText(b), minimum, maximum) == Ok((Least(b, minimum), Greatest(b, maximum)))
    ensures '/' !in BaseText(b) && ',' !in BaseText(b)
  {
    hide Decimal, ReadBase;
    match b {
      case Star => StarRead(minimum, maximum);
      case Number(n) =>
        NumberRead(n, minimum, maximum);
        DigitsHaveNo(Decimal(n), '/');
        DigitsHaveNo(Decimal(n), ',');
      case Interval(first, last) =>
        IntervalRead(first, last, minimum, maximum);
        DigitsHaveNo(Decimal(first), '/');
        DigitsHaveNo(Decimal(last), '/');
        DigitsHaveNo(Decimal(first), ',');
        DigitsHaveNo(Decimal(last), ',');
    }
  }

  lemma StarRead(minimum: int, maximum: int)
    ensures ReadBase("*", minimum, maximum) == Ok((minimum, maximum))
  {}

  function StepOf(p: Part): int { if p.step.Some? then p.step.value else 1 }

  /** Every part is read back as the range and the step it was written with. */
  lemma PartRoundTrip(p: Part, minimum: int, maximum: int)
    requires Writable(p, minimum, maximum)
    ensures ReadPart(PartText(p), minimum, maximum)
            == Ok(Span(Least(p.base, minimum), Greatest(p.base, maximum), StepOf(p)))
    ensures ',' !in PartText(p)
  {
    hide Decimal, ReadBase, BaseText, ParseInt64, BeforeFirst, AfterFirst;
    var base := BaseText(p.base);
    BaseRead(p.base, minimum, maximum);
    if p.step.Some? {
      var step := Decimal(p.step.value);
      DigitsHaveNo(step, ',');
      BeforeAndAfter(base, '/', step);
      ParseDecimal(p.step.value);
    } else {
      NothingBefore(base, '/');
    }
  }

  lemma NothingBefore(s: string, c: char)
    requires c !in s
    ensures BeforeFirst(s, c) == s
  {}

  lemma MeansInSpan(p: Part, value: int, minimum: int, maximum: int)
    requires Writable(p, minimum, maximum)
    ensures InSpan(Span(Least(p.base, minimum), Greatest(p.base, maximum), StepOf(p)), value)
            <==> Means(p, value, minimum, maximum)
  {
    var first, k := Least(p.base, minimum), StepOf(p);
    if p.step.Some? && value >= first { StepsFromStart(value - first, k); }
  }

  lemma StepsFromStart(distance: nat, k: nat)
    requires k > 0
    ensures distance % k == 0 <==> exists j: nat :: distance == j * k
  {
    if distance % k == 0 { assert distance == (distance / k) * k; }
    forall j: nat | distance == j * k ensures distance % k == 0 { MultipleOf(j, k); }
  }

  lemma MultipleOf(j: nat, k: nat)
    requires k > 0
    ensures (j * k) % k == 0
  {
    var q, r := (j * k) / k, (j * k) % k;
    assert j * k == k * q + r;
    LessThanOne(j - q, k, r) by { assert (j - q) * k == j * k - k * q; }
  }

  lemma LessThanOne(d: int, k: nat, r: int)
    requires d * k == r && 0 <= r < k
    ensures r == 0
  {
    AtLeastOne(d, k);
    AtLeastOne(-d, k);
    assert (-d) * k == -(d * k);
  }

  lemma {:induction false} AtLeastOne(d: int, k: nat)
    ensures d > 0 ==> d * k >= k
    decreases d
  {
    if d > 1 {
      AtLeastOne(d - 1, k);
      assert d * k == (d - 1) * k + k;
    }
  }

  lemma {:induction false} FieldTextSplits(parts: seq<Part>, minimum: int, maximum: int)
    requires AllWritable(parts, minimum, maximum)
    ensures var texts := Split(FieldText(parts), ',');
            |texts| == |parts| && forall i :: 0 <= i < |parts| ==> texts[i] == PartText(parts[i])
    decreases |parts|
  {
    hide PartText, Writable, Split;
    PartRoundTrip(parts[0], minimum, maximum);
    if |parts| > 1 {
      FieldTextSplits(parts[1..], minimum, maximum);
      SplitFirst(PartText(parts[0]), ',', FieldText(parts[1..]));
    } else {
      SplitWhole(PartText(parts[0]), ',');
    }
  }

  lemma SplitWhole(s: string, c: char)
    requires c !in s
    ensures Split(s, c) == [s]
  {}

  /** A field written from any list of parts is valid, and matches a value exactly when one of the parts
      means it. */
  lemma WrittenFieldMeansItsParts(parts: seq<Part>, value: int, minimum: int, maximum: int)
    requires AllWritable(parts, minimum, maximum)
    ensures ValidParts(Split(FieldText(parts), ','), minimum, maximum)
    ensures FieldMatches(FieldText(parts), value, minimum, maximum) == Ok(SomeMeans(parts, value, minimum, maximum))
  {
    hide PartText, ReadPart, Split, FieldText, Means, InSpan;
    FieldTextSplits(parts, minimum, maximum);
    var texts := Split(FieldText(parts), ',');
    forall i | 0 <= i < |parts|
      ensures ReadPart(texts[i], minimum, maximum).Ok?
      ensures InSpan(ReadPart(texts[i], minimum, maximum).value, value) <==> Means(parts[i], value, minimum, maximum)
    {
      PartRoundTrip(parts[i], minimum, maximum);
      MeansInSpan(parts[i], value, minimum, maximum);
    }
    PartsMatchTheirUnion(texts, value, minimum, maximum);
  }

  // ----- The five fields -----

  predicate Blank(s: string) { s != "" && forall i :: 0 <= i < |s| ==> s[i] == ' ' || s[i] == '\t' }

  /** Words with blanks between them, and perhaps around them. */
  function Spaced(words: seq<string>, blanks: seq<string>): string
    requires |blanks| == |words|
    decreases |words|
  {
    if words == [] then "" else blanks[0] + words[0] + Spaced(words[1..], blanks[1..])
  }

  predicate NoSpace(s: string) { s != "" && forall i :: 0 <= i < |s| ==> !IsSpace(s[i]) }

  lemma {:induction false} BlanksAreSkipped(blank: string, rest: string)
    requires forall i :: 0 <= i < |blank| ==> blank[i] == ' ' || blank[i] == '\t'
    ensures Words(blank + rest, "") == Words(rest, "")
    decreases |blank|
  {
    if blank == "" {
      assert blank + rest == rest;
    } else {
      assert (blank + rest)[0] == blank[0] && (blank + rest)[1..] == blank[1..] + rest;
      BlanksAreSkipped(blank[1..], rest);
    }
  }

  lemma {:induction false} WordIsRead(word: string, rest: string, before: string)
    requires forall i :: 0 <= i < |word| ==> !IsSpace(word[i])
    ensures Words(word + rest, before) == Words(rest, before + word)
    decreases |word|
  {
    hide IsSpace;
    if word == "" {
      assert word + rest == rest && before + word == before;
    } else {
      assert (word + rest)[0] == word[0] && (word + rest)[1..] == word[1..] + rest;
      WordIsRead(word[1..], rest, before + [word[0]]);
      assert before + [word[0]] + word[1..] == before + word;
    }
  }

  lemma WordEnds(word: string, rest: string)
    requires word != "" && (rest == "" || IsSpace(rest[0]))
    ensures Words(rest, word) == [word] + Words(rest, "")
  {
    hide IsSpace;
  }

  lemma {:induction false} SpacedWords(words: seq<string>, blanks: seq<string>)
    requires |blanks| == |words| && (forall i :: 0 <= i < |words| ==> NoSpace(words[i]))
    requires forall i :: 0 < i < |blanks| ==> Blank(blanks[i])
    requires words != [] ==> blanks[0] == "" || Blank(blanks[0])
    ensures Words(Spaced(words, blanks), "") == words
    decreases |words|
  {
    hide IsSpace;
    if words != [] {
      var rest := Spaced(words[1..], blanks[1..]);
      var word := words[0];
      assert NoSpace(word);
      SpacedWords(words[1..], blanks[1..]);
      assert blanks[0] + word + rest == blanks[0] + (word + rest);
      BlanksAreSkipped(blanks[0], word + rest);
      WordIsRead(word, rest, "");
      assert "" + word == word;
      if |words| > 1 {
        assert Blank(blanks[1]);
        BlankIsSpace(blanks[1][0]);
        assert rest[0] == blanks[1][0];
      }
      WordEnds(word, rest);
    }
  }

  lemma BlankIsSpace(c: char)
    requires c == ' ' || c == '\t'
    ensures IsSpace(c)
  {
    assert "\t\n\U{B}\U{C}\r \U{85}\U{A0}\U{1680}\U{2028}\U{2029}\U{202F}\U{205F}\U{3000}"[0] == '\t';
    assert "\t\n\U{B}\U{C}\r \U{85}\U{A0}\U{1680}\U{2028}\U{2029}\U{202F}\U{205F}\U{3000}"[5] == ' ';
  }

  lemma PartCharacters(p: Part)
    ensures NoSpace(PartText(p))
  {
    hide Decimal;
    forall c: char | IsDigit(c) || c in "*-/," ensures !IsSpace(c) { GrammarIsNoSpace(c); }
    assert forall i :: 0 <= i < |BaseText(p.base)| ==> IsDigit(BaseText(p.base)[i]) || BaseText(p.base)[i] in "*-/,";
    assert forall i :: 0 <= i < |PartText(p)| ==> IsDigit(PartText(p)[i]) || PartText(p)[i] in "*-/,";
    hide IsSpace;
  }

  lemma GrammarIsNoSpace(c: char)
    requires IsDigit(c) || c in "*-/,"
    ensures !IsSpace(c)
  {}

  lemma {:induction false} FieldIsWord(parts: seq<Part>)
    requires parts != []
    ensures NoSpace(FieldText(parts))
    decreases |parts|
  {
    hide PartText, IsSpace;
    PartCharacters(parts[0]);
    GrammarIsNoSpace(',') by { assert ","[0] == ','; }
    if |parts| > 1 { FieldIsWord(parts[1..]); }
  }

  // ----- The clock -----

  /** The minute is this date and time of day on the local clock. */
  predicate IsTime(minute: int, offset: int, d: Date, hour: int, m: int) {
    && RealDate(d) && 0 <= hour <= 23 && 0 <= m <= 59
    && 0 <= minute * 60 + offset - ((DayNumber(d) * 24 + hour) * 60 + m) * 60 < 60
  }

  /** What the clock shows for it. */
  lemma ClockReads(minute: int, offset: int, d: Date, hour: int, m: int)
    requires IsTime(minute, offset, d, hour, m)
    ensures ClockOf(minute, offset) == [m, hour, d.day, d.month, Weekday(DayNumber(d))]
  {
    hide YearOf, BeforeYear, DateOf, DayNumber, Weekday;
    DateOfItsDay(d);
    ClockParts(minute * 60 + offset, DayNumber(d), hour, m);
  }

  lemma ClockParts(seconds: int, day: int, hour: int, m: int)
    requires 0 <= hour <= 23 && 0 <= m <= 59 && 0 <= seconds - ((day * 24 + hour) * 60 + m) * 60 < 60
    ensures var local := seconds / 60; local / 1440 == day && local % 60 == m && local % 1440 / 60 == hour
  {
    var local := (day * 24 + hour) * 60 + m;
    assert seconds / 60 == local;
    assert local == 1440 * day + (hour * 60 + m);
    Remainder(local, day * 24 + hour, m);
  }

  /** Every minute is some date and time of day. */
  lemma SomeTime(minute: int, offset: int) returns (d: Date, hour: int, m: int)
    ensures IsTime(minute, offset, d, hour, m)
  {
    hide YearOf, BeforeYear, DateOf, DayNumber;
    var local := (minute * 60 + offset) / 60;
    d, hour, m := DateOf(local / 1440), local % 1440 / 60, local % 60;
    DayOfItsDate(local / 1440);
    TimeParts(local);
  }

  lemma TimeParts(local: int)
    ensures local == (local / 1440 * 24 + local % 1440 / 60) * 60 + local % 60
    ensures 0 <= local % 1440 / 60 <= 23
  {
    var day, inDay := local / 1440, local % 1440;
    var hour, m := inDay / 60, inDay % 60;
    assert local == 1440 * day + inDay && inDay == 60 * hour + m;
    Remainder(local, 24 * day + hour, m);
  }

  lemma Remainder(x: int, q: int, r: int)
    requires x == 60 * q + r && 0 <= r < 60
    ensures x % 60 == r
  {}

  // ----- The next time, in the words of the expression -----

  /** Five fields that can be written: minute, hour, day, month and weekday. */
  predicate Expression(fields: seq<seq<Part>>) {
    && |fields| == 5
    && AllWritable(fields[0], 0, 59) && AllWritable(fields[1], 0, 23) && AllWritable(fields[2], 1, 31)
    && AllWritable(fields[3], 1, 12) && AllWritable(fields[4], 0, 6)
  }

  function FieldTexts(fields: seq<seq<Part>>): (texts: seq<string>)
    requires Expression(fields)
    ensures |texts| == 5
  {
    [FieldText(fields[0]), FieldText(fields[1]), FieldText(fields[2]), FieldText(fields[3]), FieldText(fields[4])]
  }

  predicate GoodBlanks(blanks: seq<string>) {
    |blanks| == 5 && (blanks[0] == "" || Blank(blanks[0])) && forall i :: 0 < i < 5 ==> Blank(blanks[i])
  }

  /** The time is one that all five fields mean. */
  ghost predicate Meant(fields: seq<seq<Part>>, d: Date, hour: int, m: int)
    requires Expression(fields)
  {
    && SomeMeans(fields[0], m, 0, 59) && SomeMeans(fields[1], hour, 0, 23) && SomeMeans(fields[2], d.day, 1, 31)
    && SomeMeans(fields[3], d.month, 1, 12) && SomeMeans(fields[4], Weekday(DayNumber(d)), 0, 6)
  }

  ghost predicate MeantAt(fields: seq<seq<Part>>, offset: int, minute: int)
    requires Expression(fields)
  {
    exists d, hour, m :: IsTime(minute, offset, d, hour, m) && Meant(fields, d, hour, m)
  }

  lemma WrittenField(parts: seq<Part>, i: nat, value: int)
    requires i < 5 && AllWritable(parts, LOWEST[i], HIGHEST[i])
    ensures ValidField(FieldText(parts), i)
    ensures FieldAllows(FieldText(parts), i, value) <==> SomeMeans(parts, value, LOWEST[i], HIGHEST[i])
  {
    hide FieldText, SomeMeans, FieldMatches;
    WrittenFieldMeansItsParts(parts, value, LOWEST[i], HIGHEST[i]);
    FieldIsUnion(FieldText(parts), i, value);
  }

  lemma WrittenWords(fields: seq<seq<Part>>, blanks: seq<string>)
    requires Expression(fields) && GoodBlanks(blanks)
    ensures Words(Spaced(FieldTexts(fields), blanks), "") == FieldTexts(fields)
  {
    hide FieldText, NoSpace, Spaced, Words, Blank;
    forall i | 0 <= i < 5 ensures NoSpace(FieldTexts(fields)[i]) { FieldIsWord(fields[i]); }
    SpacedWords(FieldTexts(fields), blanks);
  }

  /** A written expression is valid, and matches the minutes whose date and time all five fields mean. */
  lemma WrittenExpressionMatches(fields: seq<seq<Part>>, blanks: seq<string>, offset: int)
    requires Expression(fields) && GoodBlanks(blanks)
    ensures var text := Spaced(FieldTexts(fields), blanks);
            ValidExpression(text) && forall minute :: Matches(text, offset, minute) <==> MeantAt(fields, offset, minute)
  {
    hide FieldText, Spaced, Words, ValidField, FieldAllows, ClockOf, IsTime, SomeMeans, AllWritable;
    var text := Spaced(FieldTexts(fields), blanks);
    WrittenWords(fields, blanks);
    forall i | 0 <= i < 5 ensures ValidField(Words(text, "")[i], i) { WrittenField(fields[i], i, 0); }
    forall minute ensures Matches(text, offset, minute) <==> MeantAt(fields, offset, minute) {
      var d, hour, m := SomeTime(minute, offset);
      MatchesAt(fields, text, offset, minute, d, hour, m);
      forall e, h, n | IsTime(minute, offset, e, h, n) ensures Meant(fields, e, h, n) <==> Matches(text, offset, minute) {
        MatchesAt(fields, text, offset, minute, e, h, n);
      }
    }
  }

  lemma MatchesAt(fields: seq<seq<Part>>, text: string, offset: int, minute: int, d: Date, hour: int, m: int)
    requires Expression(fields) && Words(text, "") == FieldTexts(fields) && IsTime(minute, offset, d, hour, m)
    ensures Matches(text, offset, minute) <==> Meant(fields, d, hour, m)
  {
    hide FieldText, Words, ValidField, FieldAllows, ClockOf, IsTime, SomeMeans, Weekday, DayNumber, Writable;
    var values := [m, hour, d.day, d.month, Weekday(DayNumber(d))];
    ClockReads(minute, offset, d, hour, m);
    WrittenField(fields[0], 0, m);
    WrittenField(fields[1], 1, hour);
    WrittenField(fields[2], 2, d.day);
    WrittenField(fields[3], 3, d.month);
    WrittenField(fields[4], 4, Weekday(DayNumber(d)));
    assert Matches(text, offset, minute) <==> forall i :: 0 <= i < 5 ==> FieldAllows(FieldTexts(fields)[i], i, values[i]);
    assert FieldTexts(fields)[0] == FieldText(fields[0]) && FieldTexts(fields)[1] == FieldText(fields[1])
        && FieldTexts(fields)[2] == FieldText(fields[2]) && FieldTexts(fields)[3] == FieldText(fields[3])
        && FieldTexts(fields)[4] == FieldText(fields[4]);
    hide Matches, FieldTexts;
    assert values[0] == m && values[1] == hour && values[2] == d.day && values[3] == d.month;
    assert (forall i :: 0 <= i < 5 ==> FieldAllows(FieldTexts(fields)[i], i, values[i])) <==>
           FieldAllows(FieldTexts(fields)[0], 0, values[0]) && FieldAllows(FieldTexts(fields)[1], 1, values[1])
           && FieldAllows(FieldTexts(fields)[2], 2, values[2]) && FieldAllows(FieldTexts(fields)[3], 3, values[3])
           && FieldAllows(FieldTexts(fields)[4], 4, values[4]);
  }

  /** The answer for a written expression is the least minute strictly later whose date and time are ones
      that all five fields mean; there is none exactly when the next five years have no such minute. */
  lemma NextTimeIsMeant(fields: seq<seq<Part>>, blanks: seq<string>, after: int, offset: int)
    requires Expression(fields) && GoodBlanks(blanks)
    ensures match NextCron(Spaced(FieldTexts(fields), blanks), after, offset)
            case Ok(t) =>
              && t > after && t % MINUTE == 0 && MeantAt(fields, offset, t / MINUTE)
              && (forall minute :: minute * MINUTE > after && minute < t / MINUTE ==> !MeantAt(fields, offset, minute))
            case Err(e) =>
              && e == NoMatch
              && forall minute :: minute * MINUTE > after && minute < Horizon(FirstMinute(after), offset) ==>
                   !MeantAt(fields, offset, minute)
  {
    hide Spaced, FieldTexts, Words, Matches, MeantAt, ValidExpression, Horizon, NextCron, Expression;
    var text := Spaced(FieldTexts(fields), blanks);
    WrittenExpressionMatches(fields, blanks, offset);
    NextCronIsLeast(text, after, offset);
    ValidHasFive(text);
    forall minute: int | minute * MINUTE > after ensures minute >= after / MINUTE + 1 {}
  }
}
