/** The Content-Range header of a chunk. */
module ContentRange {
  import opened Common
  import opened Text
  import opened Uploads

  datatype RangeError = MissingPrefix | Malformed | BadStart | BadEnd | BadTotal | OutOfOrder

  const PREFIX := "bytes "

  function ParseContentRange(value: string): Result<Range, RangeError> {
    if !(PREFIX <= value) then Err(MissingPrefix)
    else
      var rangeAndTotal := Split(value[|PREFIX|..], '/');
      if |rangeAndTotal| != 2 then Err(Malformed)
      else
        var bounds := Split(rangeAndTotal[0], '-');
        if |bounds| != 2 then Err(Malformed)
        else
          var start, end := ParseInt64(bounds[0]), ParseInt64(bounds[1]);
          var total := ParseInt64(rangeAndTotal[1]);
          if start.None? then Err(BadStart)
          else if end.None? then Err(BadEnd)
          else if total.None? then Err(BadTotal)
          else if start.value < 0 || end.value < start.value || total.value <= 0 || end.value >= total.value
          then Err(OutOfOrder)
          else Ok(Range(start.value, end.value, total.value))
  }

  function Header(r: Range): string
    requires ValidRange(r)
  {
    PREFIX + Decimal(r.start) + "-" + Decimal(r.end) + "/" + Decimal(r.total)
  }

  /** Whatever is accepted is an ordered range whose length fits 64 bits. */
  lemma AcceptedRangesAreValid(value: string)
    requires ParseContentRange(value).Ok?
    ensures var r := ParseContentRange(value).value;
            ValidRange(r) && 1 <= r.end - r.start + 1 <= r.total <= MAX_INT64
  {}

  lemma NoSeparators(n: nat)
    ensures '-' !in Decimal(n) && '/' !in Decimal(n)
  {
    forall i | 0 <= i < |Decimal(n)| ensures Decimal(n)[i] != '-' && Decimal(n)[i] != '/' {
      assert IsDigit(Decimal(n)[i]);
    }
  }

  /** Every valid range can be sent, and is understood as it was meant. */
  lemma RangesRoundTrip(r: Range)
    requires ValidRange(r) && r.total <= MAX_INT64
    ensures ParseContentRange(Header(r)) == Ok(r)
  {
    hide Decimal, ParseInt64, IndexOf, Split;
    var a, b, c := Decimal(r.start), Decimal(r.end), Decimal(r.total);
    NoSeparators(r.start);
    NoSeparators(r.end);
    NoSeparators(r.total);
    var bounds := a + ['-'] + b;
    var value := Header(r);
    assert value == PREFIX + (bounds + ['/'] + c);
    assert value[..|PREFIX|] == PREFIX && value[|PREFIX|..] == bounds + ['/'] + c;
    SplitPair(bounds, '/', c);
    SplitPair(a, '-', b);
    ParseDecimal(r.start);
    ParseDecimal(r.end);
    ParseDecimal(r.total);
  }

  lemma SplitPair(a: string, c: char, b: string)
    requires c !in a && c !in b
    ensures Split(a + [c] + b, c) == [a, b]
  {
    SplitFirst(a, c, b);
  }
}
