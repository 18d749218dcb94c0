/** parseBuildApksResult as three nested loops that append to the lists read so far. */
module ApkTocLoops {
  import opened Common
  import opened Wire
  import opened ApkSelect
  import opened ApkToc

  /** What the descriptions read so far become once the rest is read. */
  function Ahead(done: seq<Description>, rest: Parsed<seq<Description>>): Parsed<seq<Description>> {
    match rest
    case Err(e) => Err(e)
    case Ok(more) => Ok(done + more)
  }

  lemma NothingAhead(rest: Parsed<seq<Description>>)
    ensures Ahead([], rest) == rest
  {
    if rest.Ok? { assert [] + rest.value == rest.value; }
  }

  lemma AheadMore(a: seq<Description>, b: seq<Description>, rest: Parsed<seq<Description>>)
    ensures Ahead(a, Ahead(b, rest)) == Ahead(a + b, rest)
  {
    if rest.Ok? { assert a + (b + rest.value) == a + b + rest.value; }
  }

  method ApksLoop(raws: seq<Bytes>, m: Module, variant: int) returns (r: Parsed<seq<Description>>)
    ensures r == Apks(raws, m, variant)
  {
    hide Wired, ApkTarget, Messages, Master, StringOf;
    var done: seq<Description> := [];
    NothingAhead(Apks(raws, m, variant));
    assert raws[0..] == raws;
    for i := 0 to |raws|
      invariant Ahead(done, Apks(raws[i..], m, variant)) == Apks(raws, m, variant)
    {
      assert raws[i..][0] == raws[i] && raws[i..][1..] == raws[i + 1..];
      var fields :- Wired(raws[i]);
      var target :- ApkTarget(Messages(fields, 1));
      var master :- Master(Messages(fields, 3));
      if StringOf(fields, 2) == "" { return Err(MissingPath); }
      var description := Description(StringOf(fields, 2), m.name, m.delivery, target, master, variant);
      assert Apks(raws[i..], m, variant) == Ahead([description], Apks(raws[i + 1..], m, variant));
      AheadMore(done, [description], Apks(raws[i + 1..], m, variant));
      done := done + [description];
    }
    assert raws[|raws|..] == [] && done + [] == done;
    r := Ok(done);
  }

  method SetsLoop(raws: seq<Bytes>, variant: int) returns (r: Parsed<seq<Description>>)
    ensures r == Sets(raws, variant)
  {
    hide Wired, Messages, ModuleOf, Apks;
    var done: seq<Description> := [];
    NothingAhead(Sets(raws, variant));
    assert raws[0..] == raws;
    for i := 0 to |raws|
      invariant Ahead(done, Sets(raws[i..], variant)) == Sets(raws, variant)
    {
      assert raws[i..][0] == raws[i] && raws[i..][1..] == raws[i + 1..];
      var fields :- Wired(raws[i]);
      var m :- ModuleOf(Messages(fields, 1));
      var apks :- ApksLoop(Messages(fields, 2), m, variant);
      assert Sets(raws[i..], variant) == Ahead(apks, Sets(raws[i + 1..], variant));
      AheadMore(done, apks, Sets(raws[i + 1..], variant));
      done := done + apks;
    }
    assert raws[|raws|..] == [] && done + [] == done;
    r := Ok(done);
  }

  /** What the contents read so far become once the remaining variants are read. */
  function ContentsAhead(done: Contents, rest: Parsed<Contents>): Parsed<Contents> {
    match rest
    case Err(e) => Err(e)
    case Ok(more) => Ok(Joined(done, more))
  }

  lemma NoContentsAhead(rest: Parsed<Contents>)
    ensures ContentsAhead(Contents([], []), rest) == rest
  {
    if rest.Ok? {
      assert [] + rest.value.descriptions == rest.value.descriptions;
      assert [] + rest.value.variants == rest.value.variants;
    }
  }

  lemma ContentsAheadMore(a: Contents, b: Contents, rest: Parsed<Contents>)
    ensures ContentsAhead(a, ContentsAhead(b, rest)) == ContentsAhead(Joined(a, b), rest)
  {
    if rest.Ok? {
      assert a.descriptions + (b.descriptions + rest.value.descriptions)
          == a.descriptions + b.descriptions + rest.value.descriptions;
      assert a.variants + (b.variants + rest.value.variants) == a.variants + b.variants + rest.value.variants;
    }
  }

  method ParseTocLoop(data: Bytes) returns (r: Parsed<Toc>)
    ensures r == ParseToc(data)
  {
    hide Wired, Messages, VariantTarget, Sets, IntOf, StringOf;
    var root :- Wired(data);
    var raws := Messages(root, 1);
    var done := Contents([], []);
    NoContentsAhead(Variants(raws));
    assert raws[0..] == raws;
    for i := 0 to |raws|
      invariant ContentsAhead(done, Variants(raws[i..])) == Variants(raws)
    {
      assert raws[i..][0] == raws[i] && raws[i..][1..] == raws[i + 1..];
      var fields :- Wired(raws[i]);
      var number := IntOf(fields, 3);
      var target :- VariantTarget(Messages(fields, 1));
      var apks :- SetsLoop(Messages(fields, 2), number);
      var one := Contents(apks, [Variant(number, target)]);
      assert Variants(raws[i..]) == ContentsAhead(one, Variants(raws[i + 1..]));
      ContentsAheadMore(done, one, Variants(raws[i + 1..]));
      done := Joined(done, one);
    }
    assert raws[|raws|..] == [];
    assert Joined(done, Contents([], [])) == done;
    if done.variants == [] || done.descriptions == [] { return Err(NothingInstallable); }
    r := Ok(Toc(StringOf(root, 4), done));
  }
}
