/** Choosing the split APKs of an .apks archive for a device, from its parsed table of contents. */
module ApkSelect {
  import opened Common
  import opened Text
  import opened Archive
  import opened FileTree

  datatype Target = Target(
    abis: seq<string>, abiAlternatives: seq<string>,
    densities: seq<int>, densityAlternatives: seq<int>,
    languages: seq<string>, languageAlternatives: seq<string>,
    minSdks: seq<int>, sdkAlternatives: seq<int>)

  datatype Description = Description(path: string, mod: string, delivery: int, target: Target, isMaster: bool, variant: int)
  datatype Variant = Variant(number: int, target: Target)
  datatype Device = Device(abis: seq<string>, density: int, locales: seq<string>, sdk: int)
  datatype Selection = Selection(packageName: string, paths: seq<string>, variant: int, abi: string, density: int,
                                 locales: seq<string>)
  datatype SelectError = NoVariant | UnsafePath | NothingSelected

  // ----- Comparing names (ASCII letters fold) -----

  function LowerChar(c: char): char { if 'A' <= c <= 'Z' then (c as int + 32) as char else c }
  function Lower(s: string): string { seq(|s|, i requires 0 <= i < |s| => LowerChar(s[i])) }
  predicate EqualFold(a: string, b: string) { Lower(a) == Lower(b) }

  predicate ContainsFold(values: seq<string>, wanted: string) {
    exists i :: 0 <= i < |values| && EqualFold(values[i], wanted)
  }

  predicate ContainsAnyFold(left: seq<string>, right: seq<string>) {
    exists i :: 0 <= i < |left| && ContainsFold(right, left[i])
  }

  function Dashes(s: string): string {
    Lower(seq(|s|, i requires 0 <= i < |s| => if s[i] == '_' then '-' else s[i]))
  }

  predicate SameLanguage(target: string, locale: string) {
    Dashes(locale) == Dashes(target) || Split(Dashes(locale), '-')[0] == Split(Dashes(target), '-')[0]
  }

  predicate LanguagesIntersect(targets: seq<string>, locales: seq<string>) {
    exists i, j :: 0 <= i < |targets| && 0 <= j < |locales| && SameLanguage(targets[i], locales[j])
  }

  // ----- Nearest density and highest SDK -----

  /** |value - wanted| as the 64-bit code computes it. */
  function Distance(wanted: int, value: int): int {
    var d := Wrap64(value - wanted);
    if d < 0 then Wrap64(-d) else d
  }

  datatype Best = Best(value: int, distance: int)

  predicate Beats(value: int, distance: int, b: Best) {
    distance < b.distance || (distance == b.distance && value > b.value)
  }

  /** nearestDensity's loop over the values still to come. */
  function NearestFrom(wanted: int, values: seq<int>, best: Best): Best
    decreases |values|
  {
    if values == [] then best
    else
      var v := values[0];
      NearestFrom(wanted, values[1..], if Beats(v, Distance(wanted, v), best) then Best(v, Distance(wanted, v)) else best)
  }

  function NearestDensity(wanted: int, values: seq<int>): int { NearestFrom(wanted, values, Best(0, MAX_INT64)).value }

  function HighestFrom(wanted: int, values: seq<int>, best: int): int
    decreases |values|
  {
    if values == [] then best
    else HighestFrom(wanted, values[1..], if values[0] <= wanted && values[0] > best then values[0] else best)
  }

  function HighestNotAbove(wanted: int, values: seq<int>): int { HighestFrom(wanted, values, 0) }

  predicate Among(b: Best, wanted: int, values: seq<int>, initial: Best) {
    b == initial || (b.value in values && b.distance == Distance(wanted, b.value))
  }

  lemma {:induction false} NearestIsBest(wanted: int, values: seq<int>, best: Best)
    ensures var r := NearestFrom(wanted, values, best);
            && Among(r, wanted, values, best)
            && (forall v :: v in values ==> !Beats(v, Distance(wanted, v), r))
            && !Beats(best.value, best.distance, r)
    decreases |values|
  {
    if values != [] {
      var v := values[0];
      NearestIsBest(wanted, values[1..], if Beats(v, Distance(wanted, v), best) then Best(v, Distance(wanted, v)) else best);
    }
  }

  lemma {:induction false} HighestIsBest(wanted: int, values: seq<int>, best: int)
    ensures var r := HighestFrom(wanted, values, best);
            && r >= best && (r == best || (r in values && r <= wanted))
            && forall v :: v in values && v <= wanted ==> v <= r
    decreases |values|
  {
    if values != [] {
      HighestIsBest(wanted, values[1..], if values[0] <= wanted && values[0] > best then values[0] else best);
      forall v | v in values ensures v == values[0] || v in values[1..] {}
    }
  }

  function Abs(x: int): int { if x < 0 then -x else x }

  /** For densities as they occur, nearestDensity is the value at the least distance, and the
      larger one of two at the same distance. */
  lemma NearestDensityIsNearest(wanted: int, values: seq<int>)
    requires 0 <= wanted <= MAX_INT64 && forall v :: v in values ==> 0 <= v <= MAX_INT64
    ensures values == [] ==> NearestDensity(wanted, values) == 0
    ensures values != [] ==>
              && NearestDensity(wanted, values) in values
              && forall v :: v in values ==>
                   var r := NearestDensity(wanted, values);
                   Abs(r - wanted) < Abs(v - wanted) || (Abs(r - wanted) == Abs(v - wanted) && r >= v)
  {
    NearestIsBest(wanted, values, Best(0, MAX_INT64));
    forall v | v in values ensures Distance(wanted, v) == Abs(v - wanted) <= MAX_INT64 {}
    if values != [] {
      var r := NearestFrom(wanted, values, Best(0, MAX_INT64));
      assert values[0] in values;
      if r == Best(0, MAX_INT64) { assert !Beats(values[0], Distance(wanted, values[0]), r); }
    }
  }

  /** highestNotAbove is the highest positive value not above the wanted one, or 0. */
  lemma HighestNotAboveIsHighest(wanted: int, values: seq<int>)
    ensures var r := HighestNotAbove(wanted, values);
            && (r == 0 || (r > 0 && r in values && r <= wanted))
            && forall v :: v in values && v <= wanted ==> v <= r
  {
    HighestIsBest(wanted, values, 0);
  }

  /** A list of SDK floors lets a device in exactly when one of them is positive and not above its own
      level; a floor of 0 lets nobody in. */
  lemma SomeFloorFits(wanted: int, values: seq<int>)
    ensures HighestNotAbove(wanted, values) != 0 <==> exists v :: v in values && 0 < v <= wanted
  {
    HighestNotAboveIsHighest(wanted, values);
  }

  /** Neither depends on the order of the values. */
  lemma ChoicesIgnoreOrder(wanted: int, a: seq<int>, b: seq<int>)
    requires forall v :: v in a <==> v in b
    ensures NearestDensity(wanted, a) == NearestDensity(wanted, b)
    ensures HighestNotAbove(wanted, a) == HighestNotAbove(wanted, b)
  {
    NearestIsBest(wanted, a, Best(0, MAX_INT64));
    NearestIsBest(wanted, b, Best(0, MAX_INT64));
    HighestIsBest(wanted, a, 0);
    HighestIsBest(wanted, b, 0);
  }

  // ----- Variants -----

  predicate MatchesVariant(t: Target, device: Device) {
    && (t.abis != [] ==> ContainsAnyFold(t.abis, device.abis))
    && !(t.abis == [] && t.abiAlternatives != [] && ContainsAnyFold(t.abiAlternatives, device.abis))
    && (t.minSdks != [] ==> HighestNotAbove(device.sdk, t.minSdks) != 0)
    && (t.densities != [] ==> NearestDensity(device.density, t.densities) != 0)
  }

  /** The first matching variant of a list, as the loop over the sorted variants finds it. */
  function FirstMatch(variants: seq<Variant>, device: Device): Option<int>
    decreases |variants|
  {
    if variants == [] then None
    else if MatchesVariant(variants[0].target, device) then Some(variants[0].number)
    else FirstMatch(variants[1..], device)
  }

  predicate Descending(variants: seq<Variant>) {
    forall i, j :: 0 <= i < j < |variants| ==> variants[i].number >= variants[j].number
  }

  /** Insertion of a variant into a list sorted by falling number. */
  function InsertVariant(v: Variant, sorted: seq<Variant>): seq<Variant>
    decreases |sorted|
  {
    if sorted == [] || v.number >= sorted[0].number then [v] + sorted else [sorted[0]] + InsertVariant(v, sorted[1..])
  }

  function SortVariants(variants: seq<Variant>): seq<Variant> {
    if variants == [] then [] else InsertVariant(variants[0], SortVariants(variants[1..]))
  }

  lemma {:induction false} InsertVariantKeeps(v: Variant, sorted: seq<Variant>)
    ensures multiset(InsertVariant(v, sorted)) == multiset{v} + multiset(sorted)
    decreases |sorted|
  {
    if sorted != [] {
      assert sorted == [sorted[0]] + sorted[1..];
      if v.number < sorted[0].number { InsertVariantKeeps(v, sorted[1..]); }
    }
  }

  lemma {:induction false} InsertVariantSorts(v: Variant, sorted: seq<Variant>)
    requires Descending(sorted)
    ensures Descending(InsertVariant(v, sorted))
    decreases |sorted|
  {
    if sorted != [] && v.number < sorted[0].number {
      InsertVariantSorts(v, sorted[1..]);
      InsertVariantKeeps(v, sorted[1..]);
      var rest := InsertVariant(v, sorted[1..]);
      forall i | 0 <= i < |rest| ensures sorted[0].number >= rest[i].number {
        assert rest[i] in multiset(rest);
        assert rest[i] == v || rest[i] in sorted[1..];
      }
    }
  }

  lemma {:induction false} SortVariantsSorts(variants: seq<Variant>)
    ensures Descending(SortVariants(variants)) && multiset(SortVariants(variants)) == multiset(variants)
    decreases |variants|
  {
    if variants != [] {
      SortVariantsSorts(variants[1..]);
      InsertVariantSorts(variants[0], SortVariants(variants[1..]));
      InsertVariantKeeps(variants[0], SortVariants(variants[1..]));
      assert variants == [variants[0]] + variants[1..];
    }
  }

  /** `n` is the highest number of a matching variant. */
  predicate HighestMatch(variants: seq<Variant>, device: Device, n: int) {
    && (exists v :: v in variants && MatchesVariant(v.target, device) && v.number == n)
    && (forall v :: v in variants && MatchesVariant(v.target, device) ==> v.number <= n)
  }

  lemma {:induction false} FirstMatchIsHighest(variants: seq<Variant>, device: Device)
    requires Descending(variants)
    ensures match FirstMatch(variants, device)
            case None => forall v :: v in variants ==> !MatchesVariant(v.target, device)
            case Some(n) => HighestMatch(variants, device, n)
    decreases |variants|
  {
    if variants != [] {
      FirstMatchIsHighest(variants[1..], device);
      assert variants[0] in variants;
      forall v | v in variants ensures v == variants[0] || v in variants[1..] {}
      forall v | v in variants[1..] ensures v in variants && v.number <= variants[0].number {
        var i :| 0 <= i < |variants[1..]| && variants[1..][i] == v;
        assert v == variants[i + 1];
      }
    }
  }

  /** However the sort orders equal numbers, the same number is chosen. */
  lemma VariantChoiceIgnoresOrder(a: seq<Variant>, b: seq<Variant>, device: Device)
    requires Descending(a) && Descending(b) && multiset(a) == multiset(b)
    ensures FirstMatch(a, device) == FirstMatch(b, device)
  {
    hide MatchesVariant, FirstMatch;
    FirstMatchIsHighest(a, device);
    FirstMatchIsHighest(b, device);
    forall v ensures v in a <==> v in b {
      assert v in a <==> v in multiset(a);
      assert v in b <==> v in multiset(b);
    }
  }

  // ----- Candidates and what they offer -----

  predicate IsCandidate(d: Description, variant: int) {
    d.variant == variant && (d.delivery == 0 || d.delivery == 1)
  }

  function Candidates(descriptions: seq<Description>, variant: int): seq<Description>
    decreases |descriptions|
  {
    if descriptions == [] then []
    else (if IsCandidate(descriptions[0], variant) then [descriptions[0]] else []) + Candidates(descriptions[1..], variant)
  }

  predicate Offers(candidates: seq<Description>, abi: string) {
    exists i :: 0 <= i < |candidates| && ContainsFold(candidates[i].target.abis, abi)
  }

  /** The device's most preferred ABI that some candidate has, or "". */
  function ChooseAbi(abis: seq<string>, candidates: seq<Description>): string
    decreases |abis|
  {
    if abis == [] then ""
    else if abis[0] != "" && Offers(candidates, abis[0]) then abis[0]
    else ChooseAbi(abis[1..], candidates)
  }

  function AllDensities(candidates: seq<Description>): seq<int> {
    if candidates == [] then [] else candidates[0].target.densities + AllDensities(candidates[1..])
  }

  function AllSdks(candidates: seq<Description>): seq<int> {
    if candidates == [] then [] else candidates[0].target.minSdks + AllSdks(candidates[1..])
  }

  predicate EmptyTarget(t: Target) {
    t.abis == [] && t.densities == [] && t.languages == [] && t.minSdks == []
    && t.abiAlternatives == [] && t.densityAlternatives == [] && t.languageAlternatives == [] && t.sdkAlternatives == []
  }

  datatype Choice = Choice(abi: string, density: int, sdk: int)

  /** The inclusion rule for one candidate. */
  predicate Included(d: Description, c: Choice, device: Device) {
    var t := d.target;
    d.isMaster || EmptyTarget(t)
    || (&& (t.abis != [] ==> c.abi != "" && ContainsFold(t.abis, c.abi))
        && (t.densities != [] ==> c.density != 0 && c.density in t.densities)
        && (t.minSdks != [] ==> c.sdk != 0 && c.sdk in t.minSdks)
        && (t.languages != [] ==> LanguagesIntersect(t.languages, device.locales))
        && !(t.abis == [] && t.abiAlternatives != [] && ContainsAnyFold(t.abiAlternatives, device.abis))
        && !(t.languages == [] && t.languageAlternatives != []
             && LanguagesIntersect(t.languageAlternatives, device.locales)))
  }

  function IncludedPaths(candidates: seq<Description>, c: Choice, device: Device): seq<string>
    decreases |candidates|
  {
    if candidates == [] then []
    else (if Included(candidates[0], c, device) then [candidates[0].path] else []) + IncludedPaths(candidates[1..], c, device)
  }

  /** safeArchivePath relative to the current directory ".": nothing climbs out of it. */
  predicate SafeRelative(path: string) {
    !AbsoluteName(path) && StaysBelow(Split(Slashes(path), '/'), 0)
  }

  /** filepath.Clean of a relative path keeps no leading "..". */
  predicate StaysBelow(parts: seq<string>, depth: nat)
    decreases |parts|
  {
    parts == []
    || (if parts[0] == "" || parts[0] == "." then StaysBelow(parts[1..], depth)
        else if parts[0] == ".." then depth > 0 && StaysBelow(parts[1..], depth - 1)
        else StaysBelow(parts[1..], depth + 1))
  }

  /** A path accepted for an installation is accepted below every directory. */
  lemma SafeRelativeIsSafe(root: Path, path: string)
    requires SafeRelative(path)
    ensures SafeArchivePath(root, path).Some?
  {
    assert root + [] == root;
    CleanStaysBelow(root, [], Split(Slashes(path), '/'));
  }

  lemma {:induction false} CleanStaysBelow(root: Path, stack: Path, parts: seq<string>)
    requires StaysBelow(parts, |stack|)
    ensures root <= Clean(root + stack, parts)
    decreases |parts|
  {
    if parts != [] {
      if parts[0] == "" || parts[0] == "." {
        CleanStaysBelow(root, stack, parts[1..]);
      } else if parts[0] == ".." {
        assert Parent(root + stack) == root + stack[..|stack| - 1];
        CleanStaysBelow(root, stack[..|stack| - 1], parts[1..]);
      } else {
        assert root + stack + [parts[0]] == root + (stack + [parts[0]]);
        CleanStaysBelow(root, stack + [parts[0]], parts[1..]);
      }
    }
  }

  // ----- Sorting the result -----

  /** Lexicographic order, as sort.Strings uses it. */
  predicate StringLeq(a: string, b: string)
    decreases |a|
  {
    a == "" || (b != "" && (a[0] < b[0] || (a[0] == b[0] && StringLeq(a[1..], b[1..]))))
  }

  predicate Sorted(s: seq<string>) { forall i, j :: 0 <= i < j < |s| ==> StringLeq(s[i], s[j]) }

  function Insert(x: string, sorted: seq<string>): seq<string>
    decreases |sorted|
  {
    if sorted == [] || StringLeq(x, sorted[0]) then [x] + sorted else [sorted[0]] + Insert(x, sorted[1..])
  }

  function SortStrings(s: seq<string>): seq<string> {
    if s == [] then [] else Insert(s[0], SortStrings(s[1..]))
  }

  lemma {:induction false} LeqTotal(a: string, b: string)
    ensures StringLeq(a, b) || StringLeq(b, a)
    ensures StringLeq(a, b) && StringLeq(b, a) ==> a == b
    decreases |a|
  {
    if a != "" && b != "" && a[0] == b[0] {
      LeqTotal(a[1..], b[1..]);
      if a[1..] == b[1..] { assert a == [a[0]] + a[1..] == [b[0]] + b[1..] == b; }
    }
  }

  lemma {:induction false} LeqTransitive(a: string, b: string, c: string)
    requires StringLeq(a, b) && StringLeq(b, c)
    ensures StringLeq(a, c)
    decreases |a|
  {
    if a != "" && a[0] == b[0] && b[0] == c[0] { LeqTransitive(a[1..], b[1..], c[1..]); }
  }

  lemma {:induction false} InsertKeeps(x: string, sorted: seq<string>)
    ensures multiset(Insert(x, sorted)) == multiset{x} + multiset(sorted)
    decreases |sorted|
  {
    hide StringLeq;
    if sorted != [] {
      assert sorted == [sorted[0]] + sorted[1..];
      if !StringLeq(x, sorted[0]) { InsertKeeps(x, sorted[1..]); }
    }
  }

  lemma {:induction false} InsertSorts(x: string, sorted: seq<string>)
    requires Sorted(sorted)
    ensures Sorted(Insert(x, sorted))
    decreases |sorted|
  {
    hide StringLeq;
    if sorted != [] {
      if StringLeq(x, sorted[0]) {
        forall i | 0 <= i < |sorted| ensures StringLeq(x, sorted[i]) {
          if i > 0 { LeqTransitive(x, sorted[0], sorted[i]); }
        }
      } else {
        LeqTotal(x, sorted[0]);
        InsertSorts(x, sorted[1..]);
        InsertKeeps(x, sorted[1..]);
        var rest := Insert(x, sorted[1..]);
        forall i | 0 <= i < |rest| ensures StringLeq(sorted[0], rest[i]) {
          assert rest[i] in multiset(rest);
          if rest[i] != x { assert rest[i] in sorted[1..]; }
        }
      }
    }
  }

  lemma {:induction false} SortStringsSorts(s: seq<string>)
    ensures Sorted(SortStrings(s)) && multiset(SortStrings(s)) == multiset(s)
    decreases |s|
  {
    if s != [] {
      SortStringsSorts(s[1..]);
      InsertSorts(s[0], SortStrings(s[1..]));
      InsertKeeps(s[0], SortStrings(s[1..]));
      assert s == [s[0]] + s[1..];
    }
  }

  lemma FirstIsLeast(a: seq<string>, x: string)
    requires Sorted(a) && x in a
    ensures StringLeq(a[0], x)
  {
    var i :| 0 <= i < |a| && a[i] == x;
    LeqTotal(x, x);
  }

  lemma TailMultiset(a: seq<string>)
    requires a != []
    ensures multiset(a[1..]) == multiset(a) - multiset{a[0]} && a[0] in multiset(a)
  {
    assert a == [a[0]] + a[1..];
  }

  lemma SameFirst(a: seq<string>, b: seq<string>)
    requires Sorted(a) && Sorted(b) && multiset(a) == multiset(b) && a != [] && b != []
    ensures a[0] == b[0]
  {
    hide StringLeq;
    assert a[0] in multiset(b) && b[0] in multiset(a);
    FirstIsLeast(a, b[0]);
    FirstIsLeast(b, a[0]);
    LeqTotal(a[0], b[0]);
  }

  /** There is one sorted arrangement of a multiset. */
  lemma {:induction false} SortedIsUnique(a: seq<string>, b: seq<string>)
    requires Sorted(a) && Sorted(b) && multiset(a) == multiset(b)
    ensures a == b
    decreases |a|
  {
    hide StringLeq;
    assert |a| == |multiset(a)| == |multiset(b)| == |b|;
    if a != [] {
      SameFirst(a, b);
      TailMultiset(a);
      TailMultiset(b);
      SortedIsUnique(a[1..], b[1..]);
      assert a == [a[0]] + a[1..] && b == [b[0]] + b[1..];
    }
  }

  // ----- selectAPKS -----

  function Choose(candidates: seq<Description>, device: Device): Choice {
    Choice(ChooseAbi(device.abis, candidates),
           NearestDensity(device.density, AllDensities(candidates)),
           HighestNotAbove(device.sdk, AllSdks(candidates)))
  }

  function Select(packageName: string, descriptions: seq<Description>, variants: seq<Variant>, device: Device)
    : Result<Selection, SelectError>
  {
    var chosen := FirstMatch(SortVariants(variants), device);
    if chosen.None? || chosen.value < 0 then Err(NoVariant)
    else
      var candidates := Candidates(descriptions, chosen.value);
      var c := Choose(candidates, device);
      var paths := IncludedPaths(candidates, c, device);
      if exists i :: 0 <= i < |paths| && !SafeRelative(paths[i]) then Err(SelectError.UnsafePath)
      else if paths == [] then Err(NothingSelected)
      else Ok(Selection(packageName, SortStrings(paths), chosen.value, c.abi, c.density, device.locales))
  }
}
