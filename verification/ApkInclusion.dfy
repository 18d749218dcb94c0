/** Which APKs a selection takes, in the words of the device and of the table of contents: every
    dimension of a targeting by itself, and all of them together. */
module ApkInclusion {
  import opened Common
  import opened Text
  import opened FileTree
  import opened Archive
  import opened ArchiveNames
  import opened ApkSelect
  import opened ApkSelection

  // ----- What the comparisons mean -----

  /** The same letter, or the same other character. */
  predicate SameLetter(x: char, y: char) {
    x == y || ('A' <= x <= 'Z' && y as int == x as int + 32) || ('A' <= y <= 'Z' && x as int == y as int + 32)
  }

  predicate SameIgnoringCase(a: string, b: string) {
    |a| == |b| && forall i :: 0 <= i < |a| ==> SameLetter(a[i], b[i])
  }

  lemma FoldMeans(a: string, b: string)
    ensures EqualFold(a, b) <==> SameIgnoringCase(a, b)
  {
    if EqualFold(a, b) {
      assert |Lower(a)| == |a| && |Lower(b)| == |b|;
      forall i | 0 <= i < |a| ensures SameLetter(a[i], b[i]) { assert Lower(a)[i] == Lower(b)[i]; }
    }
    if SameIgnoringCase(a, b) {
      forall i | 0 <= i < |a| ensures Lower(a)[i] == Lower(b)[i] {}
      assert Lower(a) == Lower(b);
    }
  }

  /** The primary part of a language tag: what stands before the first dash or underscore. */
  function Primary(tag: string): string {
    if tag == "" || tag[0] == '-' || tag[0] == '_' then "" else [tag[0]] + Primary(tag[1..])
  }

  lemma {:induction false} FirstPartIsPrimary(tag: string)
    ensures Split(Dashes(tag), '-')[0] == Lower(Primary(tag))
    decreases |tag|
  {
    hide Split, Lower;
    var d := Dashes(tag);
    assert |d| == |tag| by { DashesAt(tag); }
    if tag == "" {
      FirstPart(d);
      assert Lower("") == "" by { LowerAt(""); }
    } else {
      DashesAt(tag);
      FirstPart(d);
      LowerAt(Primary(tag));
      if tag[0] != '-' && tag[0] != '_' {
        DashesRest(tag);
        FirstPartIsPrimary(tag[1..]);
        FirstPartGrows(d);
        LowerFirst(tag[0], Primary(tag[1..]));
      }
    }
  }

  lemma LowerAt(s: string)
    ensures |Lower(s)| == |s| && forall i :: 0 <= i < |s| ==> Lower(s)[i] == LowerChar(s[i])
  {}

  lemma LowerFirst(c: char, s: string)
    ensures Lower([c] + s) == [LowerChar(c)] + Lower(s)
  {}

  lemma DashesAt(tag: string)
    ensures |Dashes(tag)| == |tag|
    ensures forall i :: 0 <= i < |tag| ==> Dashes(tag)[i] == if tag[i] == '_' then '-' else LowerChar(tag[i])
  {}

  lemma DashesRest(tag: string)
    requires tag != ""
    ensures Dashes(tag)[1..] == Dashes(tag[1..])
  {
    DashesAt(tag);
    DashesAt(tag[1..]);
  }

  /** The first part of a split is empty where the separator stands first. */
  lemma FirstPart(s: string)
    ensures s == "" || s[0] == '-' ==> Split(s, '-')[0] == ""
  {
    if s != "" && s[0] == '-' { assert IndexOf(s, '-') == 0; }
  }

  lemma FirstPartGrows(s: string)
    requires s != "" && s[0] != '-'
    ensures Split(s, '-')[0] == [s[0]] + Split(s[1..], '-')[0]
  {
    assert '-' in s <==> '-' in s[1..];
    if '-' in s {
      var j := IndexOf(s[1..], '-');
      assert s[..j + 1] == [s[0]] + s[1..][..j];
    } else {
      assert s == [s[0]] + s[1..];
    }
  }

  /** Two tags are the same language exactly when their primary parts are the same word. */
  lemma SameLanguageMeans(target: string, locale: string)
    ensures SameLanguage(target, locale) <==> SameIgnoringCase(Primary(target), Primary(locale))
  {
    hide Dashes, Lower, Split;
    FirstPartIsPrimary(target);
    FirstPartIsPrimary(locale);
    FoldMeans(Primary(target), Primary(locale));
  }

  predicate SomeAbiFits(abis: seq<string>, device: Device) {
    exists a, b :: a in abis && b in device.abis && SameIgnoringCase(a, b)
  }

  predicate SomeLanguageFits(languages: seq<string>, device: Device) {
    exists l, m :: l in languages && m in device.locales && SameIgnoringCase(Primary(l), Primary(m))
  }

  predicate HoldsAbi(abis: seq<string>, abi: string) { exists a :: a in abis && SameIgnoringCase(a, abi) }

  lemma ContainsMeans(values: seq<string>, wanted: string)
    ensures ContainsFold(values, wanted) <==> HoldsAbi(values, wanted)
  {
    hide EqualFold, SameIgnoringCase;
    forall a ensures EqualFold(a, wanted) <==> SameIgnoringCase(a, wanted) { FoldMeans(a, wanted); }
    if HoldsAbi(values, wanted) {
      var a :| a in values && SameIgnoringCase(a, wanted);
      var i :| 0 <= i < |values| && values[i] == a;
    }
  }

  lemma SameIsSymmetric(a: string, b: string)
    ensures SameIgnoringCase(a, b) <==> SameIgnoringCase(b, a)
  {}

  lemma ContainsAnyMeans(abis: seq<string>, device: Device)
    ensures ContainsAnyFold(abis, device.abis) <==> SomeAbiFits(abis, device)
  {
    hide ContainsFold, SameIgnoringCase;
    forall a ensures ContainsFold(device.abis, a) <==> HoldsAbi(device.abis, a) { ContainsMeans(device.abis, a); }
    forall a, b ensures SameIgnoringCase(a, b) <==> SameIgnoringCase(b, a) { SameIsSymmetric(a, b); }
    if SomeAbiFits(abis, device) {
      var a, b :| a in abis && b in device.abis && SameIgnoringCase(a, b);
      var i :| 0 <= i < |abis| && abis[i] == a;
      assert ContainsFold(device.abis, abis[i]);
    }
  }

  lemma IntersectMeans(languages: seq<string>, device: Device)
    ensures LanguagesIntersect(languages, device.locales) <==> SomeLanguageFits(languages, device)
  {
    hide SameLanguage, SameIgnoringCase, Primary;
    forall l, m ensures SameLanguage(l, m) <==> SameIgnoringCase(Primary(l), Primary(m)) { SameLanguageMeans(l, m); }
    if SomeLanguageFits(languages, device) {
      var l, m :| l in languages && m in device.locales && SameIgnoringCase(Primary(l), Primary(m));
      var i :| 0 <= i < |languages| && languages[i] == l;
      var j :| 0 <= j < |device.locales| && device.locales[j] == m;
      assert SameLanguage(languages[i], device.locales[j]);
    }
  }

  // ----- What the candidates offer -----

  /** An APK of the variant that is installed at once or on demand by default. */
  predicate Installed(d: Description, variant: int) { d.variant == variant && (d.delivery == 0 || d.delivery == 1) }

  predicate AbiOffered(descriptions: seq<Description>, variant: int, abi: string) {
    abi != "" && exists d :: d in descriptions && Installed(d, variant) && HoldsAbi(d.target.abis, abi)
  }

  predicate DensityOffered(descriptions: seq<Description>, variant: int, v: int) {
    exists d :: d in descriptions && Installed(d, variant) && v in d.target.densities
  }

  predicate SdkOffered(descriptions: seq<Description>, variant: int, v: int) {
    exists d :: d in descriptions && Installed(d, variant) && v in d.target.minSdks
  }

  /** The first of the device's ABIs that is offered, or none. */
  predicate FirstOffered(abi: string, descriptions: seq<Description>, variant: int, device: Device) {
    if abi == "" then forall k :: 0 <= k < |device.abis| ==> !AbiOffered(descriptions, variant, device.abis[k])
    else exists i :: 0 <= i < |device.abis| && device.abis[i] == abi && AbiOffered(descriptions, variant, abi)
                     && forall k :: 0 <= k < i ==> !AbiOffered(descriptions, variant, device.abis[k])
  }

  predicate Nearer(v: int, u: int, wanted: int) {
    Abs(v - wanted) < Abs(u - wanted) || (Abs(v - wanted) == Abs(u - wanted) && v >= u)
  }

  /** The offered density nearest to the device's, the larger of two as near; 0 when none is offered. */
  ghost predicate NearestOffered(density: int, descriptions: seq<Description>, variant: int, device: Device) {
    || (density == 0 && forall v :: !DensityOffered(descriptions, variant, v))
    || (DensityOffered(descriptions, variant, density)
        && forall v :: DensityOffered(descriptions, variant, v) ==> Nearer(density, v, device.density))
  }

  /** The highest offered SDK floor that is positive and not above the device's. */
  ghost predicate HighestOffered(sdk: int, descriptions: seq<Description>, variant: int, device: Device) {
    && SdkOffered(descriptions, variant, sdk) && 0 < sdk <= device.sdk
    && forall v :: SdkOffered(descriptions, variant, v) && v <= device.sdk ==> v <= sdk
  }

  lemma OffersMeans(descriptions: seq<Description>, variant: int, abi: string)
    ensures Offered(Candidates(descriptions, variant), abi) <==> AbiOffered(descriptions, variant, abi)
  {
    hide ContainsFold, HoldsAbi, Candidates;
    var candidates := Candidates(descriptions, variant);
    forall d ensures d in candidates <==> d in descriptions && Installed(d, variant) { CandidateIff(descriptions, variant, d); }
    forall d: Description ensures ContainsFold(d.target.abis, abi) <==> HoldsAbi(d.target.abis, abi) {
      ContainsMeans(d.target.abis, abi);
    }
    if AbiOffered(descriptions, variant, abi) {
      var d :| d in descriptions && Installed(d, variant) && HoldsAbi(d.target.abis, abi);
      assert d in candidates;
      var i :| 0 <= i < |candidates| && candidates[i] == d;
      assert ContainsFold(candidates[i].target.abis, abi);
    }
    if Offered(candidates, abi) {
      var i :| 0 <= i < |candidates| && ContainsFold(candidates[i].target.abis, abi);
      assert candidates[i] in candidates;
    }
  }

  lemma ValuesMean(descriptions: seq<Description>, variant: int, v: int)
    ensures v in AllDensities(Candidates(descriptions, variant)) <==> DensityOffered(descriptions, variant, v)
    ensures v in AllSdks(Candidates(descriptions, variant)) <==> SdkOffered(descriptions, variant, v)
  {
    hide Candidates, AllDensities, AllSdks;
    var candidates := Candidates(descriptions, variant);
    forall d ensures d in candidates <==> d in descriptions && Installed(d, variant) { CandidateIff(descriptions, variant, d); }
    DensityIff(candidates, v);
    SdkIff(candidates, v);
  }

  /** What is chosen, in those words. */
  lemma ChoicesMean(descriptions: seq<Description>, variant: int, device: Device)
    requires RealDensities(descriptions) && 0 <= device.density <= MAX_INT64
    ensures var c := Choose(Candidates(descriptions, variant), device);
            && FirstOffered(c.abi, descriptions, variant, device)
            && NearestOffered(c.density, descriptions, variant, device)
            && (c.sdk != 0 ==> HighestOffered(c.sdk, descriptions, variant, device))
            && (c.sdk == 0 ==> forall v :: !HighestOffered(v, descriptions, variant, device))
  {
    hide Candidates, RealDensities, AbiOffered, Offered, DensityOffered, SdkOffered, AllDensities, AllSdks, Choose;
    var candidates := Candidates(descriptions, variant);
    ChoicesAreBest(descriptions, variant, device);
    forall abi ensures Offered(candidates, abi) <==> AbiOffered(descriptions, variant, abi) {
      OffersMeans(descriptions, variant, abi);
    }
    forall v
      ensures v in AllDensities(candidates) <==> DensityOffered(descriptions, variant, v)
      ensures v in AllSdks(candidates) <==> SdkOffered(descriptions, variant, v)
    {
      ValuesMean(descriptions, variant, v);
    }
  }

  // ----- The inclusion rule -----

  predicate Untargeted(t: Target) {
    && t.abis == [] && t.abiAlternatives == [] && t.densities == [] && t.densityAlternatives == []
    && t.languages == [] && t.languageAlternatives == [] && t.minSdks == [] && t.sdkAlternatives == []
  }

  /** In by ABI: it has the device's first offered ABI; a fallback for other ABIs fits when none of those does. */
  predicate ByAbi(t: Target, abi: string, device: Device) {
    if t.abis != [] then abi != "" && HoldsAbi(t.abis, abi) else !SomeAbiFits(t.abiAlternatives, device)
  }

  /** In by density: it has the nearest offered density, which is a real one. */
  predicate ByDensity(t: Target, density: int) { t.densities != [] ==> density != 0 && density in t.densities }

  /** In by SDK: it has the highest offered floor that fits. */
  ghost predicate BySdk(t: Target, descriptions: seq<Description>, variant: int, device: Device) {
    t.minSdks != [] ==> exists v :: v in t.minSdks && HighestOffered(v, descriptions, variant, device)
  }

  /** In by language: it has one of the device's; a fallback for other languages fits when none of those does. */
  predicate ByLanguage(t: Target, device: Device) {
    if t.languages != [] then SomeLanguageFits(t.languages, device) else !SomeLanguageFits(t.languageAlternatives, device)
  }

  ghost predicate InByEach(t: Target, abi: string, density: int, descriptions: seq<Description>, variant: int, device: Device) {
    ByAbi(t, abi, device) && ByDensity(t, density) && BySdk(t, descriptions, variant, device) && ByLanguage(t, device)
  }

  lemma IncludedMeans(d: Description, descriptions: seq<Description>, variant: int, device: Device)
    requires RealDensities(descriptions) && 0 <= device.density <= MAX_INT64
    ensures var c := Choose(Candidates(descriptions, variant), device);
            Included(d, c, device)
            <==> d.isMaster || Untargeted(d.target) || InByEach(d.target, c.abi, c.density, descriptions, variant, device)
  {
    hide Candidates, RealDensities, Choose, ContainsFold, HoldsAbi, ContainsAnyFold, SomeAbiFits, LanguagesIntersect,
         SomeLanguageFits, FirstOffered, NearestOffered, SdkOffered;
    var t, c := d.target, Choose(Candidates(descriptions, variant), device);
    ChoicesMean(descriptions, variant, device);
    ContainsMeans(t.abis, c.abi);
    ContainsAnyMeans(t.abiAlternatives, device);
    IntersectMeans(t.languages, device);
    IntersectMeans(t.languageAlternatives, device);
    NoneAmongNone(device);
    OneHighest(c.sdk, descriptions, variant, device);
  }

  lemma NoneAmongNone(device: Device)
    ensures !SomeAbiFits([], device) && !SomeLanguageFits([], device)
  {}

  lemma OneHighest(sdk: int, descriptions: seq<Description>, variant: int, device: Device)
    ensures HighestOffered(sdk, descriptions, variant, device) ==>
              forall v :: HighestOffered(v, descriptions, variant, device) ==> v == sdk
  {
    hide SdkOffered;
  }

  /** No other APK of the table has the same path. */
  predicate OwnPath(d: Description, descriptions: seq<Description>) {
    d in descriptions && forall e :: e in descriptions && e.path == d.path ==> e == d
  }

  /** The selection, APK by APK: it takes an installed APK exactly when that is the master, or has no
      targeting, or is in by each dimension of its targeting; and it takes no others. */
  lemma InclusionIsExact(packageName: string, descriptions: seq<Description>, variants: seq<Variant>, device: Device,
                         d: Description)
    requires RealDensities(descriptions) && 0 <= device.density <= MAX_INT64
    requires Select(packageName, descriptions, variants, device).Ok? && OwnPath(d, descriptions)
    ensures var s := Select(packageName, descriptions, variants, device).value;
            && FirstOffered(s.abi, descriptions, s.variant, device)
            && NearestOffered(s.density, descriptions, s.variant, device)
            && (d.path in s.paths
                <==> Installed(d, s.variant)
                     && (d.isMaster || Untargeted(d.target)
                         || InByEach(d.target, s.abi, s.density, descriptions, s.variant, device)))
  {
    hide RealDensities, Candidates, Included, Choose, HighestMatch, SafeRelative, Sorted, FirstOffered, NearestOffered, InByEach,
         Untargeted, Select;
    var s := Select(packageName, descriptions, variants, device).value;
    SelectionIsExact(packageName, descriptions, variants, device);
    SelectionHasItsChoices(packageName, descriptions, variants, device);
    IncludedMeans(d, descriptions, s.variant, device);
    ChoicesMean(descriptions, s.variant, device);
    if d.path in s.paths {
      var e :| Taken(e, descriptions, s.variant, device) && e.path == d.path;
      assert e == d;
    }
    if Taken(d, descriptions, s.variant, device) { assert d.path in s.paths; }
  }

  lemma SelectionHasItsChoices(packageName: string, descriptions: seq<Description>, variants: seq<Variant>, device: Device)
    requires Select(packageName, descriptions, variants, device).Ok?
    ensures var s := Select(packageName, descriptions, variants, device).value;
            var c := Choose(Candidates(descriptions, s.variant), device);
            s.abi == c.abi && s.density == c.density
  {
    hide Candidates, Choose, FirstMatch, SortVariants, IncludedPaths, SafeRelative, SortStrings;
  }

  /** Each dimension by itself: what an APK targeted at only one thing is taken for. */
  lemma OneDimension(t: Target, abi: string, density: int, descriptions: seq<Description>, variant: int, device: Device)
    ensures t == Target(t.abis, [], [], [], [], [], [], []) && t.abis != [] ==>
              (InByEach(t, abi, density, descriptions, variant, device) <==> abi != "" && HoldsAbi(t.abis, abi))
    ensures t == Target([], [], t.densities, [], [], [], [], []) && t.densities != [] ==>
              (InByEach(t, abi, density, descriptions, variant, device) <==> density != 0 && density in t.densities)
    ensures t == Target([], [], [], [], [], [], t.minSdks, []) && t.minSdks != [] ==>
              (InByEach(t, abi, density, descriptions, variant, device)
               <==> exists v :: v in t.minSdks && HighestOffered(v, descriptions, variant, device))
    ensures t == Target([], [], [], [], t.languages, [], [], []) && t.languages != [] ==>
              (InByEach(t, abi, density, descriptions, variant, device) <==> SomeLanguageFits(t.languages, device))
    ensures t == Target([], t.abiAlternatives, [], [], [], t.languageAlternatives, [], []) ==>
              (InByEach(t, abi, density, descriptions, variant, device)
               <==> !SomeAbiFits(t.abiAlternatives, device) && !SomeLanguageFits(t.languageAlternatives, device))
  {
    hide HoldsAbi, HighestOffered, SomeLanguageFits, SomeAbiFits;
    NoneAmongNone(device);
  }

  // ----- The variant -----

  /** What a variant asks of a device. */
  predicate Suits(t: Target, device: Device) {
    && (if t.abis != [] then SomeAbiFits(t.abis, device) else !SomeAbiFits(t.abiAlternatives, device))
    && (t.minSdks != [] ==> exists v :: v in t.minSdks && 0 < v <= device.sdk)
    && (t.densities != [] ==>
          exists v :: v in t.densities && v != 0 && forall u :: u in t.densities ==> Nearer(v, u, device.density))
  }

  predicate RealTarget(t: Target) { forall v :: v in t.densities ==> 0 <= v <= MAX_INT64 }

  lemma SomeNearest(t: Target, device: Device)
    requires RealTarget(t) && 0 <= device.density <= MAX_INT64 && t.densities != []
    ensures NearestDensity(device.density, t.densities) != 0
            <==> exists v :: v in t.densities && v != 0 && forall u :: u in t.densities ==> Nearer(v, u, device.density)
  {
    hide NearestDensity;
    NearestDensityIsNearest(device.density, t.densities);
    var r := NearestDensity(device.density, t.densities);
    assert r in t.densities && forall u :: u in t.densities ==> Nearer(r, u, device.density);
    forall v | v in t.densities && forall u :: u in t.densities ==> Nearer(v, u, device.density)
      ensures v == r
    {
      assert Nearer(v, r, device.density) && Nearer(r, v, device.density);
    }
  }

  lemma MatchesMeans(t: Target, device: Device)
    requires RealTarget(t) && 0 <= device.density <= MAX_INT64
    ensures MatchesVariant(t, device) <==> Suits(t, device)
  {
    hide ContainsAnyFold, SomeAbiFits, NearestDensity, HighestNotAbove, Nearer, RealTarget;
    ContainsAnyMeans(t.abis, device);
    ContainsAnyMeans(t.abiAlternatives, device);
    NoneAmongNone(device);
    SomeFloorFits(device.sdk, t.minSdks);
    if t.densities != [] { SomeNearest(t, device); }
  }

  /** The selection is for the highest-numbered variant that suits the device. */
  lemma VariantIsHighest(packageName: string, descriptions: seq<Description>, variants: seq<Variant>, device: Device)
    requires Select(packageName, descriptions, variants, device).Ok? && 0 <= device.density <= MAX_INT64
    requires forall v :: v in variants ==> RealTarget(v.target)
    ensures var s := Select(packageName, descriptions, variants, device).value;
            && (exists v :: v in variants && Suits(v.target, device) && v.number == s.variant)
            && (forall v :: v in variants && Suits(v.target, device) ==> v.number <= s.variant)
  {
    hide Suits, MatchesVariant, Select, RealTarget, Taken, SafeRelative, Sorted, Included, Choose, Candidates;
    SelectionIsExact(packageName, descriptions, variants, device);
    forall v | v in variants ensures MatchesVariant(v.target, device) <==> Suits(v.target, device) {
      MatchesMeans(v.target, device);
    }
  }

  // ----- Order and safety of the paths -----

  /** The order of the paths: a proper beginning first, and otherwise by the first character that differs. */
  lemma {:induction false} OrderMeans(a: string, b: string)
    ensures StringLeq(a, b)
            <==> a <= b || exists i :: 0 <= i < |a| && i < |b| && a[..i] == b[..i] && a[i] < b[i]
    decreases |a|
  {
    if a != "" && b != "" && a[0] == b[0] {
      OrderMeans(a[1..], b[1..]);
      assert a <= b <==> a[1..] <= b[1..];
      if i :| 0 <= i < |a[1..]| && i < |b[1..]| && a[1..][..i] == b[1..][..i] && a[1..][i] < b[1..][i] {
        assert a[..i + 1] == [a[0]] + a[1..][..i] && b[..i + 1] == [b[0]] + b[1..][..i];
        assert a[i + 1] < b[i + 1];
      }
      if i :| 0 <= i < |a| && i < |b| && a[..i] == b[..i] && a[i] < b[i] {
        assert i > 0;
        assert a[..i][1..] == a[1..][..i - 1] && b[..i][1..] == b[1..][..i - 1];
        assert a[1..][i - 1] < b[1..][i - 1];
      }
    } else if a != "" && b != "" {
      forall i | 0 < i < |a| && i < |b| ensures a[..i] != b[..i] {
        assert a[..i][0] == a[0] && b[..i][0] == b[0];
      }
      if a[0] < b[0] { assert a[..0] == b[..0]; }
    }
  }

  /** A first component that is among none of the others comes back only if it was never left. */
  lemma {:induction false} LeftForGood(stack: Path, parts: seq<string>, first: string)
    requires first !in parts && (stack == [] || stack[0] != first)
    ensures !([first] <= Clean(stack, parts))
    decreases |parts|
  {
    if parts != [] {
      LeftForGood(stack, parts[1..], first);
      LeftForGood(Parent(stack), parts[1..], first);
      LeftForGood(stack + [parts[0]], parts[1..], first);
    }
  }

  lemma {:induction false} ClimbsOut(first: string, stack: Path, parts: seq<string>)
    requires first !in parts && !StaysBelow(parts, |stack|)
    ensures !([first] <= Clean([first] + stack, parts))
    decreases |parts|
  {
    if parts[0] == "" || parts[0] == "." {
      ClimbsOut(first, stack, parts[1..]);
    } else if parts[0] == ".." {
      if stack == [] {
        assert Parent([first] + stack) == [];
        LeftForGood([], parts[1..], first);
      } else {
        assert Parent([first] + stack) == [first] + stack[..|stack| - 1];
        ClimbsOut(first, stack[..|stack| - 1], parts[1..]);
      }
    } else {
      assert [first] + stack + [parts[0]] == [first] + (stack + [parts[0]]);
      ClimbsOut(first, stack + [parts[0]], parts[1..]);
    }
  }

  lemma {:induction false} PartsAreShort(s: string, c: char)
    ensures forall part :: part in Split(s, c) ==> |part| <= |s|
    decreases |s|
  {
    if c in s { PartsAreShort(s[IndexOf(s, c) + 1..], c); }
  }

  /** A path is safe exactly when it is accepted below every directory there could be. */
  lemma SafeExactly(path: string)
    ensures SafeRelative(path) <==> forall root: Path :: Proper(root) ==> SafeArchivePath(root, path).Some?
  {
    hide Slashes, Split, Clean, StaysBelow;
    if SafeRelative(path) {
      forall root: Path ensures SafeArchivePath(root, path).Some? { SafeRelativeIsSafe(root, path); }
    } else {
      var text := Slashes(path);
      var parts, first := Split(text, '/'), seq(|text| + 3, i => 'x');
      PartsAreShort(text, '/');
      assert first !in parts;
      assert |"."| == 1 && |".."| == 2 && Proper([first]);
      if !AbsoluteName(path) {
        ClimbsOut(first, [], parts);
        assert [first] + [] == [first];
      }
      assert SafeArchivePath([first], path).None?;
    }
  }
}
