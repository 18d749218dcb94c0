/** What an APK selection is, when there is none, and why the order of the table of contents does
    not matter. */
module ApkSelection {
  import opened Common
  import opened ApkSelect

  // ----- Exactly what is selected -----

  lemma {:induction false} CandidatesCounted(descriptions: seq<Description>, variant: int, d: Description)
    ensures multiset(Candidates(descriptions, variant))[d]
            == if IsCandidate(d, variant) then multiset(descriptions)[d] else 0
    decreases |descriptions|
  {
    if descriptions != [] {
      CandidatesCounted(descriptions[1..], variant, d);
      assert descriptions == [descriptions[0]] + descriptions[1..];
    }
  }

  lemma CandidateIff(descriptions: seq<Description>, variant: int, d: Description)
    ensures d in Candidates(descriptions, variant) <==> d in descriptions && IsCandidate(d, variant)
  {
    CandidatesCounted(descriptions, variant, d);
    assert d in Candidates(descriptions, variant) <==> d in multiset(Candidates(descriptions, variant));
    assert d in descriptions <==> d in multiset(descriptions);
  }

  lemma {:induction false} DensityIff(candidates: seq<Description>, v: int)
    ensures v in AllDensities(candidates) <==> exists d :: d in candidates && v in d.target.densities
    decreases |candidates|
  {
    if candidates != [] {
      DensityIff(candidates[1..], v);
      assert forall d :: d in candidates <==> d == candidates[0] || d in candidates[1..];
    }
  }

  lemma {:induction false} SdkIff(candidates: seq<Description>, v: int)
    ensures v in AllSdks(candidates) <==> exists d :: d in candidates && v in d.target.minSdks
    decreases |candidates|
  {
    if candidates != [] {
      SdkIff(candidates[1..], v);
      assert forall d :: d in candidates <==> d == candidates[0] || d in candidates[1..];
    }
  }

  lemma {:induction false} PathIff(candidates: seq<Description>, c: Choice, device: Device, path: string)
    ensures path in IncludedPaths(candidates, c, device)
            <==> exists d :: d in candidates && Included(d, c, device) && d.path == path
    decreases |candidates|
  {
    hide Included;
    if candidates != [] {
      PathIff(candidates[1..], c, device, path);
      assert forall d :: d in candidates <==> d == candidates[0] || d in candidates[1..];
    }
  }

  predicate Offered(candidates: seq<Description>, abi: string) { abi != "" && Offers(candidates, abi) }

  /** `abi` is the first of the device's ABIs that some candidate has; "" when none is. */
  predicate MostPreferred(abi: string, abis: seq<string>, candidates: seq<Description>) {
    if abi == "" then forall k :: 0 <= k < |abis| ==> !Offered(candidates, abis[k])
    else exists i :: 0 <= i < |abis| && abis[i] == abi && Offered(candidates, abi)
                     && forall k :: 0 <= k < i ==> !Offered(candidates, abis[k])
  }

  lemma {:induction false} ChooseAbiPrefers(abis: seq<string>, candidates: seq<Description>)
    ensures MostPreferred(ChooseAbi(abis, candidates), abis, candidates)
    decreases |abis|
  {
    if abis != [] && !Offered(candidates, abis[0]) {
      var rest := abis[1..];
      ChooseAbiPrefers(rest, candidates);
      var abi := ChooseAbi(rest, candidates);
      if abi == "" {
        forall k | 0 <= k < |abis| ensures !Offered(candidates, abis[k]) {
          if k > 0 { assert abis[k] == rest[k - 1]; }
        }
      } else {
        var i :| 0 <= i < |rest| && rest[i] == abi && Offered(candidates, abi)
                 && forall k :: 0 <= k < i ==> !Offered(candidates, rest[k]);
        assert abis[i + 1] == abi;
        forall k | 0 <= k < i + 1 ensures !Offered(candidates, abis[k]) {
          if k > 0 { assert abis[k] == rest[k - 1]; }
        }
      }
    }
  }

  /** `density` is the offered density nearest to the device's, the larger of two as near; 0 without any. */
  predicate Nearest(density: int, wanted: int, candidates: seq<Description>) {
    if AllDensities(candidates) == [] then density == 0
    else density in AllDensities(candidates) && forall v :: v in AllDensities(candidates) ==>
           Abs(density - wanted) < Abs(v - wanted) || (Abs(density - wanted) == Abs(v - wanted) && density >= v)
  }

  /** `sdk` is the highest positive SDK floor of a candidate not above the device's; 0 without any. */
  predicate Highest(sdk: int, wanted: int, candidates: seq<Description>) {
    && (sdk == 0 || (sdk > 0 && sdk in AllSdks(candidates) && sdk <= wanted))
    && forall v :: v in AllSdks(candidates) && v <= wanted ==> v <= sdk
  }

  predicate RealDensities(descriptions: seq<Description>) {
    forall d, v :: d in descriptions && v in d.target.densities ==> 0 <= v <= MAX_INT64
  }

  lemma OfferedDensitiesAreReal(descriptions: seq<Description>, variant: int)
    requires RealDensities(descriptions)
    ensures forall v :: v in AllDensities(Candidates(descriptions, variant)) ==> 0 <= v <= MAX_INT64
  {
    hide Candidates, AllDensities, IsCandidate;
    var candidates := Candidates(descriptions, variant);
    forall v | v in AllDensities(candidates) ensures 0 <= v <= MAX_INT64 {
      DensityIff(candidates, v);
      var d :| d in candidates && v in d.target.densities;
      CandidateIff(descriptions, variant, d);
    }
  }

  /** The choices are the ones the device prefers among what the candidates offer. */
  lemma ChoicesAreBest(descriptions: seq<Description>, variant: int, device: Device)
    requires RealDensities(descriptions) && 0 <= device.density <= MAX_INT64
    ensures var candidates := Candidates(descriptions, variant); var c := Choose(candidates, device);
            MostPreferred(c.abi, device.abis, candidates) && Nearest(c.density, device.density, candidates)
            && Highest(c.sdk, device.sdk, candidates)
  {
    hide Candidates, RealDensities, MostPreferred, NearestDensity, HighestNotAbove, AllDensities, AllSdks, ChooseAbi;
    var candidates := Candidates(descriptions, variant);
    ChooseAbiPrefers(device.abis, candidates);
    OfferedDensitiesAreReal(descriptions, variant);
    NearestDensityIsNearest(device.density, AllDensities(candidates));
    HighestNotAboveIsHighest(device.sdk, AllSdks(candidates));
  }

  /** A description whose APK the selection takes, for the chosen variant. */
  predicate Taken(d: Description, descriptions: seq<Description>, variant: int, device: Device) {
    d in descriptions && IsCandidate(d, variant) && Included(d, Choose(Candidates(descriptions, variant), device), device)
  }

  lemma TakenIff(descriptions: seq<Description>, variant: int, device: Device, path: string)
    ensures var candidates := Candidates(descriptions, variant);
            path in IncludedPaths(candidates, Choose(candidates, device), device)
            <==> exists d :: Taken(d, descriptions, variant, device) && d.path == path
  {
    hide Included;
    var candidates := Candidates(descriptions, variant);
    var c := Choose(candidates, device);
    PathIff(candidates, c, device, path);
    forall d ensures d in candidates && Included(d, c, device) <==> Taken(d, descriptions, variant, device) {
      CandidateIff(descriptions, variant, d);
    }
  }

  lemma ChosenVariant(variants: seq<Variant>, device: Device)
    ensures match FirstMatch(SortVariants(variants), device)
            case None => forall v :: v in variants ==> !MatchesVariant(v.target, device)
            case Some(n) => HighestMatch(variants, device, n)
  {
    hide MatchesVariant;
    SortVariantsSorts(variants);
    FirstMatchIsHighest(SortVariants(variants), device);
    forall v ensures v in variants <==> v in SortVariants(variants) {
      assert v in variants <==> v in multiset(variants);
      assert v in SortVariants(variants) <==> v in multiset(SortVariants(variants));
    }
  }

  /** What a selection is: the highest matching variant, and in sorted order exactly the paths the
      inclusion rule takes, each as often as it takes it, none of which leaves the archive. */
  lemma SelectionIsExact(packageName: string, descriptions: seq<Description>, variants: seq<Variant>, device: Device)
    requires Select(packageName, descriptions, variants, device).Ok?
    ensures var s := Select(packageName, descriptions, variants, device).value;
            && HighestMatch(variants, device, s.variant) && s.variant >= 0
            && s.packageName == packageName && s.locales == device.locales && s.paths != [] && Sorted(s.paths)
            && (forall path :: path in s.paths
                  <==> exists d :: Taken(d, descriptions, s.variant, device) && d.path == path)
            && (var candidates := Candidates(descriptions, s.variant);
                && multiset(s.paths) == multiset(IncludedPaths(candidates, Choose(candidates, device), device))
                && MostPreferred(s.abi, device.abis, candidates)
                && (RealDensities(descriptions) && 0 <= device.density <= MAX_INT64 ==>
                      Nearest(s.density, device.density, candidates)))
            && (forall path :: path in s.paths ==> SafeRelative(path))
  {
    hide MatchesVariant, Included, SafeRelative, Choose, HighestMatch, MostPreferred, Nearest, RealDensities;
    ChosenVariant(variants, device);
    var s := Select(packageName, descriptions, variants, device).value;
    var candidates := Candidates(descriptions, s.variant);
    var paths := IncludedPaths(candidates, Choose(candidates, device), device);
    SortStringsSorts(paths);
    forall path ensures path in s.paths <==> path in paths {
      assert path in s.paths <==> path in multiset(s.paths);
      assert path in paths <==> path in multiset(paths);
    }
    forall path ensures path in paths <==> exists d :: Taken(d, descriptions, s.variant, device) && d.path == path {
      TakenIff(descriptions, s.variant, device, path);
    }
    assert |multiset(paths)| == |multiset(s.paths)|;
    ChosenAbiAndDensity(descriptions, s.variant, device);
  }

  lemma ChosenAbiAndDensity(descriptions: seq<Description>, variant: int, device: Device)
    ensures var candidates := Candidates(descriptions, variant); var c := Choose(candidates, device);
            && MostPreferred(c.abi, device.abis, candidates)
            && (RealDensities(descriptions) && 0 <= device.density <= MAX_INT64 ==>
                  Nearest(c.density, device.density, candidates))
  {
    hide MostPreferred, Nearest, Highest, RealDensities, Candidates;
    var candidates := Candidates(descriptions, variant);
    ChooseAbiPrefers(device.abis, candidates);
    if RealDensities(descriptions) && 0 <= device.density <= MAX_INT64 { ChoicesAreBest(descriptions, variant, device); }
  }

  /** When there is no selection: no variant (or only negative ones on top), a taken path that leaves
      the archive, or nothing taken. */
  lemma FailuresAreExact(packageName: string, descriptions: seq<Description>, variants: seq<Variant>, device: Device)
    requires Select(packageName, descriptions, variants, device).Err?
    ensures match Select(packageName, descriptions, variants, device).error
            case NoVariant => forall n :: HighestMatch(variants, device, n) ==> n < 0
            case UnsafePath => (exists n, d ::
              HighestMatch(variants, device, n) && n >= 0 && Taken(d, descriptions, n, device) && !SafeRelative(d.path))
            case NothingSelected => (exists n ::
              HighestMatch(variants, device, n) && n >= 0 && forall d :: !Taken(d, descriptions, n, device))
  {
    hide MatchesVariant, Included, SafeRelative, Choose;
    ChosenVariant(variants, device);
    var chosen := FirstMatch(SortVariants(variants), device);
    if chosen.Some? && chosen.value >= 0 {
      var n := chosen.value;
      assert HighestMatch(variants, device, n);
      var candidates := Candidates(descriptions, n);
      var paths := IncludedPaths(candidates, Choose(candidates, device), device);
      if exists i :: 0 <= i < |paths| && !SafeRelative(paths[i]) {
        var i :| 0 <= i < |paths| && !SafeRelative(paths[i]);
        TakenIff(descriptions, n, device, paths[i]);
        var d :| Taken(d, descriptions, n, device) && d.path == paths[i];
        assert HighestMatch(variants, device, n) && Taken(d, descriptions, n, device) && !SafeRelative(d.path);
      } else {
        forall d ensures !Taken(d, descriptions, n, device) {
          TakenIff(descriptions, n, device, d.path);
        }
      }
    }
  }

  // ----- The order of the table of contents does not matter -----

  lemma {:induction false} PathsOfJoined(a: seq<Description>, b: seq<Description>, c: Choice, device: Device)
    ensures IncludedPaths(a + b, c, device) == IncludedPaths(a, c, device) + IncludedPaths(b, c, device)
    decreases |a|
  {
    hide Included;
    if a == [] {
      assert a + b == b;
    } else {
      assert (a + b)[0] == a[0] && (a + b)[1..] == a[1..] + b;
      PathsOfJoined(a[1..], b, c, device);
    }
  }

  lemma WithoutOne(a: seq<Description>, b: seq<Description>, k: nat)
    requires multiset(a) == multiset(b) && a != [] && k < |b| && b[k] == a[0]
    ensures multiset(a[1..]) == multiset(b[..k] + b[k + 1..])
  {
    assert a == [a[0]] + a[1..];
    assert b == b[..k] + [a[0]] + b[k + 1..];
    assert multiset(a) == multiset{a[0]} + multiset(a[1..]);
    assert multiset(b) == multiset(b[..k]) + multiset{a[0]} + multiset(b[k + 1..]);
    assert multiset(b[..k] + b[k + 1..]) == multiset(b) - multiset{a[0]};
    assert multiset(a[1..]) == multiset(a) - multiset{a[0]};
  }

  /** A permutation of the candidates permutes the paths. */
  lemma {:induction false} PathsPermute(a: seq<Description>, b: seq<Description>, c: Choice, device: Device)
    requires multiset(a) == multiset(b)
    ensures multiset(IncludedPaths(a, c, device)) == multiset(IncludedPaths(b, c, device))
    decreases |a|
  {
    hide Included;
    assert |a| == |multiset(a)| == |multiset(b)| == |b|;
    if a != [] {
      assert a == [a[0]] + a[1..];
      assert a[0] in multiset(b);
      var k :| 0 <= k < |b| && b[k] == a[0];
      var rest := b[..k] + b[k + 1..];
      assert b == b[..k] + ([a[0]] + b[k + 1..]);
      WithoutOne(a, b, k);
      PathsPermute(a[1..], rest, c, device);
      PathsOfJoined([a[0]], a[1..], c, device);
      PathsOfJoined(b[..k], [a[0]] + b[k + 1..], c, device);
      PathsOfJoined([a[0]], b[k + 1..], c, device);
      PathsOfJoined(b[..k], b[k + 1..], c, device);
    }
  }

  lemma CandidatesPermute(a: seq<Description>, b: seq<Description>, variant: int)
    requires multiset(a) == multiset(b)
    ensures multiset(Candidates(a, variant)) == multiset(Candidates(b, variant))
  {
    forall d ensures multiset(Candidates(a, variant))[d] == multiset(Candidates(b, variant))[d] {
      CandidatesCounted(a, variant, d);
      CandidatesCounted(b, variant, d);
    }
  }

  lemma {:induction false} AbiIgnoresOrder(abis: seq<string>, a: seq<Description>, b: seq<Description>)
    requires forall d :: d in a <==> d in b
    ensures ChooseAbi(abis, a) == ChooseAbi(abis, b)
    decreases |abis|
  {
    hide ContainsFold;
    if abis != [] {
      assert Offers(a, abis[0]) == Offers(b, abis[0]) by {
        OffersAmong(a, b, abis[0]);
        OffersAmong(b, a, abis[0]);
      }
      AbiIgnoresOrder(abis[1..], a, b);
    }
  }

  lemma OffersAmong(a: seq<Description>, b: seq<Description>, abi: string)
    requires forall d :: d in a ==> d in b
    ensures Offers(a, abi) ==> Offers(b, abi)
  {
    hide ContainsFold;
    if Offers(a, abi) {
      var i :| 0 <= i < |a| && ContainsFold(a[i].target.abis, abi);
      assert a[i] in b;
    }
  }

  lemma ChoiceIgnoresOrder(a: seq<Description>, b: seq<Description>, device: Device)
    requires multiset(a) == multiset(b)
    ensures Choose(a, device) == Choose(b, device)
  {
    forall d ensures d in a <==> d in b {
      assert d in a <==> d in multiset(a);
      assert d in b <==> d in multiset(b);
    }
    AbiIgnoresOrder(device.abis, a, b);
    forall v ensures v in AllDensities(a) <==> v in AllDensities(b) {
      DensityIff(a, v);
      DensityIff(b, v);
    }
    forall v ensures v in AllSdks(a) <==> v in AllSdks(b) {
      SdkIff(a, v);
      SdkIff(b, v);
    }
    ChoicesIgnoreOrder(device.density, AllDensities(a), AllDensities(b));
    ChoicesIgnoreOrder(device.sdk, AllSdks(a), AllSdks(b));
  }

  /** The outcome, failure included, depends only on which descriptions and variants there are. */
  lemma SelectionIgnoresOrder(packageName: string, descriptions: seq<Description>, otherDescriptions: seq<Description>,
                              variants: seq<Variant>, otherVariants: seq<Variant>, device: Device)
    requires multiset(descriptions) == multiset(otherDescriptions) && multiset(variants) == multiset(otherVariants)
    ensures Select(packageName, descriptions, variants, device)
            == Select(packageName, otherDescriptions, otherVariants, device)
  {
    hide MatchesVariant, Included, SafeRelative, Choose;
    SortVariantsSorts(variants);
    SortVariantsSorts(otherVariants);
    VariantChoiceIgnoresOrder(SortVariants(variants), SortVariants(otherVariants), device);
    var chosen := FirstMatch(SortVariants(variants), device);
    if chosen.Some? && chosen.value >= 0 {
      var a, b := Candidates(descriptions, chosen.value), Candidates(otherDescriptions, chosen.value);
      CandidatesPermute(descriptions, otherDescriptions, chosen.value);
      ChoiceIgnoresOrder(a, b, device);
      var c := Choose(a, device);
      var p, q := IncludedPaths(a, c, device), IncludedPaths(b, c, device);
      PathsPermute(a, b, c, device);
      SamePaths(p, q);
    }
  }

  lemma SamePaths(p: seq<string>, q: seq<string>)
    requires multiset(p) == multiset(q)
    ensures SortStrings(p) == SortStrings(q) && (p == [] <==> q == [])
    ensures (exists i :: 0 <= i < |p| && !SafeRelative(p[i])) <==> (exists i :: 0 <= i < |q| && !SafeRelative(q[i]))
  {
    hide SafeRelative;
    SortStringsSorts(p);
    SortStringsSorts(q);
    SortedIsUnique(SortStrings(p), SortStrings(q));
    assert |multiset(p)| == |multiset(q)|;
    UnsafeAmong(p, q);
    UnsafeAmong(q, p);
  }

  lemma UnsafeAmong(p: seq<string>, q: seq<string>)
    requires multiset(p) == multiset(q)
    ensures (exists i :: 0 <= i < |p| && !SafeRelative(p[i])) ==> exists i :: 0 <= i < |q| && !SafeRelative(q[i])
  {
    hide SafeRelative;
    if exists i :: 0 <= i < |p| && !SafeRelative(p[i]) {
      var i :| 0 <= i < |p| && !SafeRelative(p[i]);
      assert p[i] in multiset(q);
      var j :| 0 <= j < |q| && q[j] == p[i];
    }
  }
}
