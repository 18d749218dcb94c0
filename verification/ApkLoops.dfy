/** The loops that select the APKs. */
module ApkLoops {
  import opened Common
  import opened ApkSelect
  import opened ApkSelection

  method NearestDensityLoop(wanted: int, values: seq<int>) returns (best: int)
    ensures best == NearestDensity(wanted, values)
  {
    best := 0;
    var bestDistance := MAX_INT64;
    for i := 0 to |values|
      invariant NearestFrom(wanted, values[i..], Best(best, bestDistance)).value == NearestDensity(wanted, values)
    {
      assert values[i..][1..] == values[i + 1..];
      var value := values[i];
      var distance := Wrap64(value - wanted);
      if distance < 0 { distance := Wrap64(-distance); }
      if distance < bestDistance || (distance == bestDistance && value > best) {
        best, bestDistance := value, distance;
      }
    }
  }

  method HighestNotAboveLoop(wanted: int, values: seq<int>) returns (best: int)
    ensures best == HighestNotAbove(wanted, values)
  {
    best := 0;
    for i := 0 to |values|
      invariant HighestFrom(wanted, values[i..], best) == HighestNotAbove(wanted, values)
    {
      assert values[i..][1..] == values[i + 1..];
      if values[i] <= wanted && values[i] > best { best := values[i]; }
    }
  }

  method ChooseAbiLoop(abis: seq<string>, candidates: seq<Description>) returns (chosen: string)
    ensures chosen == ChooseAbi(abis, candidates)
  {
    chosen := "";
    for i := 0 to |abis|
      invariant chosen == ""
      invariant ChooseAbi(abis[i..], candidates) == ChooseAbi(abis, candidates)
    {
      assert abis[i..][1..] == abis[i + 1..];
      for j := 0 to |candidates|
        invariant chosen == ""
        invariant forall k :: 0 <= k < j ==> abis[i] == "" || !ContainsFold(candidates[k].target.abis, abis[i])
      {
        if ContainsFold(candidates[j].target.abis, abis[i]) {
          chosen := abis[i];
          break;
        }
      }
      if chosen != "" { return; }
    }
  }

  /** targetMatchesVariant. */
  method TargetMatchesVariant(t: Target, device: Device) returns (matches: bool)
    ensures matches == MatchesVariant(t, device)
  {
    hide ContainsAnyFold, HighestNotAbove, NearestDensity;
    if t.abis != [] && !ContainsAnyFold(t.abis, device.abis) { return false; }
    if t.abis == [] && t.abiAlternatives != [] && ContainsAnyFold(t.abiAlternatives, device.abis) { return false; }
    if t.minSdks != [] {
      var highest := HighestNotAboveLoop(device.sdk, t.minSdks);
      if highest == 0 { return false; }
    }
    if t.densities != [] {
      var nearest := NearestDensityLoop(device.density, t.densities);
      if nearest == 0 { return false; }
    }
    return true;
  }

  /** selectAPKS on a parsed table of contents. The sort by falling number may order equal numbers
      any way it likes. */
  method SelectLoop(packageName: string, descriptions: seq<Description>, variants: seq<Variant>, device: Device)
    returns (r: Result<Selection, SelectError>)
    ensures r == Select(packageName, descriptions, variants, device)
  {
    hide MatchesVariant, Included, SafeRelative, IsCandidate, ChooseAbi, NearestDensity, HighestNotAbove;
    var sorted: seq<Variant> := AnyDescending(variants);
    var selected := -1;
    var i := 0;
    while i < |sorted|
      invariant 0 <= i <= |sorted| && selected == -1
      invariant FirstMatch(sorted[i..], device) == FirstMatch(sorted, device)
    {
      assert sorted[i..][1..] == sorted[i + 1..];
      var fits := TargetMatchesVariant(sorted[i].target, device);
      if fits {
        selected := sorted[i].number;
        break;
      }
      i := i + 1;
    }
    SortVariantsSorts(variants);
    VariantChoiceIgnoresOrder(sorted, SortVariants(variants), device);
    if selected < 0 { return Err(NoVariant); }
    var candidates := CandidatesLoop(descriptions, selected);
    var abi := ChooseAbiLoop(device.abis, candidates);
    var densities, sdks := Gather(candidates);
    var density := NearestDensityLoop(device.density, densities);
    var sdk := HighestNotAboveLoop(device.sdk, sdks);
    var paths := IncludeLoop(candidates, Choice(abi, density, sdk), device);
    if paths.Err? { return Err(paths.error); }
    if paths.value == [] { return Err(NothingSelected); }
    r := Ok(Selection(packageName, SortStrings(paths.value), selected, abi, density, device.locales));
  }

  method AnyDescending(variants: seq<Variant>) returns (sorted: seq<Variant>)
    ensures Descending(sorted) && multiset(sorted) == multiset(variants)
  {
    SortVariantsSorts(variants);
    sorted := SortVariants(variants);
  }

  lemma Regrouped<T>(a: seq<T>, b: seq<T>, c: seq<T>)
    ensures a + (b + c) == (a + b) + c
  {
  }

  lemma CandidatesStep(before: seq<Description>, rest: seq<Description>, variant: int)
    requires rest != []
    ensures before + Candidates(rest, variant)
            == (if IsCandidate(rest[0], variant) then before + [rest[0]] else before) + Candidates(rest[1..], variant)
  {
    var head := if IsCandidate(rest[0], variant) then [rest[0]] else [];
    Regrouped(before, head, Candidates(rest[1..], variant));
    assert before + [] == before;
  }

  method CandidatesLoop(descriptions: seq<Description>, variant: int) returns (candidates: seq<Description>)
    ensures candidates == Candidates(descriptions, variant)
  {
    candidates := [];
    ghost var all := Candidates(descriptions, variant);
    assert descriptions[0..] == descriptions;
    for i := 0 to |descriptions|
      invariant candidates + Candidates(descriptions[i..], variant) == all
    {
      var d := descriptions[i];
      CandidatesStep(candidates, descriptions[i..], variant);
      assert descriptions[i..][1..] == descriptions[i + 1..];
      hide Candidates;
      if d.variant == variant && (d.delivery == 0 || d.delivery == 1) { candidates := candidates + [d]; }
    }
  }

  method Gather(candidates: seq<Description>) returns (densities: seq<int>, sdks: seq<int>)
    ensures densities == AllDensities(candidates) && sdks == AllSdks(candidates)
  {
    densities, sdks := [], [];
    for i := 0 to |candidates|
      invariant densities + AllDensities(candidates[i..]) == AllDensities(candidates)
      invariant sdks + AllSdks(candidates[i..]) == AllSdks(candidates)
    {
      assert candidates[i..][1..] == candidates[i + 1..];
      densities := densities + candidates[i].target.densities;
      sdks := sdks + candidates[i].target.minSdks;
    }
  }

  method Includes(d: Description, c: Choice, device: Device) returns (taken: bool)
    ensures taken == Included(d, c, device)
  {
    hide EmptyTarget, ContainsFold, ContainsAnyFold, LanguagesIntersect;
    var t := d.target;
    taken := d.isMaster || EmptyTarget(t);
    if !taken {
      taken := true;
      if t.abis != [] && (c.abi == "" || !ContainsFold(t.abis, c.abi)) { taken := false; }
      if t.densities != [] && (c.density == 0 || c.density !in t.densities) { taken := false; }
      if t.minSdks != [] && (c.sdk == 0 || c.sdk !in t.minSdks) { taken := false; }
      if t.languages != [] && !LanguagesIntersect(t.languages, device.locales) { taken := false; }
      if t.abis == [] && t.abiAlternatives != [] && ContainsAnyFold(t.abiAlternatives, device.abis) { taken := false; }
      if t.languages == [] && t.languageAlternatives != [] && LanguagesIntersect(t.languageAlternatives, device.locales) {
        taken := false;
      }
    }
  }

  lemma IncludedStep(before: seq<string>, rest: seq<Description>, c: Choice, device: Device)
    requires rest != []
    ensures before + IncludedPaths(rest, c, device)
            == (if Included(rest[0], c, device) then before + [rest[0].path] else before)
               + IncludedPaths(rest[1..], c, device)
  {
    hide Included;
    var head := if Included(rest[0], c, device) then [rest[0].path] else [];
    Regrouped(before, head, IncludedPaths(rest[1..], c, device));
    assert before + [] == before;
  }

  method IncludeLoop(candidates: seq<Description>, c: Choice, device: Device) returns (r: Result<seq<string>, SelectError>)
    ensures var paths := IncludedPaths(candidates, c, device);
            r == if exists i :: 0 <= i < |paths| && !SafeRelative(paths[i]) then Err(SelectError.UnsafePath) else Ok(paths)
  {
    var selected: seq<string> := [];
    ghost var all := IncludedPaths(candidates, c, device);
    assert candidates[0..] == candidates;
    for k := 0 to |candidates|
      invariant selected + IncludedPaths(candidates[k..], c, device) == all
      invariant forall i :: 0 <= i < |selected| ==> SafeRelative(selected[i])
    {
      var d := candidates[k];
      IncludedStep(selected, candidates[k..], c, device);
      assert candidates[k..][1..] == candidates[k + 1..];
      hide IncludedPaths, Included, SafeRelative;
      var taken := Includes(d, c, device);
      if taken {
        if !SafeRelative(d.path) {
          assert !SafeRelative(all[|selected|]);
          return Err(SelectError.UnsafePath);
        }
        selected := selected + [d.path];
      }
    }
    assert all == selected;
    r := Ok(selected);
  }
}
