/** Writing a table of contents by the message layout of the build tool, and reading it back. */
module ApkTocWriter {
  import opened Common
  import opened Wire
  import opened ApkSelect
  import opened ApkToc

  datatype ApkBlock = ApkBlock(path: string, target: Target, master: bool)
  datatype SetBlock = SetBlock(name: string, delivery: int, apks: seq<ApkBlock>)
  datatype VariantBlock = VariantBlock(number: int, target: Target, sets: seq<SetBlock>)

  // ----- Fields -----

  function Msg(number: nat, bytes: Bytes): Field { Field(number, 2, 0, bytes) }

  /** A signed 64-bit integer in two's complement. */
  function Num(number: nat, value: int): Field
    requires Int64(value)
  {
    Field(number, 0, if value < 0 then value + 2 * TWO_63 else value, [])
  }

  function Many(number: nat, raws: seq<Bytes>): seq<Field> {
    if raws == [] then [] else [Msg(number, raws[0])] + Many(number, raws[1..])
  }

  predicate Int64(v: int) { -TWO_63 <= v < TWO_63 }

  predicate AllInt64(values: seq<int>) { forall i :: 0 <= i < |values| ==> Int64(values[i]) }

  predicate RealDensityList(values: seq<int>) { forall i :: 0 <= i < |values| ==> 0 <= values[i] <= MAX_INT64 }

  predicate Bytewise(s: string) { forall i :: 0 <= i < |s| ==> s[i] as int < 256 }

  function BytesOf(s: string): Bytes
    requires Bytewise(s)
  {
    seq(|s|, i requires 0 <= i < |s| => s[i] as int)
  }

  lemma CharsOfBytes(s: string)
    requires Bytewise(s)
    ensures Chars(BytesOf(s)) == s
  {}

  lemma {:induction false} MessagesOfMany(number: nat, raws: seq<Bytes>, wanted: nat)
    ensures Messages(Many(number, raws), wanted) == if wanted == number then raws else []
    ensures |Many(number, raws)| == |raws|
  {
    if raws != [] { MessagesOfMany(number, raws[1..], wanted); }
  }

  /** A message whose fields are well formed and few enough. */
  predicate Proper(fields: seq<Field>) {
    |fields| <= MAX_FIELDS && forall i :: 0 <= i < |fields| ==> WellFormed(fields[i])
  }

  lemma {:induction false} ManyAreProper(number: nat, raws: seq<Bytes>)
    requires 1 <= number < 100
    ensures forall f :: f in Many(number, raws) ==> WellFormed(f)
  {
    if raws != [] { ManyAreProper(number, raws[1..]); }
  }

  lemma ReadBack(fields: seq<Field>)
    requires Proper(fields) && |Serialise(fields)| <= MAX_DATA
    ensures Wired(Serialise(fields)) == Ok(fields)
  {
    hide ParseProtoWire, Serialise;
    ParseInvertsSerialise(fields);
  }

  /** A message inside a message that fits, fits. */
  lemma InnerFits(fields: seq<Field>, f: Field)
    requires f in fields && f.wireType == 2 && |Serialise(fields)| <= MAX_DATA
    ensures |f.bytes| <= MAX_DATA
  {
    hide Serialise;
    var i :| 0 <= i < |fields| && fields[i] == f;
    SerialisedSizes(fields, i);
  }

  lemma {:induction false} ManyContain(number: nat, raws: seq<Bytes>, i: nat)
    requires i < |raws|
    ensures Msg(number, raws[i]) in Many(number, raws)
  {
    if i > 0 { ManyContain(number, raws[1..], i - 1); }
  }

  predicate AllFit(raws: seq<Bytes>) { forall i :: 0 <= i < |raws| ==> |raws[i]| <= MAX_DATA }

  lemma InnerFit(fields: seq<Field>, number: nat, raws: seq<Bytes>)
    requires |Serialise(fields)| <= MAX_DATA && forall f :: f in Many(number, raws) ==> f in fields
    ensures AllFit(raws)
  {
    hide Serialise, Many;
    forall i | 0 <= i < |raws| ensures |raws[i]| <= MAX_DATA {
      ManyContain(number, raws, i);
      InnerFits(fields, Msg(number, raws[i]));
    }
  }

  lemma SmallNumbersFit(number: nat, value: int)
    requires 1 <= number < 100 && Int64(value)
    ensures Wired(Serialise([Num(number, value)])) == Ok([Num(number, value)])
    ensures IntOf([Num(number, value)], number) == value
  {
    hide Wired, ReadVarint, EncodeVarint;
    var f := Num(number, value);
    VarintRoundTrip(8 * number, []);
    VarintRoundTrip(f.varint, []);
    assert [f][1..] == [];
    assert Serialise([f]) == SerialiseField(f) + Serialise([]) == SerialiseField(f);
    assert |SerialiseField(f)| <= 20;
    ReadBack([f]);
  }

  // ----- Targeting -----

  function Alias(name: string): nat {
    match name
    case "armeabi" => 1
    case "armeabi-v7a" => 2
    case "arm64-v8a" => 3
    case "x86" => 4
    case "x86_64" => 5
    case "mips" => 6
    case "mips64" => 7
    case "riscv64" => 8
    case _ => 0
  }

  predicate KnownAbis(names: seq<string>) { forall i :: 0 <= i < |names| ==> Alias(names[i]) != 0 }

  function AbiRaws(names: seq<string>): seq<Bytes> {
    if names == [] then [] else [Serialise([Num(1, Alias(names[0]))])] + AbiRaws(names[1..])
  }

  lemma AliasNames(name: string)
    requires Alias(name) != 0
    ensures AbiName(Alias(name)) == [name]
  {}

  lemma {:induction false} AbisBack(names: seq<string>)
    requires KnownAbis(names)
    ensures Abis(AbiRaws(names)) == Ok(names)
  {
    hide Serialise, Wired, Alias, AbiName, IntOf;
    if names != [] {
      AliasNames(names[0]);
      AliasIsSmall(names[0]);
      SmallNumbersFit(1, Alias(names[0]));
      AbisBack(names[1..]);
      assert names == [names[0]] + names[1..];
    }
  }

  lemma AliasIsSmall(name: string)
    ensures Alias(name) <= 8
  {}

  /** The aliases of the standard density buckets, ldpi to xxxhdpi. */
  function Bucket(dpi: int): nat {
    match dpi
    case 120 => 2
    case 160 => 3
    case 213 => 4
    case 240 => 5
    case 320 => 6
    case 480 => 7
    case 640 => 8
    case _ => 0
  }

  /** A density of a standard bucket is written by its alias, any other in dots per inch. */
  function DensityField(dpi: int): Field
    requires 0 <= dpi <= MAX_INT64
  {
    if Bucket(dpi) != 0 then Num(1, Bucket(dpi)) else Num(2, dpi)
  }

  function DensityRaws(values: seq<int>): seq<Bytes>
    requires RealDensityList(values)
  {
    if values == [] then [] else [Serialise([DensityField(values[0])])] + DensityRaws(values[1..])
  }

  lemma BucketsAreDensities(dpi: int)
    ensures Bucket(dpi) <= 8 && Bucket(0) == 0
    ensures Bucket(dpi) != 0 ==> AliasDensity(Bucket(dpi)) == dpi
    ensures AliasDensity(0) == 0
  {}

  /** A density message means its dots per inch, whether it names the bucket or gives the number. */
  lemma DensityBack(dpi: int)
    requires 0 <= dpi <= MAX_INT64
    ensures Wired(Serialise([DensityField(dpi)])).Ok? && DensityOf(Wired(Serialise([DensityField(dpi)])).value) == dpi
    ensures Wired(Serialise([Num(2, dpi)])).Ok? && DensityOf(Wired(Serialise([Num(2, dpi)])).value) == dpi
  {
    hide Serialise, Wired, AliasDensity, Bucket;
    BucketsAreDensities(dpi);
    SmallNumbersFit(2, dpi);
    assert [Num(2, dpi)][1..] == [];
    assert IntOf([Num(2, dpi)], 1) == 0;
    if Bucket(dpi) != 0 { SmallNumbersFit(1, Bucket(dpi)); }
  }

  lemma {:induction false} DensitiesBack(values: seq<int>)
    requires RealDensityList(values)
    ensures Densities(DensityRaws(values)) == Ok(values)
  {
    hide Serialise, Wired, DensityField, DensityOf;
    if values != [] {
      DensityBack(values[0]);
      DensitiesBack(values[1..]);
      assert values == [values[0]] + values[1..];
    }
  }

  /** An SDK floor is wrapped in a message of its own. */
  function SdkRaws(values: seq<int>): seq<Bytes>
    requires AllInt64(values)
  {
    if values == [] then []
    else [Serialise([Msg(1, Serialise([Num(1, values[0])]))])] + SdkRaws(values[1..])
  }

  lemma SdkMessage(value: int)
    requires Int64(value)
    ensures var inner := Serialise([Num(1, value)]);
            Wired(Serialise([Msg(1, inner)])) == Ok([Msg(1, inner)]) && Messages([Msg(1, inner)], 1) == [inner]
  {
    var f := Num(1, value);
    var inner := Serialise([f]);
    VarintRoundTrip(8, []);
    VarintRoundTrip(f.varint, []);
    assert [f][1..] == [];
    assert inner == SerialiseField(f) + Serialise([]) == SerialiseField(f);
    assert |inner| <= 20;
    var m := Msg(1, inner);
    VarintRoundTrip(10, []);
    VarintRoundTrip(|inner|, []);
    assert [m][1..] == [];
    assert Serialise([m]) == SerialiseField(m) + Serialise([]) == SerialiseField(m);
    assert |SerialiseField(m)| <= 40;
    ReadBack([m]);
    assert Messages([m][1..], 1) == [];
  }

  lemma {:induction false} SdksBack(values: seq<int>)
    requires AllInt64(values)
    ensures Sdks(SdkRaws(values)) == Ok(values)
  {
    hide Serialise, Wired, Messages, IntOf;
    if values != [] {
      SdkMessage(values[0]);
      SmallNumbersFit(1, values[0]);
      SdksBack(values[1..]);
      assert values == [values[0]] + values[1..];
    }
  }

  /** Values under field 1 and alternatives under field 2. */
  function PairFields(values: seq<Bytes>, alternatives: seq<Bytes>): seq<Field> { Many(1, values) + Many(2, alternatives) }

  lemma PairBack(values: seq<Bytes>, alternatives: seq<Bytes>)
    requires |values| + |alternatives| <= MAX_FIELDS && |Serialise(PairFields(values, alternatives))| <= MAX_DATA
    ensures var fields := PairFields(values, alternatives);
            Wired(Serialise(fields)) == Ok(fields) && Messages(fields, 1) == values && Messages(fields, 2) == alternatives
  {
    hide Serialise, Messages, Many, Wired;
    ManyAreProper(1, values);
    ManyAreProper(2, alternatives);
    MessagesOfMany(1, values, 1);
    MessagesOfMany(1, values, 2);
    MessagesOfMany(2, alternatives, 1);
    MessagesOfMany(2, alternatives, 2);
    MessagesOfJoined(Many(1, values), Many(2, alternatives), 1);
    MessagesOfJoined(Many(1, values), Many(2, alternatives), 2);
    assert values + [] == values && [] + alternatives == alternatives;
    ReadBack(PairFields(values, alternatives));
  }

  function TextRaws(values: seq<string>): seq<Bytes>
    requires forall i :: 0 <= i < |values| ==> Bytewise(values[i])
  {
    seq(|values|, i requires 0 <= i < |values| => BytesOf(values[i]))
  }

  lemma TextsBack(values: seq<string>)
    requires forall i :: 0 <= i < |values| ==> Bytewise(values[i])
    ensures Strings(TextRaws(values)) == values
  {
    forall i | 0 <= i < |values| ensures Chars(BytesOf(values[i])) == values[i] { CharsOfBytes(values[i]); }
  }

  /** Targets that the format can express. */
  predicate Expressible(t: Target) {
    && KnownAbis(t.abis) && KnownAbis(t.abiAlternatives)
    && RealDensityList(t.densities) && RealDensityList(t.densityAlternatives)
    && AllInt64(t.minSdks) && AllInt64(t.sdkAlternatives)
    && (forall i :: 0 <= i < |t.languages| ==> Bytewise(t.languages[i]))
    && (forall i :: 0 <= i < |t.languageAlternatives| ==> Bytewise(t.languageAlternatives[i]))
    && |t.abis| + |t.abiAlternatives| <= MAX_FIELDS && |t.densities| + |t.densityAlternatives| <= MAX_FIELDS
    && |t.minSdks| + |t.sdkAlternatives| <= MAX_FIELDS && |t.languages| + |t.languageAlternatives| <= MAX_FIELDS
  }

  function AbiBytes(t: Target): Bytes
    requires Expressible(t)
  {
    Serialise(PairFields(AbiRaws(t.abis), AbiRaws(t.abiAlternatives)))
  }

  function DensityBytes(t: Target): Bytes
    requires Expressible(t)
  {
    Serialise(PairFields(DensityRaws(t.densities), DensityRaws(t.densityAlternatives)))
  }

  function SdkBytes(t: Target): Bytes
    requires Expressible(t)
  {
    Serialise(PairFields(SdkRaws(t.minSdks), SdkRaws(t.sdkAlternatives)))
  }

  function LanguageBytes(t: Target): Bytes
    requires Expressible(t)
  {
    Serialise(PairFields(TextRaws(t.languages), TextRaws(t.languageAlternatives)))
  }

  lemma {:induction false} RawCounts(names: seq<string>)
    ensures |AbiRaws(names)| == |names|
  {
    if names != [] { RawCounts(names[1..]); }
  }

  lemma {:induction false} DensityCounts(values: seq<int>)
    requires RealDensityList(values)
    ensures |DensityRaws(values)| == |values|
  {
    if values != [] { DensityCounts(values[1..]); }
  }

  lemma {:induction false} SdkCounts(values: seq<int>)
    requires AllInt64(values)
    ensures |SdkRaws(values)| == |values|
  {
    if values != [] { SdkCounts(values[1..]); }
  }

  lemma AbiTargetingBack(t: Target)
    requires Expressible(t) && |AbiBytes(t)| <= MAX_DATA
    ensures AbiTargeting([AbiBytes(t)]) == Ok(Pair(t.abis, t.abiAlternatives))
  {
    hide Serialise, Wired, Messages, PairFields, Abis, AbiRaws, KnownAbis;
    RawCounts(t.abis);
    RawCounts(t.abiAlternatives);
    PairBack(AbiRaws(t.abis), AbiRaws(t.abiAlternatives));
    AbisBack(t.abis);
    AbisBack(t.abiAlternatives);
  }

  lemma DensityTargetingBack(t: Target)
    requires Expressible(t) && |DensityBytes(t)| <= MAX_DATA
    ensures DensityTargeting([DensityBytes(t)]) == Ok(Pair(t.densities, t.densityAlternatives))
  {
    hide Serialise, Wired, Messages, PairFields, Densities, DensityRaws;
    DensityCounts(t.densities);
    DensityCounts(t.densityAlternatives);
    PairBack(DensityRaws(t.densities), DensityRaws(t.densityAlternatives));
    DensitiesBack(t.densities);
    DensitiesBack(t.densityAlternatives);
  }

  lemma SdkTargetingBack(t: Target)
    requires Expressible(t) && |SdkBytes(t)| <= MAX_DATA
    ensures SdkTargeting([SdkBytes(t)]) == Ok(Pair(t.minSdks, t.sdkAlternatives))
  {
    hide Serialise, Wired, Messages, PairFields, Sdks, SdkRaws;
    SdkCounts(t.minSdks);
    SdkCounts(t.sdkAlternatives);
    PairBack(SdkRaws(t.minSdks), SdkRaws(t.sdkAlternatives));
    SdksBack(t.minSdks);
    SdksBack(t.sdkAlternatives);
  }

  lemma StringTargetingBack(t: Target)
    requires Expressible(t) && |LanguageBytes(t)| <= MAX_DATA
    ensures StringTargeting([LanguageBytes(t)]) == Ok(Pair(t.languages, t.languageAlternatives))
  {
    hide Serialise, Wired, Messages, PairFields, Strings, BytesOf;
    PairBack(TextRaws(t.languages), TextRaws(t.languageAlternatives));
    TextsBack(t.languages);
    TextsBack(t.languageAlternatives);
  }

  // ----- Targets -----

  function VariantTargetFields(t: Target): seq<Field>
    requires Expressible(t)
  {
    [Msg(1, SdkBytes(t)), Msg(2, AbiBytes(t)), Msg(3, DensityBytes(t))]
  }

  function ApkTargetFields(t: Target): seq<Field>
    requires Expressible(t)
  {
    [Msg(1, AbiBytes(t)), Msg(3, LanguageBytes(t)), Msg(4, DensityBytes(t)), Msg(5, SdkBytes(t))]
  }

  lemma OneMessage(before: seq<Field>, f: Field, after: seq<Field>)
    requires f.wireType == 2
    requires forall g :: g in before || g in after ==> g.number != f.number || g.wireType != 2
    ensures Messages(before + [f] + after, f.number) == [f.bytes]
    decreases |before|
  {
    var all := before + [f] + after;
    if before == [] {
      assert all == [f] + after && all[1..] == after;
      NoMessage(after, f.number);
    } else {
      assert all[1..] == before[1..] + [f] + after;
      assert all[0] in before;
      OneMessage(before[1..], f, after);
    }
  }

  lemma {:induction false} NoMessage(fields: seq<Field>, number: nat)
    requires forall g :: g in fields ==> g.number != number || g.wireType != 2
    ensures Messages(fields, number) == []
  {
    if fields != [] { NoMessage(fields[1..], number); }
  }

  lemma VariantTargetBack(t: Target)
    requires Expressible(t) && t.languages == [] && t.languageAlternatives == []
    requires |Serialise(VariantTargetFields(t))| <= MAX_DATA
    ensures VariantTarget([Serialise(VariantTargetFields(t))]) == Ok(t)
  {
    hide Serialise, Wired, Messages, Expressible, SdkBytes, AbiBytes, DensityBytes,
         SdkTargeting, AbiTargeting, DensityTargeting;
    var a, b, c := Msg(1, SdkBytes(t)), Msg(2, AbiBytes(t)), Msg(3, DensityBytes(t));
    var fields := VariantTargetFields(t);
    ReadBack(fields);
    assert fields == [] + [a] + [b, c] == [a] + [b] + [c] == [a, b] + [c] + [];
    OneMessage([], a, [b, c]);
    OneMessage([a], b, [c]);
    OneMessage([a, b], c, []);
    InnerFits(fields, a);
    InnerFits(fields, b);
    InnerFits(fields, c);
    SdkTargetingBack(t);
    AbiTargetingBack(t);
    DensityTargetingBack(t);
  }

  lemma ApkTargetBack(t: Target)
    requires Expressible(t) && |Serialise(ApkTargetFields(t))| <= MAX_DATA
    ensures ApkTarget([Serialise(ApkTargetFields(t))]) == Ok(t)
  {
    hide Serialise, Wired, Messages, Expressible, SdkBytes, AbiBytes, DensityBytes, LanguageBytes,
         SdkTargeting, AbiTargeting, DensityTargeting, StringTargeting;
    var a, b, c, d := Msg(1, AbiBytes(t)), Msg(3, LanguageBytes(t)), Msg(4, DensityBytes(t)), Msg(5, SdkBytes(t));
    var fields := ApkTargetFields(t);
    ReadBack(fields);
    assert fields == [] + [a] + [b, c, d] == [a] + [b] + [c, d] == [a, b] + [c] + [d] == [a, b, c] + [d] + [];
    OneMessage([], a, [b, c, d]);
    OneMessage([a], b, [c, d]);
    OneMessage([a, b], c, [d]);
    OneMessage([a, b, c], d, []);
    InnerFits(fields, a);
    InnerFits(fields, b);
    InnerFits(fields, c);
    InnerFits(fields, d);
    AbiTargetingBack(t);
    StringTargetingBack(t);
    DensityTargetingBack(t);
    SdkTargetingBack(t);
  }

  // ----- APKs, sets, variants -----

  function MasterBytes(master: bool): Bytes { Serialise([Num(2, if master then 1 else 0)]) }

  predicate GoodApk(a: ApkBlock) { Expressible(a.target) && Bytewise(a.path) && a.path != "" }

  function ApkFields(a: ApkBlock): seq<Field>
    requires GoodApk(a)
  {
    [Msg(1, Serialise(ApkTargetFields(a.target))), Msg(2, BytesOf(a.path)), Msg(3, MasterBytes(a.master))]
  }

  predicate GoodApks(apks: seq<ApkBlock>) { forall i :: 0 <= i < |apks| ==> GoodApk(apks[i]) }

  function ApkRaws(apks: seq<ApkBlock>): seq<Bytes>
    requires GoodApks(apks)
  {
    if apks == [] then [] else [Serialise(ApkFields(apks[0]))] + ApkRaws(apks[1..])
  }

  predicate GoodSet(s: SetBlock) {
    Bytewise(s.name) && Int64(s.delivery) && GoodApks(s.apks) && |s.apks| < MAX_FIELDS
  }

  function ModuleFields(s: SetBlock): seq<Field>
    requires GoodSet(s)
  {
    [Msg(1, BytesOf(s.name)), Num(6, s.delivery)]
  }

  function SetFields(s: SetBlock): seq<Field>
    requires GoodSet(s)
  {
    [Msg(1, Serialise(ModuleFields(s)))] + Many(2, ApkRaws(s.apks))
  }

  predicate GoodSets(sets: seq<SetBlock>) { forall i :: 0 <= i < |sets| ==> GoodSet(sets[i]) }

  function SetRaws(sets: seq<SetBlock>): seq<Bytes>
    requires GoodSets(sets)
  {
    if sets == [] then [] else [Serialise(SetFields(sets[0]))] + SetRaws(sets[1..])
  }

  predicate GoodVariant(v: VariantBlock) {
    && Int64(v.number) && Expressible(v.target) && v.target.languages == [] && v.target.languageAlternatives == []
    && GoodSets(v.sets) && |v.sets| < MAX_FIELDS - 1
  }

  function VariantFields(v: VariantBlock): seq<Field>
    requires GoodVariant(v)
  {
    [Msg(1, Serialise(VariantTargetFields(v.target)))] + Many(2, SetRaws(v.sets)) + [Num(3, v.number)]
  }

  predicate GoodVariants(variants: seq<VariantBlock>) { forall i :: 0 <= i < |variants| ==> GoodVariant(variants[i]) }

  function VariantRaws(variants: seq<VariantBlock>): seq<Bytes>
    requires GoodVariants(variants)
  {
    if variants == [] then [] else [Serialise(VariantFields(variants[0]))] + VariantRaws(variants[1..])
  }

  function TocFields(packageName: string, variants: seq<VariantBlock>): seq<Field>
    requires Bytewise(packageName) && GoodVariants(variants)
  {
    Many(1, VariantRaws(variants)) + [Msg(4, BytesOf(packageName))]
  }

  // ----- What the blocks say -----

  function ApkDescriptions(apks: seq<ApkBlock>, s: SetBlock, variant: int): seq<Description> {
    if apks == [] then []
    else [Description(apks[0].path, s.name, s.delivery, apks[0].target, apks[0].master, variant)]
         + ApkDescriptions(apks[1..], s, variant)
  }

  function SetDescriptions(sets: seq<SetBlock>, variant: int): seq<Description> {
    if sets == [] then [] else ApkDescriptions(sets[0].apks, sets[0], variant) + SetDescriptions(sets[1..], variant)
  }

  function AllContents(variants: seq<VariantBlock>): Contents {
    if variants == [] then Contents([], [])
    else
      var v := variants[0];
      Joined(Contents(SetDescriptions(v.sets, v.number), [Variant(v.number, v.target)]), AllContents(variants[1..]))
  }

  // ----- Reading them back -----

  lemma {:induction false} IntOfJoined(a: seq<Field>, b: seq<Field>, number: nat)
    requires forall f :: f in a ==> f.number != number || f.wireType != 0
    ensures IntOf(a + b, number) == IntOf(b, number)
  {
    if a == [] {
      assert a + b == b;
    } else {
      assert (a + b)[0] == a[0] && (a + b)[1..] == a[1..] + b;
      IntOfJoined(a[1..], b, number);
    }
  }

  lemma {:induction false} ManyAreMessages(number: nat, raws: seq<Bytes>)
    ensures forall f :: f in Many(number, raws) ==> f.wireType == 2 && f.number == number
  {
    if raws != [] { ManyAreMessages(number, raws[1..]); }
  }

  lemma NumIsRead(number: nat, value: int)
    requires Int64(value)
    ensures IntOf([Num(number, value)], number) == value
  {}

  lemma MasterBack(master: bool)
    ensures Master([MasterBytes(master)]) == Ok(master)
  {
    hide Serialise, Wired;
    SmallNumbersFit(2, if master then 1 else 0);
  }

  lemma ApkBack(a: ApkBlock, m: ApkToc.Module, variant: int)
    requires GoodApk(a) && |Serialise(ApkFields(a))| <= MAX_DATA
    ensures var fields := ApkFields(a);
            && Wired(Serialise(fields)) == Ok(fields)
            && ApkTarget(Messages(fields, 1)) == Ok(a.target) && StringOf(fields, 2) == a.path
            && Master(Messages(fields, 3)) == Ok(a.master)
  {
    hide Serialise, Wired, Messages, ApkTarget, Expressible, ApkTargetFields, MasterBytes, Master;
    var target := Msg(1, Serialise(ApkTargetFields(a.target)));
    var path, master := Msg(2, BytesOf(a.path)), Msg(3, MasterBytes(a.master));
    var fields := ApkFields(a);
    ReadBack(fields);
    assert fields == [] + [target] + [path, master] == [target] + [path] + [master] == [target, path] + [master] + [];
    OneMessage([], target, [path, master]);
    OneMessage([target], path, [master]);
    OneMessage([target, path], master, []);
    InnerFits(fields, target);
    ApkTargetBack(a.target);
    MasterBack(a.master);
    CharsOfBytes(a.path);
  }

  lemma {:induction false} ApksBack(apks: seq<ApkBlock>, s: SetBlock, variant: int)
    requires GoodApks(apks) && AllFit(ApkRaws(apks))
    ensures Apks(ApkRaws(apks), ApkToc.Module.Module(s.name, s.delivery), variant) == Ok(ApkDescriptions(apks, s, variant))
  {
    hide Serialise, Wired, Messages, ApkTarget, Master, StringOf, GoodApk, ApkFields;
    if apks != [] {
      var raws := ApkRaws(apks);
      assert raws[1..] == ApkRaws(apks[1..]);
      assert |raws[0]| <= MAX_DATA;
      assert forall i :: 0 <= i < |raws[1..]| ==> raws[1..][i] == raws[i + 1];
      ApkBack(apks[0], ApkToc.Module.Module(s.name, s.delivery), variant);
      PathIsThere(apks[0]);
      ApksBack(apks[1..], s, variant);
    }
  }

  lemma PathIsThere(a: ApkBlock)
    requires GoodApk(a)
    ensures a.path != ""
  {}

  lemma ModuleBack(s: SetBlock)
    requires GoodSet(s) && |Serialise(ModuleFields(s))| <= MAX_DATA
    ensures ModuleOf([Serialise(ModuleFields(s))]) == Ok(ApkToc.Module.Module(s.name, s.delivery))
  {
    hide Serialise, Wired, GoodApks;
    var name, delivery := Msg(1, BytesOf(s.name)), Num(6, s.delivery);
    var fields := ModuleFields(s);
    ReadBack(fields);
    assert fields == [] + [name] + [delivery] == [name] + [delivery];
    OneMessage([], name, [delivery]);
    IntOfJoined([name], [delivery], 6);
    NumIsRead(6, s.delivery);
    CharsOfBytes(s.name);
  }

  lemma {:induction false} ApkCounts(apks: seq<ApkBlock>)
    requires GoodApks(apks)
    ensures |ApkRaws(apks)| == |apks|
  {
    if apks != [] { ApkCounts(apks[1..]); }
  }

  lemma {:induction false} SetCounts(sets: seq<SetBlock>)
    requires GoodSets(sets)
    ensures |SetRaws(sets)| == |sets|
  {
    if sets != [] { SetCounts(sets[1..]); }
  }

  lemma {:induction false} VariantCounts(variants: seq<VariantBlock>)
    requires GoodVariants(variants)
    ensures |VariantRaws(variants)| == |variants|
  {
    if variants != [] { VariantCounts(variants[1..]); }
  }

  /** A message with one inner message and a list of others under another number. */
  lemma HeadAndMany(head: Field, number: nat, raws: seq<Bytes>)
    requires WellFormed(head) && head.wireType == 2 && head.number != number && 1 <= number < 100
    requires |raws| < MAX_FIELDS && |Serialise([head] + Many(number, raws))| <= MAX_DATA
    ensures var fields := [head] + Many(number, raws);
            && Wired(Serialise(fields)) == Ok(fields)
            && Messages(fields, head.number) == [head.bytes] && Messages(fields, number) == raws
            && |head.bytes| <= MAX_DATA && AllFit(raws)
  {
    hide Serialise, Wired, Messages, Many;
    var fields := [head] + Many(number, raws);
    ManyAreProper(number, raws);
    MessagesOfMany(number, raws, number);
    MessagesOfMany(number, raws, head.number);
    MessagesOfJoined([head], Many(number, raws), head.number);
    MessagesOfJoined([head], Many(number, raws), number);
    OneMessage([], head, []);
    assert [] + [head] + [] == [head];
    NoMessage([head], number);
    assert [head.bytes] + [] == [head.bytes] && [] + raws == raws;
    ReadBack(fields);
    InnerFits(fields, head);
    InnerFit(fields, number, raws);
  }

  lemma {:induction false} SetsBack(sets: seq<SetBlock>, variant: int)
    requires GoodSets(sets) && AllFit(SetRaws(sets))
    ensures Sets(SetRaws(sets), variant) == Ok(SetDescriptions(sets, variant))
  {
    hide Serialise, Wired, Messages, ModuleOf, Apks, GoodApks, ModuleFields, ApkRaws, Many;
    if sets != [] {
      var s, raws := sets[0], SetRaws(sets);
      assert raws[1..] == SetRaws(sets[1..]);
      assert |raws[0]| <= MAX_DATA;
      assert forall i :: 0 <= i < |raws[1..]| ==> raws[1..][i] == raws[i + 1];
      ApkCounts(s.apks);
      HeadAndMany(Msg(1, Serialise(ModuleFields(s))), 2, ApkRaws(s.apks));
      ModuleBack(s);
      ApksBack(s.apks, s, variant);
      SetsBack(sets[1..], variant);
    }
  }

  lemma VariantBack(v: VariantBlock)
    requires GoodVariant(v) && |Serialise(VariantFields(v))| <= MAX_DATA
    ensures var fields := VariantFields(v);
            && Wired(Serialise(fields)) == Ok(fields) && IntOf(fields, 3) == v.number
            && VariantTarget(Messages(fields, 1)) == Ok(v.target)
            && Sets(Messages(fields, 2), v.number) == Ok(SetDescriptions(v.sets, v.number))
  {
    hide Serialise, Wired, Messages, VariantTarget, Sets, GoodSets, Expressible, VariantTargetFields, SetRaws, Many;
    var head, raws, number := Msg(1, Serialise(VariantTargetFields(v.target))), SetRaws(v.sets), Num(3, v.number);
    var many := Many(2, raws);
    var fields := VariantFields(v);
    SetCounts(v.sets);
    ManyAreProper(2, raws);
    ManyAreMessages(2, raws);
    MessagesOfMany(2, raws, 1);
    MessagesOfMany(2, raws, 2);
    ReadBack(fields);
    assert fields == [] + [head] + (many + [number]) == [head] + many + [number] == ([head] + many) + [number];
    OneMessage([], head, many + [number]);
    NoMessage([head], 2);
    NoMessage([number], 2);
    MessagesOfJoined([head], many, 2);
    MessagesOfJoined([head] + many, [number], 2);
    assert [] + raws + [] == raws;
    IntOfJoined([head] + many, [number], 3);
    NumIsRead(3, v.number);
    InnerFits(fields, head);
    InnerFit(fields, 2, raws);
    VariantTargetBack(v.target);
    SetsBack(v.sets, v.number);
  }

  lemma {:induction false} VariantsBack(variants: seq<VariantBlock>)
    requires GoodVariants(variants) && AllFit(VariantRaws(variants))
    ensures Variants(VariantRaws(variants)) == Ok(AllContents(variants))
  {
    hide Serialise, Wired, Messages, VariantTarget, Sets, GoodVariant, VariantFields, IntOf, SetDescriptions;
    if variants != [] {
      var v, raws := variants[0], VariantRaws(variants);
      assert raws[1..] == VariantRaws(variants[1..]);
      assert |raws[0]| <= MAX_DATA;
      assert forall i :: 0 <= i < |raws[1..]| ==> raws[1..][i] == raws[i + 1];
      VariantBack(v);
      VariantsBack(variants[1..]);
    }
  }

  /** Every table of contents written by the layout is read back as exactly what it says: package
      name, every variant with its target, and every APK with its module, delivery, target and kind,
      in order; or refused when it offers nothing to install. */
  lemma TocRoundTrip(packageName: string, variants: seq<VariantBlock>)
    requires Bytewise(packageName) && GoodVariants(variants) && |variants| < MAX_FIELDS
    requires |Serialise(TocFields(packageName, variants))| <= MAX_DATA
    ensures var contents := AllContents(variants);
            ParseToc(Serialise(TocFields(packageName, variants)))
            == if contents.variants == [] || contents.descriptions == [] then Err(NothingInstallable)
               else Ok(Toc(packageName, contents))
  {
    hide Serialise, Wired, Messages, Variants, GoodVariants, VariantRaws, AllContents, Many;
    var raws, name := VariantRaws(variants), Msg(4, BytesOf(packageName));
    var many := Many(1, raws);
    var fields := TocFields(packageName, variants);
    VariantCounts(variants);
    ManyAreProper(1, raws);
    ManyAreMessages(1, raws);
    MessagesOfMany(1, raws, 1);
    MessagesOfMany(1, raws, 4);
    ReadBack(fields);
    assert fields == many + [name] == many + [name] + [];
    OneMessage(many, name, []);
    NoMessage([name], 1);
    MessagesOfJoined(many, [name], 1);
    assert raws + [] == raws;
    InnerFit(fields, 1, raws);
    VariantsBack(variants);
    CharsOfBytes(packageName);
  }
}
