/** The table of contents of an .apks archive: a protobuf message of variants, each with its APK sets. */
module ApkToc {
  import opened Common
  import opened Wire
  import opened ApkSelect
  import opened ApkSelection

  datatype TocError = Malformed(cause: WireError) | MissingPath | NothingInstallable

  type Parsed<T> = Result<T, TocError>

  // ----- Reading fields -----

  function Messages(fields: seq<Field>, number: nat): seq<Bytes> {
    if fields == [] then []
    else (if fields[0].number == number && fields[0].wireType == 2 then [fields[0].bytes] else [])
         + Messages(fields[1..], number)
  }

  function Chars(bytes: Bytes): string { seq(|bytes|, i requires 0 <= i < |bytes| => bytes[i] as char) }

  function StringOf(fields: seq<Field>, number: nat): string {
    var found := Messages(fields, number);
    if found == [] then "" else Chars(found[0])
  }

  /** The first varint of that number, read as a signed 64-bit integer. */
  function IntOf(fields: seq<Field>, number: nat): int {
    if fields == [] then 0
    else if fields[0].number == number && fields[0].wireType == 0 then Wrap64(fields[0].varint)
    else IntOf(fields[1..], number)
  }

  function Wired(data: Bytes): Parsed<seq<Field>> {
    match ParseProtoWire(data)
    case Err(e) => Err(Malformed(e))
    case Ok(fields) => Ok(fields)
  }

  // ----- Targeting -----

  datatype Pair<T> = Pair(values: seq<T>, alternatives: seq<T>)

  function AbiName(alias: int): seq<string> {
    match alias
    case 1 => ["armeabi"]
    case 2 => ["armeabi-v7a"]
    case 3 => ["arm64-v8a"]
    case 4 => ["x86"]
    case 5 => ["x86_64"]
    case 6 => ["mips"]
    case 7 => ["mips64"]
    case 8 => ["riscv64"]
    case _ => []
  }

  function Abis(raws: seq<Bytes>): Parsed<seq<string>> {
    if raws == [] then Ok([])
    else
      var fields :- Wired(raws[0]);
      var rest :- Abis(raws[1..]);
      Ok(AbiName(IntOf(fields, 1)) + rest)
  }

  function AliasDensity(alias: int): int {
    match alias
    case 2 => 120
    case 3 => 160
    case 4 => 213
    case 5 => 240
    case 6 => 320
    case 7 => 480
    case 8 => 640
    case _ => 0
  }

  function DensityOf(fields: seq<Field>): int {
    var aliased := AliasDensity(IntOf(fields, 1));
    if aliased == 0 then IntOf(fields, 2) else aliased
  }

  function Densities(raws: seq<Bytes>): Parsed<seq<int>> {
    if raws == [] then Ok([])
    else
      var fields :- Wired(raws[0]);
      var rest :- Densities(raws[1..]);
      Ok((if DensityOf(fields) >= 0 then [DensityOf(fields)] else []) + rest)
  }

  function Sdks(raws: seq<Bytes>): Parsed<seq<int>> {
    if raws == [] then Ok([])
    else
      var fields :- Wired(raws[0]);
      var wrappers := Messages(fields, 1);
      if wrappers == [] then Sdks(raws[1..])
      else
        var wrapper :- Wired(wrappers[0]);
        var rest :- Sdks(raws[1..]);
        Ok([IntOf(wrapper, 1)] + rest)
  }

  function AbiTargeting(raws: seq<Bytes>): Parsed<Pair<string>> {
    if raws == [] then Ok(Pair([], []))
    else
      var fields :- Wired(raws[0]);
      var values :- Abis(Messages(fields, 1));
      var alternatives :- Abis(Messages(fields, 2));
      Ok(Pair(values, alternatives))
  }

  function DensityTargeting(raws: seq<Bytes>): Parsed<Pair<int>> {
    if raws == [] then Ok(Pair([], []))
    else
      var fields :- Wired(raws[0]);
      var values :- Densities(Messages(fields, 1));
      var alternatives :- Densities(Messages(fields, 2));
      Ok(Pair(values, alternatives))
  }

  function SdkTargeting(raws: seq<Bytes>): Parsed<Pair<int>> {
    if raws == [] then Ok(Pair([], []))
    else
      var fields :- Wired(raws[0]);
      var values :- Sdks(Messages(fields, 1));
      var alternatives :- Sdks(Messages(fields, 2));
      Ok(Pair(values, alternatives))
  }

  function Strings(raws: seq<Bytes>): seq<string> { seq(|raws|, i requires 0 <= i < |raws| => Chars(raws[i])) }

  function StringTargeting(raws: seq<Bytes>): Parsed<Pair<string>> {
    if raws == [] then Ok(Pair([], []))
    else
      var fields :- Wired(raws[0]);
      Ok(Pair(Strings(Messages(fields, 1)), Strings(Messages(fields, 2))))
  }

  /** The first targeting message, if there is one. */
  function VariantTarget(raws: seq<Bytes>): Parsed<Target> {
    if raws == [] then Ok(Target([], [], [], [], [], [], [], []))
    else
      var fields :- Wired(raws[0]);
      var sdks :- SdkTargeting(Messages(fields, 1));
      var abis :- AbiTargeting(Messages(fields, 2));
      var densities :- DensityTargeting(Messages(fields, 3));
      Ok(Target(abis.values, abis.alternatives, densities.values, densities.alternatives, [], [],
                sdks.values, sdks.alternatives))
  }

  function ApkTarget(raws: seq<Bytes>): Parsed<Target> {
    if raws == [] then Ok(Target([], [], [], [], [], [], [], []))
    else
      var fields :- Wired(raws[0]);
      var abis :- AbiTargeting(Messages(fields, 1));
      var languages :- StringTargeting(Messages(fields, 3));
      var densities :- DensityTargeting(Messages(fields, 4));
      var sdks :- SdkTargeting(Messages(fields, 5));
      Ok(Target(abis.values, abis.alternatives, densities.values, densities.alternatives,
                languages.values, languages.alternatives, sdks.values, sdks.alternatives))
  }

  // ----- Variants, APK sets, APKs -----

  datatype Module = Module(name: string, delivery: int)

  function ModuleOf(raws: seq<Bytes>): Parsed<Module> {
    if raws == [] then Ok(Module("", 0))
    else
      var fields :- Wired(raws[0]);
      Ok(Module(StringOf(fields, 1), IntOf(fields, 6)))
  }

  function Master(raws: seq<Bytes>): Parsed<bool> {
    if raws == [] then Ok(false)
    else
      var fields :- Wired(raws[0]);
      Ok(IntOf(fields, 2) != 0)
  }

  function Apks(raws: seq<Bytes>, m: Module, variant: int): Parsed<seq<Description>> {
    if raws == [] then Ok([])
    else
      var fields :- Wired(raws[0]);
      var target :- ApkTarget(Messages(fields, 1));
      var master :- Master(Messages(fields, 3));
      if StringOf(fields, 2) == "" then Err(MissingPath)
      else
        var rest :- Apks(raws[1..], m, variant);
        Ok([Description(StringOf(fields, 2), m.name, m.delivery, target, master, variant)] + rest)
  }

  function Sets(raws: seq<Bytes>, variant: int): Parsed<seq<Description>> {
    if raws == [] then Ok([])
    else
      var fields :- Wired(raws[0]);
      var m :- ModuleOf(Messages(fields, 1));
      var apks :- Apks(Messages(fields, 2), m, variant);
      var rest :- Sets(raws[1..], variant);
      Ok(apks + rest)
  }

  datatype Contents = Contents(descriptions: seq<Description>, variants: seq<Variant>)

  function Variants(raws: seq<Bytes>): Parsed<Contents> {
    if raws == [] then Ok(Contents([], []))
    else
      var fields :- Wired(raws[0]);
      var target :- VariantTarget(Messages(fields, 1));
      var apks :- Sets(Messages(fields, 2), IntOf(fields, 3));
      var rest :- Variants(raws[1..]);
      Ok(Contents(apks + rest.descriptions, [Variant(IntOf(fields, 3), target)] + rest.variants))
  }

  datatype Toc = Toc(packageName: string, contents: Contents)

  /** parseBuildApksResult. */
  function ParseToc(data: Bytes): Parsed<Toc> {
    var root :- Wired(data);
    var contents :- Variants(Messages(root, 1));
    if contents.variants == [] || contents.descriptions == [] then Err(NothingInstallable)
    else Ok(Toc(StringOf(root, 4), contents))
  }

  datatype ApksError = BadToc(toc: TocError) | NoSelection(reason: SelectError)

  /** selectAPKS. */
  function SelectApks(data: Bytes, device: Device): Result<Selection, ApksError> {
    match ParseToc(data)
    case Err(e) => Err(BadToc(e))
    case Ok(toc) =>
      match Select(toc.packageName, toc.contents.descriptions, toc.contents.variants, device)
      case Err(e) => Err(NoSelection(e))
      case Ok(selection) => Ok(selection)
  }

  // ----- Densities are what devices have -----

  lemma {:induction false} DensitiesAreReal(raws: seq<Bytes>)
    requires Densities(raws).Ok?
    ensures forall v :: v in Densities(raws).value ==> 0 <= v <= MAX_INT64
  {
    hide ParseProtoWire, Messages, IntOf;
    if raws != [] {
      DensitiesAreReal(raws[1..]);
      IntIs64(Wired(raws[0]).value, 1);
      IntIs64(Wired(raws[0]).value, 2);
    }
  }

  lemma {:induction false} IntIs64(fields: seq<Field>, number: nat)
    ensures -TWO_63 <= IntOf(fields, number) < TWO_63
  {
    if fields != [] { IntIs64(fields[1..], number); }
  }

  lemma TargetDensitiesAreReal(raws: seq<Bytes>)
    requires ApkTarget(raws).Ok?
    ensures forall v :: v in ApkTarget(raws).value.densities ==> 0 <= v <= MAX_INT64
  {
    hide ParseProtoWire, Messages, AbiTargeting, StringTargeting, SdkTargeting, Densities, Wired;
    if raws != [] {
      var found := Messages(Wired(raws[0]).value, 4);
      if found != [] { DensitiesAreReal(Messages(Wired(found[0]).value, 1)); }
    }
  }

  lemma {:induction false} ApksAreReal(raws: seq<Bytes>, m: Module, variant: int)
    requires Apks(raws, m, variant).Ok?
    ensures RealDensities(Apks(raws, m, variant).value)
  {
    hide ParseProtoWire, Messages, ApkTarget, Wired, StringOf, Master;
    if raws != [] {
      TargetDensitiesAreReal(Messages(Wired(raws[0]).value, 1));
      ApksAreReal(raws[1..], m, variant);
    }
  }

  lemma {:induction false} SetsAreReal(raws: seq<Bytes>, variant: int)
    requires Sets(raws, variant).Ok?
    ensures RealDensities(Sets(raws, variant).value)
  {
    hide ParseProtoWire, Messages, Apks, Wired, ModuleOf;
    if raws != [] {
      var fields := Wired(raws[0]).value;
      ApksAreReal(Messages(fields, 2), ModuleOf(Messages(fields, 1)).value, variant);
      SetsAreReal(raws[1..], variant);
    }
  }

  lemma {:induction false} VariantsAreReal(raws: seq<Bytes>)
    requires Variants(raws).Ok?
    ensures RealDensities(Variants(raws).value.descriptions)
  {
    hide ParseProtoWire, Messages, Sets, Wired, VariantTarget, IntOf;
    if raws != [] {
      var fields := Wired(raws[0]).value;
      SetsAreReal(Messages(fields, 2), IntOf(fields, 3));
      VariantsAreReal(raws[1..]);
    }
  }

  /** Whatever table of contents is accepted, the choices made from it are the device's best ones. */
  lemma ParsedChoicesAreBest(data: Bytes, variant: int, device: Device)
    requires ParseToc(data).Ok? && 0 <= device.density <= MAX_INT64
    ensures var candidates := Candidates(ParseToc(data).value.contents.descriptions, variant);
            var c := Choose(candidates, device);
            MostPreferred(c.abi, device.abis, candidates) && Nearest(c.density, device.density, candidates)
            && Highest(c.sdk, device.sdk, candidates)
  {
    hide ParseProtoWire, Messages, Variants, Wired, StringOf, Choose, MostPreferred, Nearest, Highest, RealDensities;
    VariantsAreReal(Messages(Wired(data).value, 1));
    ChoicesAreBest(ParseToc(data).value.contents.descriptions, variant, device);
  }

  // ----- Splitting a table of contents -----

  lemma {:induction false} MessagesOfJoined(a: seq<Field>, b: seq<Field>, number: nat)
    ensures Messages(a + b, number) == Messages(a, number) + Messages(b, number)
  {
    if a == [] {
      assert a + b == b;
    } else {
      assert (a + b)[0] == a[0] && (a + b)[1..] == a[1..] + b;
      MessagesOfJoined(a[1..], b, number);
    }
  }

  function Joined(a: Contents, b: Contents): Contents {
    Contents(a.descriptions + b.descriptions, a.variants + b.variants)
  }

  lemma {:induction false} VariantsOfJoined(a: seq<Bytes>, b: seq<Bytes>)
    ensures Variants(a + b).Ok? <==> Variants(a).Ok? && Variants(b).Ok?
    ensures Variants(a + b).Ok? ==> Variants(a + b).value == Joined(Variants(a).value, Variants(b).value)
  {
    hide ParseProtoWire, Messages, Sets, Wired, VariantTarget, IntOf;
    if a == [] {
      assert a + b == b;
    } else {
      assert (a + b)[0] == a[0] && (a + b)[1..] == a[1..] + b;
      VariantsOfJoined(a[1..], b);
    }
  }

  /** At most one package name is written, or twice the same one. */
  predicate OnePackageName(a: Bytes, b: Bytes)
    requires ParseProtoWire(a).Ok? && ParseProtoWire(b).Ok?
  {
    var left, right := Messages(ParseProtoWire(a).value, 4), Messages(ParseProtoWire(b).value, 4);
    left == [] || right == [] || left[0] == right[0]
  }

  predicate SameOutcome(r: Result<Selection, ApksError>, s: Result<Selection, ApksError>) {
    r == s || (r.Err? && s.Err?)
  }

  lemma TocOfJoined(a: Bytes, b: Bytes)
    requires ParseProtoWire(a).Ok? && ParseProtoWire(b).Ok? && |a + b| <= MAX_DATA
    requires |ParseProtoWire(a).value| + |ParseProtoWire(b).value| <= MAX_FIELDS
    ensures var left, right := Messages(ParseProtoWire(a).value, 1), Messages(ParseProtoWire(b).value, 1);
            ParseToc(a + b) ==
            match Variants(left + right)
            case Err(e) => Err(e)
            case Ok(c) =>
              if c.variants == [] || c.descriptions == [] then Err(NothingInstallable)
              else Ok(Toc(StringOf(ParseProtoWire(a).value + ParseProtoWire(b).value, 4), c))
  {
    hide Messages, Variants, ParseFrom;
    ParseOfConcatenation(a, b);
    MessagesOfJoined(ParseProtoWire(a).value, ParseProtoWire(b).value, 1);
  }

  lemma NameOfJoined(a: Bytes, b: Bytes)
    requires ParseProtoWire(a).Ok? && ParseProtoWire(b).Ok? && OnePackageName(a, b)
    ensures StringOf(ParseProtoWire(a).value + ParseProtoWire(b).value, 4)
            == StringOf(ParseProtoWire(b).value + ParseProtoWire(a).value, 4)
  {
    hide Messages, ParseProtoWire;
    MessagesOfJoined(ParseProtoWire(a).value, ParseProtoWire(b).value, 4);
    MessagesOfJoined(ParseProtoWire(b).value, ParseProtoWire(a).value, 4);
  }

  /** The two halves of a table of contents may be written in either order: the selection is the
      same, or there is none either way. */
  lemma HalvesMaySwap(a: Bytes, b: Bytes, device: Device)
    requires ParseProtoWire(a).Ok? && ParseProtoWire(b).Ok? && |a + b| <= MAX_DATA
    requires |ParseProtoWire(a).value| + |ParseProtoWire(b).value| <= MAX_FIELDS
    requires OnePackageName(a, b)
    ensures SameOutcome(SelectApks(a + b, device), SelectApks(b + a, device))
  {
    hide Messages, Variants, ParseProtoWire, StringOf, OnePackageName, Select, ParseToc;
    TocOfJoined(a, b);
    TocOfJoined(b, a);
    NameOfJoined(a, b);
    var left, right := Messages(ParseProtoWire(a).value, 1), Messages(ParseProtoWire(b).value, 1);
    VariantsOfJoined(left, right);
    VariantsOfJoined(right, left);
    if Variants(left).Ok? && Variants(right).Ok? {
      var l, r := Variants(left).value, Variants(right).value;
      var name := StringOf(ParseProtoWire(a).value + ParseProtoWire(b).value, 4);
      assert multiset(l.descriptions + r.descriptions) == multiset(r.descriptions + l.descriptions);
      assert multiset(l.variants + r.variants) == multiset(r.variants + l.variants);
      SelectionIgnoresOrder(name, l.descriptions + r.descriptions, r.descriptions + l.descriptions,
                            l.variants + r.variants, r.variants + l.variants, device);
    }
  }
}
