/** The protobuf wire format as the APK table of contents is read: varints, and fields of the
    four wire types. */
module Wire {
  import opened Common

  datatype WireError = UnexpectedEof | VarintOverflow | BadFieldNumber | BadWireType | TooLarge | TooManyFields

  const MAX_DATA := 64 * 1024 * 1024
  const MAX_FIELDS := 1000000
  const TWO_64 := 0x1_0000_0000_0000_0000

  // ----- Varints -----

  /** A decoded varint and the number of bytes it took. */
  datatype Varint = Varint(value: nat, used: nat)

  /** readProtoVarint, `index` bytes into the varint. */
  function ReadVarint(data: Bytes, index: nat): Result<Varint, WireError>
    decreases |data|
  {
    if data == [] || index >= 10 then Err(UnexpectedEof)
    else if index == 9 && data[0] > 1 then Err(VarintOverflow)
    else if data[0] < 128 then Ok(Varint(data[0], 1))
    else
      match ReadVarint(data[1..], index + 1)
      case Err(e) => Err(e)
      case Ok(rest) => Ok(Varint(data[0] - 128 + 128 * rest.value, rest.used + 1))
  }

  /** encodeProtoVarint: seven bits a byte, least significant first. */
  function EncodeVarint(value: nat): (bytes: Bytes)
    ensures |bytes| >= 1
  {
    if value < 128 then [value] else [value % 128 + 128] + EncodeVarint(value / 128)
  }

  /** The first value that no longer fits when `index` bytes are already taken. */
  function Capacity(index: nat): nat
    requires index <= 9
    decreases 9 - index
  {
    if index == 9 then 2 else 128 * Capacity(index + 1)
  }

  lemma FullCapacity()
    ensures Capacity(0) == TWO_64
  {
    assert Capacity(8) == 256;
    assert Capacity(6) == 256 * 16384;
    assert Capacity(4) == 256 * 16384 * 16384;
    assert Capacity(2) == 256 * 16384 * 16384 * 16384;
  }

  lemma {:induction false} VarintBounds(data: Bytes, index: nat)
    requires ReadVarint(data, index).Ok?
    ensures index <= 9 && ReadVarint(data, index).value.value < Capacity(index)
    ensures 1 <= ReadVarint(data, index).value.used <= 10 - index && ReadVarint(data, index).value.used <= |data|
    decreases |data|
  {
    if data[0] >= 128 {
      VarintBounds(data[1..], index + 1);
    } else if index < 9 {
      CapacityIsLarge(index);
    }
  }

  lemma {:induction false} CapacityIsLarge(index: nat)
    requires index < 9
    ensures Capacity(index) >= 256
    decreases 9 - index
  {
    if index < 8 { CapacityIsLarge(index + 1); }
  }

  lemma {:induction false} VarintRoundTripFrom(value: nat, rest: Bytes, index: nat)
    requires index <= 9 && value < Capacity(index)
    ensures ReadVarint(EncodeVarint(value) + rest, index) == Ok(Varint(value, |EncodeVarint(value)|))
    decreases value
  {
    var data := EncodeVarint(value) + rest;
    if value >= 128 {
      assert data[1..] == EncodeVarint(value / 128) + rest;
      VarintRoundTripFrom(value / 128, rest, index + 1);
    }
  }

  /** Every 64-bit value survives encoding and decoding, in one to ten bytes, whatever follows. */
  lemma VarintRoundTrip(value: nat, rest: Bytes)
    requires value < TWO_64
    ensures ReadVarint(EncodeVarint(value) + rest, 0) == Ok(Varint(value, |EncodeVarint(value)|))
    ensures 1 <= |EncodeVarint(value)| <= 10
  {
    FullCapacity();
    VarintRoundTripFrom(value, rest, 0);
    VarintBounds(EncodeVarint(value) + rest, 0);
  }

  /** What is decoded always fits 64 bits and takes between one and ten bytes that are there. */
  lemma DecodedVarintsFit(data: Bytes)
    requires ReadVarint(data, 0).Ok?
    ensures ReadVarint(data, 0).value.value < TWO_64
    ensures 1 <= ReadVarint(data, 0).value.used <= 10 && ReadVarint(data, 0).value.used <= |data|
  {
    FullCapacity();
    VarintBounds(data, 0);
  }

  /** Only the bytes that were used matter. */
  lemma {:induction false} VarintIsLocal(data: Bytes, index: nat, other: Bytes)
    requires ReadVarint(data, index).Ok?
    requires var n := ReadVarint(data, index).value.used; n <= |data| && n <= |other| && other[..n] == data[..n]
    ensures ReadVarint(other, index) == ReadVarint(data, index)
    decreases |data|
  {
    var n := ReadVarint(data, index).value.used;
    assert n >= 1;
    assert other[0] == other[..n][0] == data[..n][0] == data[0];
    if data[0] >= 128 {
      assert other[1..][..n - 1] == other[..n][1..] == data[..n][1..] == data[1..][..n - 1];
      VarintIsLocal(data[1..], index + 1, other[1..]);
    }
  }

  // ----- Fields -----

  datatype Field = Field(number: nat, wireType: nat, varint: nat, bytes: Bytes)
  datatype Step = Step(field: Field, used: nat)

  /** One field: its key, then what its wire type calls for. */
  function ReadField(data: Bytes): Result<Step, WireError> {
    match ReadVarint(data, 0)
    case Err(e) => Err(e)
    case Ok(key) =>
      if key.value / 8 == 0 then Err(BadFieldNumber)
      else ReadPayload(key.value / 8, key.value % 8, key.used, if key.used <= |data| then data[key.used..] else [])
  }

  /** The payload of a field whose key took `used` bytes. */
  function ReadPayload(number: nat, wireType: nat, used: nat, data: Bytes): Result<Step, WireError> {
    if wireType == 0 then
      match ReadVarint(data, 0)
      case Err(e) => Err(e)
      case Ok(v) => Ok(Step(Field(number, 0, v.value, []), used + v.used))
    else if wireType == 1 then
      if |data| < 8 then Err(UnexpectedEof) else Ok(Step(Field(number, 1, 0, data[..8]), used + 8))
    else if wireType == 2 then
      match ReadVarint(data, 0)
      case Err(e) => Err(e)
      case Ok(length) =>
        if length.used + length.value > |data| then Err(UnexpectedEof)
        else Ok(Step(Field(number, 2, 0, data[length.used..length.used + length.value]),
                     used + length.used + length.value))
    else if wireType == 5 then
      if |data| < 4 then Err(UnexpectedEof) else Ok(Step(Field(number, 5, 0, data[..4]), used + 4))
    else Err(BadWireType)
  }

  /** A field takes at least two bytes, and no more than there are. */
  lemma FieldBounds(data: Bytes)
    requires ReadField(data).Ok?
    ensures 2 <= ReadField(data).value.used <= |data|
    ensures WellFormed(ReadField(data).value.field)
  {
    DecodedVarintsFit(data);
    var key := ReadVarint(data, 0).value;
    var rest := data[key.used..];
    if ReadVarint(rest, 0).Ok? { DecodedVarintsFit(rest); }
  }

  lemma SharedPrefix(data: Bytes, other: Bytes, k: nat, n: nat)
    requires k <= n <= |data| && n <= |other| && other[..n] == data[..n]
    ensures other[..k] == data[..k] && other[k..][..n - k] == data[k..][..n - k] && other[k..n] == data[k..n]
  {
    assert forall i :: 0 <= i < n ==> other[i] == other[..n][i] == data[..n][i] == data[i];
  }

  /** Only the bytes a field used matter. */
  lemma FieldIsLocal(data: Bytes, other: Bytes)
    requires ReadField(data).Ok?
    requires var n := ReadField(data).value.used; n <= |data| && n <= |other| && other[..n] == data[..n]
    ensures ReadField(other) == ReadField(data)
  {
    FieldBounds(data);
    DecodedVarintsFit(data);
    var n := ReadField(data).value.used;
    var key := ReadVarint(data, 0).value;
    SharedPrefix(data, other, key.used, n);
    VarintIsLocal(data, 0, other);
    PayloadIsLocal(key.value / 8, key.value % 8, key.used, data[key.used..], other[key.used..], n - key.used);
  }

  lemma PayloadIsLocal(number: nat, wireType: nat, used: nat, data: Bytes, other: Bytes, n: nat)
    requires ReadPayload(number, wireType, used, data).Ok?
    requires n == ReadPayload(number, wireType, used, data).value.used - used
    requires n <= |data| && n <= |other| && other[..n] == data[..n]
    ensures ReadPayload(number, wireType, used, other) == ReadPayload(number, wireType, used, data)
  {
    if wireType == 0 || wireType == 2 {
      var v := ReadVarint(data, 0).value;
      DecodedVarintsFit(data);
      SharedPrefix(data, other, v.used, n);
      VarintIsLocal(data, 0, other);
    }
  }

  /** parseProtoWire after `count` fields. */
  function ParseFrom(data: Bytes, count: nat): Result<seq<Field>, WireError>
    decreases |data|
  {
    if data == [] then Ok([])
    else
      match ReadField(data)
      case Err(e) => Err(e)
      case Ok(step) =>
        if count + 1 > MAX_FIELDS then Err(TooManyFields)
        else
          FieldBounds(data);
          match ParseFrom(data[step.used..], count + 1)
          case Err(e) => Err(e)
          case Ok(fields) => Ok([step.field] + fields)
  }

  function ParseProtoWire(data: Bytes): Result<seq<Field>, WireError> {
    if |data| > MAX_DATA then Err(TooLarge) else ParseFrom(data, 0)
  }

  // ----- Serialising -----

  /** The fields the parser can produce. */
  predicate WellFormed(f: Field) {
    && 1 <= f.number < TWO_64 / 8
    && match f.wireType
       case 0 => f.varint < TWO_64 && f.bytes == []
       case 1 => f.varint == 0 && |f.bytes| == 8
       case 2 => f.varint == 0
       case 5 => f.varint == 0 && |f.bytes| == 4
       case _ => false
  }

  function SerialisePayload(f: Field): Bytes {
    if f.wireType == 0 then EncodeVarint(f.varint)
    else if f.wireType == 2 then EncodeVarint(|f.bytes|) + f.bytes
    else f.bytes
  }

  function SerialiseField(f: Field): Bytes {
    EncodeVarint(8 * f.number + f.wireType) + SerialisePayload(f)
  }

  function Serialise(fields: seq<Field>): Bytes {
    if fields == [] then [] else SerialiseField(fields[0]) + Serialise(fields[1..])
  }

  lemma PayloadRoundTrip(f: Field, used: nat, rest: Bytes)
    requires WellFormed(f) && |f.bytes| < TWO_64
    ensures ReadPayload(f.number, f.wireType, used, SerialisePayload(f) + rest)
            == Ok(Step(f, used + |SerialisePayload(f)|))
  {
    hide EncodeVarint, ReadVarint;
    var data := SerialisePayload(f) + rest;
    if f.wireType == 0 {
      VarintRoundTrip(f.varint, rest);
    } else if f.wireType == 2 {
      var length := EncodeVarint(|f.bytes|);
      assert data == length + (f.bytes + rest);
      VarintRoundTrip(|f.bytes|, f.bytes + rest);
      assert data[|length|..|length| + |f.bytes|] == f.bytes;
    } else {
      assert data[..|f.bytes|] == f.bytes;
    }
  }

  lemma FieldRoundTrip(f: Field, rest: Bytes)
    requires WellFormed(f) && |f.bytes| < TWO_64
    ensures ReadField(SerialiseField(f) + rest) == Ok(Step(f, |SerialiseField(f)|))
  {
    hide EncodeVarint, ReadVarint, ReadPayload, SerialisePayload;
    var key := EncodeVarint(8 * f.number + f.wireType);
    var after := SerialisePayload(f) + rest;
    assert SerialiseField(f) + rest == key + after;
    VarintRoundTrip(8 * f.number + f.wireType, after);
    assert (key + after)[|key|..] == after;
    PayloadRoundTrip(f, |key|, rest);
  }

  /** The encodings of a list, one each. */
  function Encodings(fields: seq<Field>): seq<Bytes> {
    seq(|fields|, i requires 0 <= i < |fields| => SerialiseField(fields[i]))
  }

  lemma {:induction false} SerialiseFlattens(fields: seq<Field>)
    ensures Serialise(fields) == Flatten(Encodings(fields))
    decreases |fields|
  {
    if fields != [] {
      assert Encodings(fields)[1..] == Encodings(fields[1..]);
      SerialiseFlattens(fields[1..]);
    }
  }

  lemma {:induction false} SerialisedSizes(fields: seq<Field>, i: nat)
    requires i < |fields|
    ensures |fields[i].bytes| <= |Serialise(fields)| || fields[i].wireType == 0
    decreases |fields|
  {
    if i > 0 { SerialisedSizes(fields[1..], i - 1); }
  }

  // ----- Splitting and joining -----

  function Flatten(pieces: seq<Bytes>): Bytes {
    if pieces == [] then [] else pieces[0] + Flatten(pieces[1..])
  }

  predicate IsPiece(piece: Bytes, field: Field) { ReadField(piece) == Ok(Step(field, |piece|)) }

  /** `pieces` are the encodings of `fields`, one each. */
  predicate Encode(pieces: seq<Bytes>, fields: seq<Field>) {
    |pieces| == |fields| && forall i :: 0 <= i < |pieces| ==> IsPiece(pieces[i], fields[i])
  }

  lemma EncodeMore(piece: Bytes, field: Field, pieces: seq<Bytes>, fields: seq<Field>)
    requires IsPiece(piece, field) && Encode(pieces, fields)
    ensures Encode([piece] + pieces, [field] + fields)
    ensures Flatten([piece] + pieces) == piece + Flatten(pieces)
  {
    assert ([piece] + pieces)[1..] == pieces;
  }

  lemma FirstPiece(data: Bytes)
    requires ReadField(data).Ok?
    ensures var n := ReadField(data).value.used; 2 <= n <= |data| && IsPiece(data[..n], ReadField(data).value.field)
  {
    FieldBounds(data);
    FieldIsLocal(data, data[..ReadField(data).value.used]);
  }

  lemma {:induction false} ParsedFieldsFill(data: Bytes, count: nat) returns (pieces: seq<Bytes>)
    requires ParseFrom(data, count).Ok?
    ensures Encode(pieces, ParseFrom(data, count).value) && Flatten(pieces) == data
    ensures 2 * |pieces| <= |data| && (data != [] ==> count + |pieces| <= MAX_FIELDS)
    decreases |data|
  {
    hide Flatten, IsPiece, Encode, ReadField;
    if data == [] {
      pieces := [];
      NoPieces();
    } else {
      FirstPiece(data);
      var n := ReadField(data).value.used;
      var rest := ParsedFieldsFill(data[n..], count + 1);
      pieces := [data[..n]] + rest;
      EncodeMore(data[..n], ReadField(data).value.field, rest, ParseFrom(data[n..], count + 1).value);
      assert data[..n] + data[n..] == data;
      EncodeSize(rest, ParseFrom(data[n..], count + 1).value);
      EncodeSize(pieces, ParseFrom(data, count).value);
    }
  }

  lemma NoPieces()
    ensures Encode([], []) && Flatten([]) == []
  {}

  lemma EncodeSize(pieces: seq<Bytes>, fields: seq<Field>)
    requires Encode(pieces, fields)
    ensures |pieces| == |fields|
  {}

  /** Accepted input is nothing but encodings of its fields, back to back, and there is at most one
      field for every two bytes. */
  lemma AcceptedInputIsItsFields(data: Bytes) returns (pieces: seq<Bytes>)
    requires ParseProtoWire(data).Ok?
    ensures Encode(pieces, ParseProtoWire(data).value) && Flatten(pieces) == data
    ensures |pieces| <= |data| / 2 && |pieces| <= MAX_FIELDS
    ensures forall i :: 0 <= i < |pieces| ==> WellFormed(ParseProtoWire(data).value[i])
  {
    pieces := ParsedFieldsFill(data, 0);
    var fields := ParseProtoWire(data).value;
    forall i | 0 <= i < |pieces| ensures WellFormed(fields[i]) {
      assert IsPiece(pieces[i], fields[i]);
      FieldBounds(pieces[i]);
    }
  }

  /** And conversely, anything that is the encodings of some fields, back to back, is accepted as
      those fields: the parser accepts exactly this language. */
  lemma {:induction false} EncodingsParse(pieces: seq<Bytes>, fields: seq<Field>, count: nat)
    requires Encode(pieces, fields) && count + |pieces| <= MAX_FIELDS
    ensures ParseFrom(Flatten(pieces), count) == Ok(fields)
    decreases |pieces|
  {
    hide ReadField, IsPiece;
    if pieces != [] {
      FirstIsRead(pieces, fields);
      assert forall i :: 0 <= i < |pieces[1..]| ==> IsPiece(pieces[1..][i], fields[1..][i]);
      EncodingsParse(pieces[1..], fields[1..], count + 1);
      assert [fields[0]] + fields[1..] == fields;
    }
  }

  lemma FirstIsRead(pieces: seq<Bytes>, fields: seq<Field>)
    requires pieces != [] && Encode(pieces, fields)
    ensures var data := Flatten(pieces);
            && 2 <= |pieces[0]| <= |data| && ReadField(data) == Ok(Step(fields[0], |pieces[0]|))
            && data[|pieces[0]|..] == Flatten(pieces[1..])
  {
    hide ReadField;
    var data, piece := Flatten(pieces), pieces[0];
    assert IsPiece(piece, fields[0]);
    FieldBounds(piece);
    assert data == piece + Flatten(pieces[1..]);
    assert data[..|piece|] == piece && piece[..|piece|] == piece;
    FieldIsLocal(piece, data);
  }

  /** Parsing inverts serialising, for every list of well-formed fields within the limits. */
  lemma ParseInvertsSerialise(fields: seq<Field>)
    requires forall i :: 0 <= i < |fields| ==> WellFormed(fields[i])
    requires |Serialise(fields)| <= MAX_DATA && |fields| <= MAX_FIELDS
    ensures ParseProtoWire(Serialise(fields)) == Ok(fields)
  {
    forall i | 0 <= i < |fields| ensures IsPiece(Encodings(fields)[i], fields[i]) {
      SerialisedSizes(fields, i);
      FieldRoundTrip(fields[i], []);
      assert SerialiseField(fields[i]) + [] == SerialiseField(fields[i]);
    }
    SerialiseFlattens(fields);
    EncodingsParse(Encodings(fields), fields, 0);
  }

  /** Puts fields already read before what the rest of the data yields. */
  function After(fields: seq<Field>, rest: Result<seq<Field>, WireError>): Result<seq<Field>, WireError> {
    match rest
    case Err(e) => Err(e)
    case Ok(more) => Ok(fields + more)
  }

  /** One step of the parser. */
  lemma ParseStep(data: Bytes, count: nat)
    requires data != [] && ReadField(data).Ok? && count + 1 <= MAX_FIELDS
    ensures 2 <= ReadField(data).value.used <= |data|
    ensures ParseFrom(data, count) ==
            After([ReadField(data).value.field], ParseFrom(data[ReadField(data).value.used..], count + 1))
  {
    FieldBounds(data);
  }

  lemma AfterAfter(a: seq<Field>, b: seq<Field>, rest: Result<seq<Field>, WireError>)
    ensures After(a, After(b, rest)) == After(a + b, rest)
  {
    if rest.Ok? { assert a + (b + rest.value) == (a + b) + rest.value; }
  }

  lemma {:induction false} ParseJoined(a: Bytes, b: Bytes, count: nat)
    requires ParseFrom(a, count).Ok?
    ensures ParseFrom(a + b, count) ==
            After(ParseFrom(a, count).value, ParseFrom(b, count + |ParseFrom(a, count).value|))
    decreases |a|
  {
    hide ReadField, After;
    if a == [] {
      assert a + b == b;
      NothingBefore(ParseFrom(b, count));
    } else {
      ParseStep(a, count);
      var n, f := ReadField(a).value.used, ReadField(a).value.field;
      var more := ParseFrom(a[n..], count + 1).value;
      assert (a + b)[..n] == a[..n];
      FieldIsLocal(a, a + b);
      assert (a + b)[n..] == a[n..] + b;
      ParseStep(a + b, count);
      ParseJoined(a[n..], b, count + 1);
      AfterAfter([f], more, ParseFrom(b, count + 1 + |more|));
    }
  }

  lemma NothingBefore(rest: Result<seq<Field>, WireError>)
    ensures After([], rest) == rest
  {
    if rest.Ok? { assert [] + rest.value == rest.value; }
  }

  /** How many fields came before only matters for the limit. */
  lemma {:induction false} CountOnlyLimits(data: Bytes, count: nat, other: nat)
    requires ParseFrom(data, count).Ok? && (data != [] ==> other + |ParseFrom(data, count).value| <= MAX_FIELDS)
    ensures ParseFrom(data, other) == ParseFrom(data, count)
    decreases |data|
  {
    if data != [] {
      FieldBounds(data);
      CountOnlyLimits(data[ReadField(data).value.used..], count + 1, other + 1);
    }
  }

  /** The concatenation law: after a first part that parses, the whole parses exactly if the
      second part does, and the fields are those of the two parts in order. */
  lemma ParseOfConcatenation(a: Bytes, b: Bytes)
    requires ParseProtoWire(a).Ok? && |a + b| <= MAX_DATA
    requires ParseProtoWire(b).Ok? ==> |ParseProtoWire(a).value| + |ParseProtoWire(b).value| <= MAX_FIELDS
    ensures ParseProtoWire(a + b).Ok? <==> ParseProtoWire(b).Ok?
    ensures ParseProtoWire(b).Ok? ==>
              ParseProtoWire(a + b) == Ok(ParseProtoWire(a).value + ParseProtoWire(b).value)
  {
    hide ParseFrom;
    ParseJoined(a, b, 0);
    var n := |ParseProtoWire(a).value|;
    if ParseProtoWire(b).Ok? {
      CountOnlyLimits(b, 0, n);
    } else if ParseFrom(b, n).Ok? {
      var pieces := ParsedFieldsFill(b, n);
      EncodeSize(pieces, ParseFrom(b, n).value);
      CountOnlyLimits(b, n, 0);
    }
  }

  // ----- The parser as it is written -----

  /** 128 to the power `index`: a shift left by 7 * index. */
  function Shift(index: nat): nat { if index == 0 then 1 else 128 * Shift(index - 1) }

  lemma Accumulate(shift: nat, value: nat, digit: nat, rest: nat)
    ensures value + shift * (digit + 128 * rest) == (value + digit * shift) + (128 * shift) * rest
  {}

  /** What the whole varint is, once `index` bytes have been added up to `value`. */
  function Accumulated(value: nat, index: nat, rest: Result<Varint, WireError>): Result<Varint, WireError> {
    match rest
    case Err(e) => Err(e)
    case Ok(v) => Ok(Varint(value + Shift(index) * v.value, index + v.used))
  }

  lemma NothingAccumulated(r: Result<Varint, WireError>)
    ensures Accumulated(0, 0, r) == r
  {}

  lemma ReadEnds(value: nat, index: nat, rest: Bytes)
    requires rest == [] || index >= 10
    ensures Accumulated(value, index, ReadVarint(rest, index)) == Err(UnexpectedEof)
  {}

  /** The loop body: one more byte is added, or the varint ends here. */
  lemma ReadStep(data: Bytes, value: nat, index: nat)
    requires index < |data| && index < 10
    ensures var c := data[index]; var next := value + (c % 128) * Shift(index);
            Accumulated(value, index, ReadVarint(data[index..], index)) ==
              if index == 9 && c > 1 then Err(VarintOverflow)
              else if c < 128 then Ok(Varint(next, index + 1))
              else Accumulated(next, index + 1, ReadVarint(data[index + 1..], index + 1))
  {
    var rest := data[index..];
    assert rest[0] == data[index] && rest[1..] == data[index + 1..];
    AddByte(rest, ReadVarint(rest[1..], index + 1), value, index);
  }

  lemma AddByte(rest: Bytes, tail: Result<Varint, WireError>, value: nat, index: nat)
    requires rest != [] && index < 10 && tail == ReadVarint(rest[1..], index + 1)
    ensures var c := rest[0]; var next := value + (c % 128) * Shift(index);
            Accumulated(value, index, ReadVarint(rest, index)) ==
              if index == 9 && c > 1 then Err(VarintOverflow)
              else if c < 128 then Ok(Varint(next, index + 1))
              else Accumulated(next, index + 1, tail)
  {
    var c := rest[0];
    if c >= 128 && tail.Ok? {
      Accumulate(Shift(index), value, c % 128, tail.value.value);
      assert c % 128 == c - 128;
    } else if c < 128 {
      assert Shift(index) * c == c * Shift(index);
    }
  }

  method ReadProtoVarint(data: Bytes) returns (r: Result<Varint, WireError>)
    ensures r == ReadVarint(data, 0)
    ensures r.Ok? ==> r.value.value < TWO_64 && 1 <= r.value.used <= 10 && r.value.used <= |data|
  {
    hide Accumulated, ReadVarint, Shift;
    if ReadVarint(data, 0).Ok? { DecodedVarintsFit(data); }
    var value: nat := 0;
    var index := 0;
    assert data[0..] == data;
    NothingAccumulated(ReadVarint(data, 0));
    while index < |data| && index < 10
      invariant index <= |data| && index <= 10
      invariant ReadVarint(data, 0) == Accumulated(value, index, ReadVarint(data[index..], index))
    {
      var current := data[index];
      ReadStep(data, value, index);
      if index == 9 && current > 1 { return Err(VarintOverflow); }
      value := value + (current % 128) * Shift(index);
      if current < 128 { return Ok(Varint(value, index + 1)); }
      index := index + 1;
    }
    ReadEnds(value, index, data[index..]);
    return Err(UnexpectedEof);
  }

  method ParseProtoWireLoop(data: Bytes) returns (r: Result<seq<Field>, WireError>)
    ensures r == ParseProtoWire(data)
  {
    hide ReadField, After;
    if |data| > MAX_DATA { return Err(TooLarge); }
    var fields: seq<Field> := [];
    var offset := 0;
    assert data[0..] == data;
    NothingBefore(ParseFrom(data, 0));
    while offset < |data|
      invariant offset <= |data|
      invariant ParseFrom(data, 0) == After(fields, ParseFrom(data[offset..], |fields|))
      decreases |data| - offset
    {
      var step := ReadProtoField(data, offset);
      AfterFails(fields, data[offset..]);
      if step.Err? { return Err(step.error); }
      if |fields| + 1 > MAX_FIELDS { return Err(TooManyFields); }
      ParseStep(data[offset..], |fields|);
      var next := offset + step.value.used;
      assert data[offset..][step.value.used..] == data[next..];
      AfterAfter(fields, [step.value.field], ParseFrom(data[next..], |fields| + 1));
      offset, fields := next, fields + [step.value.field];
    }
    AfterEnds(fields, data[offset..]);
    return Ok(fields);
  }

  lemma AfterEnds(fields: seq<Field>, rest: Bytes)
    requires rest == []
    ensures After(fields, ParseFrom(rest, |fields|)) == Ok(fields)
  {
    assert fields + [] == fields;
  }

  lemma AfterFails(fields: seq<Field>, rest: Bytes)
    requires rest != []
    ensures ReadField(rest).Err? ==> After(fields, ParseFrom(rest, |fields|)) == Err(ReadField(rest).error)
    ensures ReadField(rest).Ok? && |fields| + 1 > MAX_FIELDS ==>
              After(fields, ParseFrom(rest, |fields|)) == Err(TooManyFields)
  {}

  /** One turn of the loop: the key, then the payload. */
  method ReadProtoField(data: Bytes, offset: nat) returns (r: Result<Step, WireError>)
    requires offset < |data|
    ensures r == ReadField(data[offset..])
  {
    var key := ReadProtoVarint(data[offset..]);
    if key.Err? { return Err(key.error); }
    var number, wireType := key.value.value / 8, key.value.value % 8;
    if number == 0 { return Err(BadFieldNumber); }
    assert data[offset..][key.value.used..] == data[offset + key.value.used..];
    r := ReadProtoPayload(number, wireType, data, offset + key.value.used, key.value.used);
  }

  /** The switch on the wire type, at an offset into the data. */
  method ReadProtoPayload(number: nat, wireType: nat, data: Bytes, offset: nat, used: nat)
    returns (r: Result<Step, WireError>)
    requires offset <= |data|
    ensures r == ReadPayload(number, wireType, used, data[offset..])
  {
    if wireType == 0 {
      var v := ReadProtoVarint(data[offset..]);
      if v.Err? { return Err(v.error); }
      return Ok(Step(Field(number, wireType, v.value.value, []), used + v.value.used));
    } else if wireType == 1 {
      if offset + 8 > |data| { return Err(UnexpectedEof); }
      assert data[offset..][..8] == data[offset..offset + 8];
      return Ok(Step(Field(number, wireType, 0, data[offset..offset + 8]), used + 8));
    } else if wireType == 2 {
      var length := ReadProtoVarint(data[offset..]);
      if length.Err? { return Err(length.error); }
      var at := offset + length.value.used;
      if length.value.value > |data| - at { return Err(UnexpectedEof); }
      assert data[offset..][length.value.used..length.value.used + length.value.value] == data[at..at + length.value.value];
      return Ok(Step(Field(number, wireType, 0, data[at..at + length.value.value]),
                     used + length.value.used + length.value.value));
    } else if wireType == 5 {
      if offset + 4 > |data| { return Err(UnexpectedEof); }
      assert data[offset..][..4] == data[offset..offset + 4];
      return Ok(Step(Field(number, wireType, 0, data[offset..offset + 4]), used + 4));
    } else {
      return Err(BadWireType);
    }
  }
}
