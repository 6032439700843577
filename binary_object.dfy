/** A binary object: a view `(arr, start)` onto an encoded object inside a
    byte array, with O(1) reads of its header and of a field by ordinal.

    Header layout (offsets from `start`): flags at 2 (2 bytes), type id at 4,
    hash code at 8, total length at 12, schema id at 16, schema (footer)
    offset at 20, all 4-byte ints; the header is 24 bytes long. The footer
    holds one slot per field: a 4-byte field id (absent in a compact footer)
    followed by the field's offset from `start`, 1, 2 or 4 bytes wide as the
    flags say. A field starts with a one-byte type tag. */
module BinaryObjects {
  import opened Common
  import opened BinaryPrimitives
  import opened DirectMessage

  // Header positions.
  const FLAGS_POS := 2
  const TYPE_ID_POS := 4
  const HASH_CODE_POS := 8
  const TOTAL_LEN_POS := 12
  const SCHEMA_ID_POS := 16
  const SCHEMA_OR_RAW_OFF_POS := 20
  const DFLT_HDR_LEN := 24

  // Footer layout.
  const FIELD_ID_LEN := 4
  const OFFSET_1 := 1
  const OFFSET_2 := 2
  const OFFSET_4 := 4
  const FLAG_OFFSET_ONE_BYTE: bv16 := 0x0008
  const FLAG_OFFSET_TWO_BYTES: bv16 := 0x0010
  const FLAG_COMPACT_FOOTER: bv16 := 0x0020

  // Type tags of the fields that have a fixed layout.
  const TAG_BYTE := 1
  const TAG_SHORT := 2
  const TAG_INT := 3
  const TAG_LONG := 4
  const TAG_FLOAT := 5
  const TAG_DOUBLE := 6
  const TAG_CHAR := 7
  const TAG_BOOLEAN := 8
  const TAG_STRING := 9
  const TAG_UUID := 10
  const TAG_DATE := 11
  const TAG_DECIMAL := 30
  const TAG_TIMESTAMP := 33
  const TAG_NULL := 101

  // Direct message identity of a binary object. The header announces three
  // fields although `writeTo` writes and `readFrom` reads only two (the
  // array and the start); the count is carried as the header declares it.
  const DIRECT_TYPE := 113
  const FIELDS_COUNT := 3

  // -----------------------------------------------------------------------
  // Header reads

  /** The 24-byte header at `start` lies inside the array. */
  predicate HeaderFits(a: seq<Byte>, start: int)
  {
    0 <= start && start + DFLT_HDR_LEN <= |a|
  }

  function TotalLength(a: seq<Byte>, start: int): (r: int)
    requires HeaderFits(a, start)
    ensures IsInt(r)
  {
    Pow256Values();
    ReadInt(a, start + TOTAL_LEN_POS)
  }

  function TypeId(a: seq<Byte>, start: int): (r: int)
    requires HeaderFits(a, start)
    ensures IsInt(r)
  {
    Pow256Values();
    ReadInt(a, start + TYPE_ID_POS)
  }

  function HashCode(a: seq<Byte>, start: int): (r: int)
    requires HeaderFits(a, start)
    ensures IsInt(r)
  {
    Pow256Values();
    ReadInt(a, start + HASH_CODE_POS)
  }

  function SchemaId(a: seq<Byte>, start: int): (r: int)
    requires HeaderFits(a, start)
    ensures IsInt(r)
  {
    Pow256Values();
    ReadInt(a, start + SCHEMA_ID_POS)
  }

  function SchemaOffset(a: seq<Byte>, start: int): (r: int)
    requires HeaderFits(a, start)
    ensures IsInt(r)
  {
    Pow256Values();
    ReadInt(a, start + SCHEMA_OR_RAW_OFF_POS)
  }

  /** The 16 flag bits (Java reads them as a signed short; the bit tests
      only look at the low bits, which are the same). */
  function Flags(a: seq<Byte>, start: int): (f: bv16)
    requires HeaderFits(a, start)
  {
    Pow256Values();
    ReadUnsigned(a, start + FLAGS_POS, 2) as bv16
  }

  /** An object whose header is readable and whose declared length covers
      the header and lies inside the array (a Java array is at most INT_MAX long). */
  predicate WellFormed(a: seq<Byte>, start: int)
  {
    && |a| <= INT_MAX
    && HeaderFits(a, start)
    && DFLT_HDR_LEN <= TotalLength(a, start)
    && start + TotalLength(a, start) <= |a|
  }

  /** The bytes the object `(a, start)` addresses. */
  function ObjectBytes(a: seq<Byte>, start: int): (r: seq<Byte>)
    requires WellFormed(a, start)
    ensures |r| == TotalLength(a, start)
  {
    a[start..start + TotalLength(a, start)]
  }

  /** `detached()`: the object starts the array and spans all of it. */
  predicate IsDetached(a: seq<Byte>, start: int)
    requires HeaderFits(a, start)
    ensures IsDetached(a, start) && WellFormed(a, start) ==> ObjectBytes(a, start) == a
  {
    start == 0 && TotalLength(a, start) == |a|
  }

  /** Copying an object's bytes into an array of their own gives an object
      at start 0 with the same header, that spans its whole array: a
      detached object addressing the same bytes. */
  lemma CopyIsDetached(a: seq<Byte>, start: int)
    requires WellFormed(a, start)
    ensures var b := ObjectBytes(a, start);
      && WellFormed(b, 0)
      && IsDetached(b, 0)
      && ObjectBytes(b, 0) == b
      && TypeId(b, 0) == TypeId(a, start)
      && HashCode(b, 0) == HashCode(a, start)
      && SchemaId(b, 0) == SchemaId(a, start)
      && Flags(b, 0) == Flags(a, start)
      && SchemaOffset(b, 0) == SchemaOffset(a, start)
  {
    var b := ObjectBytes(a, start);
    var len := TotalLength(a, start);
    SliceOfSlice(a, start, start + len, TOTAL_LEN_POS, TOTAL_LEN_POS + 4);
    SliceOfSlice(a, start, start + len, TYPE_ID_POS, TYPE_ID_POS + 4);
    SliceOfSlice(a, start, start + len, HASH_CODE_POS, HASH_CODE_POS + 4);
    SliceOfSlice(a, start, start + len, SCHEMA_ID_POS, SCHEMA_ID_POS + 4);
    SliceOfSlice(a, start, start + len, FLAGS_POS, FLAGS_POS + 2);
    SliceOfSlice(a, start, start + len, SCHEMA_OR_RAW_OFF_POS, SCHEMA_OR_RAW_OFF_POS + 4);
    assert b[TOTAL_LEN_POS..TOTAL_LEN_POS + 4] == a[start + TOTAL_LEN_POS..start + TOTAL_LEN_POS + 4];
    assert b[TYPE_ID_POS..TYPE_ID_POS + 4] == a[start + TYPE_ID_POS..start + TYPE_ID_POS + 4];
    assert b[HASH_CODE_POS..HASH_CODE_POS + 4] == a[start + HASH_CODE_POS..start + HASH_CODE_POS + 4];
    assert b[SCHEMA_ID_POS..SCHEMA_ID_POS + 4] == a[start + SCHEMA_ID_POS..start + SCHEMA_ID_POS + 4];
    assert b[FLAGS_POS..FLAGS_POS + 2] == a[start + FLAGS_POS..start + FLAGS_POS + 2];
    assert b[SCHEMA_OR_RAW_OFF_POS..SCHEMA_OR_RAW_OFF_POS + 4]
        == a[start + SCHEMA_OR_RAW_OFF_POS..start + SCHEMA_OR_RAW_OFF_POS + 4];
  }

  // -----------------------------------------------------------------------
  // Field lookup by ordinal

  /** The value `fieldByOrder` hands back. Floats and doubles are kept as
      their raw bits; a string as its UTF-8 bytes; a timestamp as the raw
      (millis, nanos) pair; a decimal as the sign its scale carried, the
      bytes of its unscaled magnitude and the scale with the sign bit
      cleared. Any other tag is handed to the full decoder at `pos`. */
  datatype FieldValue =
    | IntField(i: int)
    | LongField(l: int)
    | BooleanField(flag: bool)
    | ShortField(s: int)
    | ByteField(byteVal: int)
    | CharField(c: int)
    | FloatBits(fbits: int)
    | DoubleBits(dbits: int)
    | StringField(utf8: seq<Byte>)
    | DateField(millis: int)
    | TimestampField(tsMillis: int, nanos: int)
    | UuidField(most: int, least: int)
    | DecimalField(negated: bool, magnitude: seq<Byte>, scale: int)
    | NullField
    | Unmarshalled(pos: int)

  /** Why a lookup fails: a read outside the array (which the source does
      without a bounds check; the model reports it instead) or a decimal with no magnitude bytes (which
      `new BigInteger` rejects). */
  datatype Fault = OutOfBounds | EmptyMagnitude

  datatype Lookup = Found(value: FieldValue) | Failed(fault: Fault)

  function IsCompactFooter(flags: bv16): bool
  {
    flags & FLAG_COMPACT_FOOTER == FLAG_COMPACT_FOOTER
  }

  /** Width of a footer offset: 1 or 2 bytes when the flag says so, else 4. */
  function FieldOffsetLength(flags: bv16): (w: nat)
    ensures w == OFFSET_1 || w == OFFSET_2 || w == OFFSET_4
  {
    if flags & FLAG_OFFSET_ONE_BYTE == FLAG_OFFSET_ONE_BYTE then OFFSET_1
    else if flags & FLAG_OFFSET_TWO_BYTES == FLAG_OFFSET_TWO_BYTES then OFFSET_2
    else OFFSET_4
  }

  function FieldIdLength(flags: bv16): nat
  {
    if IsCompactFooter(flags) then 0 else FIELD_ID_LEN
  }

  /** Position of field `order`'s offset slot, in Java `int` arithmetic. */
  function FieldOffsetPos(a: seq<Byte>, start: int, order: int): (p: int)
    requires HeaderFits(a, start)
    ensures IsInt(p)
  {
    var flags := Flags(a, start);
    var idLen := FieldIdLength(flags);
    Wrap32(start + SchemaOffset(a, start) + order * (idLen + FieldOffsetLength(flags)) + idLen)
  }

  /** Position of field `order`: its footer offset (1 and 2 bytes read
      unsigned, 4 bytes read as an int) plus `start`. */
  function FieldPos(a: seq<Byte>, start: int, order: int): (r: Option<int>)
    requires HeaderFits(a, start)
    ensures r.None? <==> !InRange(a, FieldOffsetPos(a, start, order), FieldOffsetLength(Flags(a, start)))
    ensures r.Some? ==> IsInt(r.value)
    ensures r.Some? && FieldOffsetLength(Flags(a, start)) != OFFSET_4 && start + 0x1_0000 <= INT_MAX
            ==> start <= r.value < start + 0x1_0000
  {
    Pow256Values();
    var slot := FieldOffsetPos(a, start, order);
    var w := FieldOffsetLength(Flags(a, start));
    if !InRange(a, slot, w) then None
    else if w == OFFSET_1 then Some(Wrap32(start + ReadUnsigned(a, slot, 1)))
    else if w == OFFSET_2 then Some(Wrap32(start + ReadUnsigned(a, slot, 2)))
    else Some(Wrap32(start + ReadInt(a, slot)))
  }

  /** `scale & 0x7FFFFFFF`: the scale's 32 bits with bit 31 cleared. */
  function ClearSignBit(scale: int): (r: int)
    requires IsInt(scale)
    ensures 0 <= r <= INT_MAX
    ensures scale < 0 ==> r == scale - INT_MIN
    ensures scale >= 0 ==> r == scale
  {
    Pow256Values();
    TwosComplement(scale, 4) % 0x8000_0000
  }

  /** Decoding the field whose tag byte is at pos, by the fixed table of layouts. */
  function DecodeField(a: seq<Byte>, pos: int): (r: Lookup)
    ensures r.Found? ==> InRange(a, pos, 1)
    ensures r.Found? && r.value.Unmarshalled? ==> r.value.pos == pos
  {
    if !InRange(a, pos, 1) then Failed(OutOfBounds)
    else
      var tag := ReadByte(a, pos);
      if tag == TAG_INT then
        if InRange(a, pos + 1, 4) then Found(IntField(ReadInt(a, pos + 1))) else Failed(OutOfBounds)
      else if tag == TAG_LONG then
        if InRange(a, pos + 1, 8) then Found(LongField(ReadLong(a, pos + 1))) else Failed(OutOfBounds)
      else if tag == TAG_BOOLEAN then
        if InRange(a, pos + 1, 1) then Found(BooleanField(ReadBoolean(a, pos + 1))) else Failed(OutOfBounds)
      else if tag == TAG_SHORT then
        if InRange(a, pos + 1, 2) then Found(ShortField(ReadShort(a, pos + 1))) else Failed(OutOfBounds)
      else if tag == TAG_BYTE then
        if InRange(a, pos + 1, 1) then Found(ByteField(ReadByte(a, pos + 1))) else Failed(OutOfBounds)
      else if tag == TAG_CHAR then
        if InRange(a, pos + 1, 2) then Found(CharField(ReadChar(a, pos + 1))) else Failed(OutOfBounds)
      else if tag == TAG_FLOAT then
        if InRange(a, pos + 1, 4) then Found(FloatBits(ReadInt(a, pos + 1))) else Failed(OutOfBounds)
      else if tag == TAG_DOUBLE then
        if InRange(a, pos + 1, 8) then Found(DoubleBits(ReadLong(a, pos + 1))) else Failed(OutOfBounds)
      else if tag == TAG_STRING then
        if !InRange(a, pos + 1, 4) then Failed(OutOfBounds)
        else
          var dataLen := ReadInt(a, pos + 1);
          if dataLen < 0 || !InRange(a, pos + 5, dataLen) then Failed(OutOfBounds)
          else Found(StringField(a[pos + 5..pos + 5 + dataLen]))
      else if tag == TAG_DATE then
        if InRange(a, pos + 1, 8) then Found(DateField(ReadLong(a, pos + 1))) else Failed(OutOfBounds)
      else if tag == TAG_TIMESTAMP then
        if InRange(a, pos + 1, 12) then Found(TimestampField(ReadLong(a, pos + 1), ReadInt(a, pos + 9)))
        else Failed(OutOfBounds)
      else if tag == TAG_UUID then
        if InRange(a, pos + 1, 16) then Found(UuidField(ReadLong(a, pos + 1), ReadLong(a, pos + 9)))
        else Failed(OutOfBounds)
      else if tag == TAG_DECIMAL then
        if !InRange(a, pos + 1, 8) then Failed(OutOfBounds)
        else
          var scale := ReadInt(a, pos + 1);
          var dataLen := ReadInt(a, pos + 5);
          if dataLen < 0 || !InRange(a, pos + 9, dataLen) then Failed(OutOfBounds)
          else if dataLen == 0 then Failed(EmptyMagnitude)
          else
            var data := a[pos + 9..pos + 9 + dataLen];
            Pow256Values();
            if scale < 0 then Found(DecimalField(true, data, ClearSignBit(scale)))
            else Found(DecimalField(false, data, scale))
      else if tag == TAG_NULL then Found(NullField)
      else Found(Unmarshalled(pos))
  }

  /** `fieldByOrder(order)`: what it hands back is a value the fixed
      layouts can encode, or a position for the full decoder. */
  function FieldByOrder(a: seq<Byte>, start: int, order: int): (r: Lookup)
    requires HeaderFits(a, start)
    ensures r.Found? ==> FieldPos(a, start, order).Some?
    ensures r.Found? ==> Encodable(r.value) || r.value.Unmarshalled?
  {
    match FieldPos(a, start, order)
    case None => Failed(OutOfBounds)
    case Some(pos) => DecodedIsEncodable(a, pos); DecodeField(a, pos)
  }

  // -----------------------------------------------------------------------
  // The writer's side of the fixed layouts, the partner of DecodeField.

  predicate Encodable(v: FieldValue)
  {
    match v
    case IntField(i) => IsInt(i)
    case LongField(l) => IsLong(l)
    case BooleanField(_) => true
    case ShortField(s) => -0x8000 <= s < 0x8000
    case ByteField(b) => -0x80 <= b < 0x80
    case CharField(c) => 0 <= c < 0x1_0000
    case FloatBits(f) => IsInt(f)
    case DoubleBits(d) => IsLong(d)
    case StringField(u) => |u| <= INT_MAX
    case DateField(m) => IsLong(m)
    case TimestampField(m, n) => IsLong(m) && IsInt(n)
    case UuidField(hi, lo) => IsLong(hi) && IsLong(lo)
    case DecimalField(_, mag, scale) => 0 < |mag| <= INT_MAX && 0 <= scale <= INT_MAX
    case NullField => true
    case Unmarshalled(_) => false
  }

  function EncodeInt(x: int): (r: seq<Byte>)
    requires IsInt(x)
    ensures |r| == 4
  {
    Pow256Values();
    EncodeSigned(x, 4)
  }

  function EncodeLong(x: int): (r: seq<Byte>)
    requires IsLong(x)
    ensures |r| == 8
  {
    Pow256Values();
    EncodeSigned(x, 8)
  }

  /** A field's bytes: its tag, then its fixed layout. A negative decimal
      carries its sign in bit 31 of the stored scale. */
  function EncodeField(v: FieldValue): (r: seq<Byte>)
    requires Encodable(v)
    ensures |r| >= 1
  {
    Pow256Values();
    match v
    case IntField(i) => [TAG_INT] + EncodeInt(i)
    case LongField(l) => [TAG_LONG] + EncodeLong(l)
    case BooleanField(b) => [TAG_BOOLEAN] + [if b then 1 else 0]
    case ShortField(s) => [TAG_SHORT] + EncodeSigned(s, 2)
    case ByteField(b) => [TAG_BYTE] + EncodeSigned(b, 1)
    case CharField(c) => [TAG_CHAR] + LittleEndian(c, 2)
    case FloatBits(f) => [TAG_FLOAT] + EncodeInt(f)
    case DoubleBits(d) => [TAG_DOUBLE] + EncodeLong(d)
    case StringField(u) => [TAG_STRING] + EncodeInt(|u|) + u
    case DateField(m) => [TAG_DATE] + EncodeLong(m)
    case TimestampField(m, n) => [TAG_TIMESTAMP] + EncodeLong(m) + EncodeInt(n)
    case UuidField(hi, lo) => [TAG_UUID] + EncodeLong(hi) + EncodeLong(lo)
    case DecimalField(neg, mag, scale) =>
      [TAG_DECIMAL] + EncodeInt(if neg then scale + INT_MIN else scale) + EncodeInt(|mag|) + mag
    case NullField => [TAG_NULL]
  }

  /** The tag byte of an encoded field reads back as its tag. */
  lemma TagStored(a: seq<Byte>, pos: int, tag: int)
    requires 0 < tag < 0x80 && InRange(a, pos, 1) && a[pos] == tag
    ensures ReadByte(a, pos) == tag
  {
    Pow256Values();
    assert a[pos..pos + 1] == LittleEndian(tag, 1);
    ReadUnsignedStored(a, pos, tag, 1);
  }

  /** Decoding a field at the position where it was encoded gives it back:
      every fixed layout round-trips, including a negative decimal (its sign
      in bit 31 of the stored scale). */
  lemma DecodeEncodedField(a: seq<Byte>, pos: int, v: FieldValue)
    requires Encodable(v)
    requires InRange(a, pos, |EncodeField(v)|)
    requires a[pos..pos + |EncodeField(v)|] == EncodeField(v)
    ensures DecodeField(a, pos) == Found(v)
  {
    var e := EncodeField(v);
    assert a[pos] == e[0];
    TagStored(a, pos, e[0]);
    if v.IntField? || v.LongField? || v.BooleanField? || v.ShortField? {
      DecodeEncodedWide(a, pos, v);
    } else if v.ByteField? || v.CharField? || v.FloatBits? || v.DoubleBits? {
      DecodeEncodedNarrow(a, pos, v);
    } else if v.StringField? || v.DateField? || v.TimestampField? || v.UuidField? {
      DecodeEncodedComposite(a, pos, v);
    } else {
      DecodeEncodedDecimal(a, pos, v);
    }
  }

  lemma DecodeEncodedWide(a: seq<Byte>, pos: int, v: FieldValue)
    requires v.IntField? || v.LongField? || v.BooleanField? || v.ShortField?
    requires Encodable(v)
    requires InRange(a, pos, |EncodeField(v)|)
    requires a[pos..pos + |EncodeField(v)|] == EncodeField(v)
    requires ReadByte(a, pos) == EncodeField(v)[0]
    ensures DecodeField(a, pos) == Found(v)
  {
    Pow256Values();
    var e := EncodeField(v);
    match v
    case IntField(i) =>
      StoredWindow(a, pos, e, 1, 5);
      ReadIntStored(a, pos + 1, i);
    case LongField(l) =>
      StoredWindow(a, pos, e, 1, 9);
      ReadLongStored(a, pos + 1, l);
    case BooleanField(b) =>
      assert a[pos + 1] == e[1];
    case ShortField(x) =>
      StoredWindow(a, pos, e, 1, 3);
      ReadSignedStored(a, pos + 1, x, 2);
  }

  lemma DecodeEncodedNarrow(a: seq<Byte>, pos: int, v: FieldValue)
    requires v.ByteField? || v.CharField? || v.FloatBits? || v.DoubleBits?
    requires Encodable(v)
    requires InRange(a, pos, |EncodeField(v)|)
    requires a[pos..pos + |EncodeField(v)|] == EncodeField(v)
    requires ReadByte(a, pos) == EncodeField(v)[0]
    ensures DecodeField(a, pos) == Found(v)
  {
    Pow256Values();
    var e := EncodeField(v);
    match v
    case ByteField(b) =>
      StoredWindow(a, pos, e, 1, 2);
      ReadSignedStored(a, pos + 1, b, 1);
    case CharField(c) =>
      StoredWindow(a, pos, e, 1, 3);
      assert e[1..3] == LittleEndian(c, 2);
      ReadUnsignedStored(a, pos + 1, c, 2);
    case FloatBits(f) =>
      StoredWindow(a, pos, e, 1, 5);
      ReadIntStored(a, pos + 1, f);
    case DoubleBits(d) =>
      StoredWindow(a, pos, e, 1, 9);
      ReadLongStored(a, pos + 1, d);
  }

  lemma DecodeEncodedComposite(a: seq<Byte>, pos: int, v: FieldValue)
    requires v.StringField? || v.DateField? || v.TimestampField? || v.UuidField?
    requires Encodable(v)
    requires InRange(a, pos, |EncodeField(v)|)
    requires a[pos..pos + |EncodeField(v)|] == EncodeField(v)
    requires ReadByte(a, pos) == EncodeField(v)[0]
    ensures DecodeField(a, pos) == Found(v)
  {
    Pow256Values();
    var e := EncodeField(v);
    match v
    case StringField(u) =>
      StoredWindow(a, pos, e, 1, 5);
      ReadIntStored(a, pos + 1, |u|);
      StoredWindow(a, pos, e, 5, |e|);
      assert e[5..] == u;
    case DateField(m) =>
      StoredWindow(a, pos, e, 1, 9);
      ReadLongStored(a, pos + 1, m);
    case TimestampField(m, n) =>
      StoredWindow(a, pos, e, 1, 9);
      ReadLongStored(a, pos + 1, m);
      StoredWindow(a, pos, e, 9, 13);
      ReadIntStored(a, pos + 9, n);
    case UuidField(hi, lo) =>
      StoredWindow(a, pos, e, 1, 9);
      ReadLongStored(a, pos + 1, hi);
      StoredWindow(a, pos, e, 9, 17);
      ReadLongStored(a, pos + 9, lo);
  }

  lemma DecodeEncodedDecimal(a: seq<Byte>, pos: int, v: FieldValue)
    requires v.DecimalField? || v.NullField?
    requires Encodable(v)
    requires InRange(a, pos, |EncodeField(v)|)
    requires a[pos..pos + |EncodeField(v)|] == EncodeField(v)
    requires ReadByte(a, pos) == EncodeField(v)[0]
    ensures DecodeField(a, pos) == Found(v)
  {
    Pow256Values();
    var e := EncodeField(v);
    match v
    case DecimalField(neg, mag, scale) =>
      var stored := if neg then scale + INT_MIN else scale;
      assert e == [TAG_DECIMAL] + EncodeInt(stored) + EncodeInt(|mag|) + mag;
      DecimalPartsStored(a, pos, stored, mag);
    case NullField =>
  }

  /** The stored scale, the magnitude's length and the magnitude of an
      encoded DECIMAL read back as written. */
  lemma DecimalPartsStored(a: seq<Byte>, pos: int, stored: int, mag: seq<Byte>)
    requires IsInt(stored) && |mag| <= INT_MAX
    requires InRange(a, pos, 9 + |mag|)
    requires a[pos..pos + 9 + |mag|] == [TAG_DECIMAL] + EncodeInt(stored) + EncodeInt(|mag|) + mag
    ensures ReadInt(a, pos + 1) == stored && ReadInt(a, pos + 5) == |mag|
    ensures a[pos + 9..pos + 9 + |mag|] == mag
  {
    var e := [TAG_DECIMAL] + EncodeInt(stored) + EncodeInt(|mag|) + mag;
    StoredWindow(a, pos, e, 1, 5);
    assert e[1..5] == EncodeInt(stored);
    ReadIntStored(a, pos + 1, stored);
    StoredWindow(a, pos, e, 5, 9);
    assert e[5..9] == EncodeInt(|mag|);
    ReadIntStored(a, pos + 5, |mag|);
    StoredWindow(a, pos, e, 9, |e|);
    assert e[9..] == mag;
  }

  /** The decimal sign convention: a negative stored scale means the
      magnitude is negated and the scale is the stored one with bit 31
      cleared; a non-negative stored scale is used as is. */
  lemma DecimalSignConvention(a: seq<Byte>, pos: int)
    requires InRange(a, pos, 9) && ReadByte(a, pos) == TAG_DECIMAL
    ensures var stored := ReadInt(a, pos + 1);
      var dataLen := ReadInt(a, pos + 5);
      0 < dataLen && InRange(a, pos + 9, dataLen) ==>
        DecodeField(a, pos) == Found(DecimalField(stored < 0, a[pos + 9..pos + 9 + dataLen],
                                                  if stored < 0 then stored + 0x8000_0000 else stored))
  {
    Pow256Values();
  }

  /** The partner of the encoder, the other way round: every value the tag
      dispatch decodes is one the fixed layouts encode, so in particular a
      decoded DECIMAL never has a negative scale or an empty magnitude. */
  lemma DecodedIsEncodable(a: seq<Byte>, pos: int)
    ensures var r := DecodeField(a, pos);
      r.Found? ==> Encodable(r.value) || r.value.Unmarshalled?
  {
    Pow256Values();
    if InRange(a, pos, 1) {
      var tag := ReadByte(a, pos);
      if tag == TAG_STRING && InRange(a, pos + 1, 4) {
        var dataLen := ReadInt(a, pos + 1);
        assert dataLen <= INT_MAX;
      } else if tag == TAG_DECIMAL && InRange(a, pos + 1, 8) {
        var dataLen := ReadInt(a, pos + 5);
        assert dataLen <= INT_MAX;
      }
    }
  }

  /** The offset slot the footer keeps for field `order`, as the header
      describes the footer: offsets of 1 and 2 bytes are read unsigned, of 4
      bytes as an int, and the field sits at that offset from `start`. */
  lemma FieldPosFromFooter(a: seq<Byte>, start: int, order: nat, off: int)
    requires HeaderFits(a, start) && |a| <= INT_MAX
    requires var flags := Flags(a, start);
      var w := FieldOffsetLength(flags);
      var idLen := FieldIdLength(flags);
      var slot := start + SchemaOffset(a, start) + order * (idLen + w) + idLen;
      && InRange(a, slot, w)
      && 0 <= off && start + off <= INT_MAX
      && (w == OFFSET_4 ==> off <= INT_MAX && a[slot..slot + 4] == EncodeInt(off))
      && (w != OFFSET_4 ==> off < Pow256(w) && a[slot..slot + w] == LittleEndian(off, w))
    ensures FieldPos(a, start, order) == Some(start + off)
  {
    Pow256Values();
    var flags := Flags(a, start);
    var w := FieldOffsetLength(flags);
    var idLen := FieldIdLength(flags);
    var slot := start + SchemaOffset(a, start) + order * (idLen + w) + idLen;
    assert FieldOffsetPos(a, start, order) == slot;
    if w == OFFSET_4 {
      ReadIntStored(a, slot, off);
    } else {
      ReadUnsignedStored(a, slot, off, w);
    }
  }

  /** `fieldByOrder` end to end: when the footer slot of field `order`
      holds offset `off` and a field value is encoded at start + off, the
      lookup returns exactly that value. */
  lemma FieldByOrderFindsEncoded(a: seq<Byte>, start: int, order: nat, off: int, v: FieldValue)
    requires HeaderFits(a, start) && |a| <= INT_MAX
    requires var flags := Flags(a, start);
      var w := FieldOffsetLength(flags);
      var idLen := FieldIdLength(flags);
      var slot := start + SchemaOffset(a, start) + order * (idLen + w) + idLen;
      && InRange(a, slot, w)
      && 0 <= off && start + off <= INT_MAX
      && (w == OFFSET_4 ==> off <= INT_MAX && a[slot..slot + 4] == EncodeInt(off))
      && (w != OFFSET_4 ==> off < Pow256(w) && a[slot..slot + w] == LittleEndian(off, w))
    requires Encodable(v) && InRange(a, start + off, |EncodeField(v)|)
    requires a[start + off..start + off + |EncodeField(v)|] == EncodeField(v)
    ensures FieldByOrder(a, start, order) == Found(v)
  {
    FieldPosFromFooter(a, start, order, off);
    DecodeEncodedField(a, start + off, v);
  }

  // -----------------------------------------------------------------------
  // The object's serialised forms

  /** The two fields `writeTo` sends: when detaching is allowed, only the
      object's own bytes and start 0; otherwise the whole array and the
      original start. */
  function WireFields(a: seq<Byte>, start: int, detachAllowed: bool): (fs: seq<WireValue>)
    requires WellFormed(a, start)
    ensures |fs| == 2
  {
    if detachAllowed then [WBytes(Some(ObjectBytes(a, start))), WInt(0)]
    else [WBytes(Some(a)), WInt(start)]
  }

  /** The field kinds `readFrom` reads, in state order. */
  const ReadKinds: seq<Kind> := [KBytes, KInt]

  /** Whichever form was sent, the receiver's `(arr, start)` addresses
      byte-for-byte the same object bytes and reads the same header. */
  lemma WireFormAddressesSameObject(a: seq<Byte>, start: int, detachAllowed: bool)
    requires WellFormed(a, start)
    ensures var fs := WireFields(a, start, detachAllowed);
      && WellKinded(fs, ReadKinds)
      && WellFormed(fs[0].bytes.value, fs[1].n)
      && ObjectBytes(fs[0].bytes.value, fs[1].n) == ObjectBytes(a, start)
      && TypeId(fs[0].bytes.value, fs[1].n) == TypeId(a, start)
      && HashCode(fs[0].bytes.value, fs[1].n) == HashCode(a, start)
      && (detachAllowed ==> IsDetached(fs[0].bytes.value, fs[1].n))
  {
    if detachAllowed {
      CopyIsDetached(a, start);
    }
  }

  /** Java's `DataOutput.writeInt`: four bytes, most significant first. */
  function IntBigEndian(x: int): (r: seq<Byte>)
    requires IsInt(x)
    ensures |r| == 4
  {
    var le := EncodeInt(x);
    [le[3], le[2], le[1], le[0]]
  }

  /** Java's `DataInput.readInt` at pos. */
  function ReadIntBigEndian(s: seq<Byte>, pos: int): int
    requires InRange(s, pos, 4)
  {
    Pow256Values();
    Signed(Unsigned([s[pos + 3], s[pos + 2], s[pos + 1], s[pos]]), 4)
  }

  lemma ReadIntBigEndianStored(s: seq<Byte>, pos: int, x: int)
    requires IsInt(x) && InRange(s, pos, 4) && s[pos..pos + 4] == IntBigEndian(x)
    ensures ReadIntBigEndian(s, pos) == x
  {
    Pow256Values();
    var le := EncodeInt(x);
    assert [s[pos + 3], s[pos + 2], s[pos + 1], s[pos]] == le;
    ReadSignedStored(le, 0, x, 4);
    assert le[0..4] == le;
  }

  /** `writeExternal`: a length, that many bytes, then a start; when
      detaching is allowed only the object's own bytes go out, with start 0. */
  function ExternalForm(a: seq<Byte>, start: int, detachAllowed: bool): seq<Byte>
    requires WellFormed(a, start)
  {
    if detachAllowed then
      var len := TotalLength(a, start);
      IntBigEndian(len) + a[start..start + len] + IntBigEndian(0)
    else IntBigEndian(|a|) + a + IntBigEndian(start)
  }

  /** What `readExternal` makes of a stream: the array and start it sets and
      the rest of the stream, or the exception it throws. */
  datatype ExternalRead =
    | ExternalOk(arr: seq<Byte>, start: int, rest: seq<Byte>)
    | EndOfStream
    | NegativeArraySize

  function ParseExternal(s: seq<Byte>): ExternalRead
  {
    if |s| < 4 then EndOfStream
    else
      var len := ReadIntBigEndian(s, 0);
      if len < 0 then NegativeArraySize
      else if |s| < 4 + len + 4 then EndOfStream
      else ExternalOk(s[4..4 + len], ReadIntBigEndian(s, 4 + len), s[4 + len + 4..])
  }

  /** The four parts of an external form followed by the rest of a stream. */
  lemma ExternalParts(p: seq<Byte>, m: seq<Byte>, q: seq<Byte>, rest: seq<Byte>)
    requires |p| == 4 && |q| == 4
    ensures var s := p + m + q + rest;
      && s[0..4] == p
      && s[4..4 + |m|] == m
      && s[4 + |m|..4 + |m| + 4] == q
      && s[4 + |m| + 4..] == rest
  {
  }

  /** `readExternal` of `writeExternal`'s output restores an object that
      addresses the same bytes, and leaves the rest of the stream untouched. */
  lemma ExternalRoundTrip(a: seq<Byte>, start: int, detachAllowed: bool, rest: seq<Byte>)
    requires WellFormed(a, start)
    ensures var r := ParseExternal(ExternalForm(a, start, detachAllowed) + rest);
      && r.ExternalOk?
      && r.rest == rest
      && WellFormed(r.arr, r.start)
      && ObjectBytes(r.arr, r.start) == ObjectBytes(a, start)
      && (detachAllowed ==> IsDetached(r.arr, r.start))
      && (!detachAllowed ==> r.arr == a && r.start == start)
  {
    var m := if detachAllowed then ObjectBytes(a, start) else a;
    var st := if detachAllowed then 0 else start;
    var s := IntBigEndian(|m|) + m + IntBigEndian(st) + rest;
    assert ExternalForm(a, start, detachAllowed) + rest == s;
    ExternalParts(IntBigEndian(|m|), m, IntBigEndian(st), rest);
    ReadIntBigEndianStored(s, 0, |m|);
    ReadIntBigEndianStored(s, 4 + |m|, st);
    assert ParseExternal(s) == ExternalOk(m, st, rest);
    if detachAllowed {
      CopyIsDetached(a, start);
    }
  }

  // -----------------------------------------------------------------------
  // The object

  /** Copies `len` bytes of src from `from` into a new array (`U.arrayCopy`
      into a freshly allocated `byte[len]`). */
  method CopyOut(src: array<Byte>, from: int, len: int) returns (dst: array<Byte>)
    requires 0 <= from && 0 <= len && from + len <= src.Length
    ensures fresh(dst)
    ensures dst[..] == src[from..from + len]
  {
    dst := new Byte[len];
    var i := 0;
    while i < len
      invariant 0 <= i <= len
      invariant dst[..i] == src[from..from + i]
    {
      dst[i] := src[from + i];
      i := i + 1;
    }
  }

  class BinaryObject {
    var arr: array?<Byte>
    var start: int
    var detachAllowed: bool

    /** A usable object: its array is set and addresses a well-formed object. */
    ghost predicate Valid()
      reads this, arr
    {
      arr != null && WellFormed(arr[..], start)
    }

    constructor (a: array<Byte>, s: int)
      ensures arr == a && start == s && !detachAllowed
    {
      arr, start, detachAllowed := a, s, false;
    }

    /** The no-argument constructor used before `readFrom`/`readExternal`. */
    constructor Empty()
      ensures arr == null && start == 0 && !detachAllowed
    {
      arr, start, detachAllowed := null, 0, false;
    }

    /** `length()`. */
    function Length(): (n: int)
      reads this, arr
      requires arr != null && HeaderFits(arr[..], start)
      ensures IsInt(n)
    {
      TotalLength(arr[..], start)
    }

    /** `detached()`. */
    function Detached(): bool
      reads this, arr
      requires arr != null && HeaderFits(arr[..], start)
      ensures Detached() && Valid() ==> Bytes() == arr[..]
    {
      IsDetached(arr[..], start)
    }

    /** The bytes this object addresses. */
    function Bytes(): seq<Byte>
      reads this, arr
      requires Valid()
    {
      ObjectBytes(arr[..], start)
    }

    method SetDetachAllowed(allowed: bool)
      modifies this
      ensures arr == old(arr) && start == old(start) && detachAllowed == allowed
    {
      detachAllowed := allowed;
    }

    /** `detach()`: this object when detaching is not allowed or it is
      already detached; otherwise a new object at start 0 over a fresh copy
      of the addressed bytes, which is detached. */
    method Detach() returns (r: BinaryObject)
      requires detachAllowed ==> Valid()
      ensures !detachAllowed ==> r == this
      ensures detachAllowed ==> r.Valid() && r.Bytes() == Bytes()
      ensures detachAllowed && Detached() ==> r == this
      ensures detachAllowed && !Detached() ==>
        fresh(r) && fresh(r.arr) && r.start == 0 && r.arr[..] == Bytes() && r.Detached() && !r.detachAllowed
    {
      if !detachAllowed || Detached() {
        return this;
      }
      var len := Length();
      var arr0 := CopyOut(arr, start, len);
      r := new BinaryObject(arr0, 0);
      CopyIsDetached(arr[..], start);
    }

    /** `valueBytes`: exactly the object's bytes; the backing array itself
      only when the object is detached, otherwise a fresh copy. */
    method ValueBytes() returns (r: array<Byte>)
      requires Valid()
      ensures r[..] == Bytes()
      ensures Detached() ==> r == arr
      ensures !Detached() ==> fresh(r)
    {
      if Detached() {
        return arr;
      }
      var len := Length();
      r := CopyOut(arr, start, len);
    }

    /** `prepareForCache`: a detached object as is, otherwise `detach()`. */
    method PrepareForCache() returns (r: BinaryObject)
      requires arr != null && HeaderFits(arr[..], start) && (detachAllowed ==> Valid())
      ensures Detached() || !detachAllowed ==> r == this
      ensures Valid() ==> r.Valid() && r.Bytes() == Bytes() && (r.Detached() <==> Detached() || detachAllowed)
    {
      if Detached() {
        return this;
      }
      r := Detach();
    }

    function TypeIdField(): (r: int)
      reads this, arr
      requires arr != null && HeaderFits(arr[..], start)
      ensures IsInt(r)
    {
      TypeId(arr[..], start)
    }

    function HashCodeField(): (r: int)
      reads this, arr
      requires arr != null && HeaderFits(arr[..], start)
      ensures IsInt(r)
    {
      HashCode(arr[..], start)
    }

    function SchemaIdField(): (r: int)
      reads this, arr
      requires arr != null && HeaderFits(arr[..], start)
      ensures IsInt(r)
    {
      SchemaId(arr[..], start)
    }

    /** `fieldByOrder(order)` on this object. */
    function Field(order: int): (r: Lookup)
      reads this, arr
      requires arr != null && HeaderFits(arr[..], start)
      ensures r.Found? ==> Encodable(r.value) || r.value.Unmarshalled?
    {
      FieldByOrder(arr[..], start, order)
    }

    /** The fields as `readFrom` fills them, in state order. */
    function ReadView(): (v: seq<WireValue>)
      reads this, arr
      ensures |v| == |ReadKinds|
    {
      [WBytes(if arr == null then None else Some(arr[..])), WInt(start)]
    }

    /** `writeTo(buf, writer)` with a buffer of room cap: the header once,
      then state 0 (the bytes) and state 1 (the start), resuming at the
      writer's state. */
    method WriteTo(cap: nat, writer: MessageWriter) returns (ok: bool)
      requires Valid()
      modifies writer
      ensures (writer.Snapshot(), ok)
           == WriteCall(old(writer.Snapshot()), cap, WHeader(DIRECT_TYPE, FIELDS_COUNT),
                        WireFields(arr[..], start, detachAllowed))
    {
      ghost var fs := WireFields(arr[..], start, detachAllowed);
      ghost var w0 := old(writer.Snapshot());
      writer.SetBuffer(cap);
      if !writer.headerWritten {
        var h := writer.Write(WHeader(DIRECT_TYPE, FIELDS_COUNT));
        if !h {
          return false;
        }
        writer.OnHeaderWritten();
      }
      ghost var target := FieldsFrom(writer.Snapshot(), fs, 0);
      assert target == WriteCall(w0, cap, WHeader(DIRECT_TYPE, FIELDS_COUNT), fs);
      if writer.state == 0 {
        var w := writer.Write(if detachAllowed then WBytes(Some(arr[start..start + Length()])) else WBytes(Some(arr[..])));
        if !w {
          return false;
        }
        writer.IncrementState();
      }
      assert FieldsFrom(writer.Snapshot(), fs, 1) == target;
      if writer.state == 1 {
        var w := writer.Write(WInt(if detachAllowed then 0 else start));
        if !w {
          return false;
        }
        writer.IncrementState();
      }
      assert FieldsFrom(writer.Snapshot(), fs, 2) == target;
      return true;
    }

    /** `readFrom(buf, reader)` with a buffer holding cap bytes: state 0
      sets `arr`, state 1 sets `start`; an incomplete read still assigns
      the null (or 0) the reader returned. */
    method ReadFrom(cap: nat, reader: MessageReader) returns (ok: bool)
      modifies this, reader
      ensures var (r', view', res) := ReadCall(old(reader.Snapshot()), cap, old(ReadView()), ReadKinds);
        reader.Snapshot() == r' && ReadView() == view' && ok == res
      ensures detachAllowed == old(detachAllowed)
      ensures arr == old(arr) || arr == null || fresh(arr)
    {
      ghost var view0 := ReadView();
      ghost var target := ReadCall(reader.Snapshot(), cap, view0, ReadKinds);
      reader.SetBuffer(cap);
      assert DirectMessage.ReadFrom(reader.Snapshot(), ReadView(), ReadKinds, 0) == target;
      if reader.state == 0 {
        var v := reader.Read(KBytes);
        if v.bytes.Some? {
          var b := v.bytes.value;
          arr := new Byte[|b|](i requires 0 <= i < |b| => b[i]);
          assert arr[..] == b;
        } else {
          arr := null;
        }
        assert ReadView() == view0[0 := v];
        if !reader.lastRead {
          return false;
        }
        reader.IncrementState();
      }
      assert DirectMessage.ReadFrom(reader.Snapshot(), ReadView(), ReadKinds, 1) == target;
      if reader.state == 1 {
        var v := reader.Read(KInt);
        ghost var view1 := ReadView();
        start := v.n;
        assert ReadView() == view1[1 := v];
        if !reader.lastRead {
          return false;
        }
        reader.IncrementState();
      }
      assert DirectMessage.ReadFrom(reader.Snapshot(), ReadView(), ReadKinds, 2) == target;
      return true;
    }

    /** `writeExternal(out)`: appends the external form to the stream. */
    method WriteExternal(out: seq<Byte>) returns (out': seq<Byte>)
      requires Valid()
      ensures out' == out + ExternalForm(arr[..], start, detachAllowed)
    {
      if detachAllowed {
        var len := Length();
        out' := out + IntBigEndian(len) + arr[start..start + len] + IntBigEndian(0);
      } else {
        out' := out + IntBigEndian(arr.Length) + arr[..] + IntBigEndian(start);
      }
    }

    /** `readExternal(in)`: a new array of the length read, filled from the
      stream, then the start. A stream too short for the length or a
      negative length leaves the object as it was; a stream that ends
      inside the bytes or the start leaves the new array assigned, holding
      what arrived (zeros after it), and the start as it was. */
    method ReadExternal(inp: seq<Byte>) returns (res: ExternalRead)
      modifies this
      ensures res == ParseExternal(inp)
      ensures res.ExternalOk? ==> arr != null && fresh(arr) && arr[..] == res.arr && start == res.start
      ensures |inp| < 4 || res.NegativeArraySize? ==> arr == old(arr) && start == old(start)
      ensures res.EndOfStream? && |inp| >= 4 ==>
        var len := ReadIntBigEndian(inp, 0);
        var got := if |inp| - 4 < len then |inp| - 4 else len;
        && arr != null && fresh(arr) && arr.Length == len && start == old(start)
        && arr[..got] == inp[4..4 + got]
        && (forall i :: got <= i < len ==> arr[i] == 0)
      ensures detachAllowed == old(detachAllowed)
    {
      res := ParseExternal(inp);
      if |inp| < 4 {
        return;
      }
      var len := ReadIntBigEndian(inp, 0);
      if len < 0 {
        return;
      }
      var got := if |inp| - 4 < len then |inp| - 4 else len;
      arr := new Byte[len](i => if 0 <= i < got then inp[4 + i] else 0);
      assert arr[..got] == inp[4..4 + got];
      if |inp| < 4 + len + 4 {
        return;
      }
      assert arr[..] == arr[..got];
      start := ReadIntBigEndian(inp, 4 + len);
    }
  }
}
