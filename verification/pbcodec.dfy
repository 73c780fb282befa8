/** What is written for a message, and what is read: the functions that the methods on streams compute. */
module PbCodec {
  import opened Common
  import opened PbWire
  import opened PbField

  // ----- memory -----

  function NumOf(v: Value): int {
    if v.Num? then v.n else 0
  }

  function BytesOf(v: Value): seq<Byte> {
    if v.Raw? then v.bytes else []
  }

  function DataOf(m: Value): map<(int, nat), Value> {
    if m.Struct? then m.data else map[]
  }

  function SizesOf(m: Value): map<int, nat> {
    if m.Struct? then m.sizes else map[]
  }

  /** The k-th element of the member at an offset. */
  function Slot(m: Value, at: int, k: nat): Value {
    if (at, k) in DataOf(m) then DataOf(m)[(at, k)] else Num(0)
  }

  /** A count, a has flag, or the tag of the member that a union holds. */
  function Size(m: Value, at: int): nat {
    if at in SizesOf(m) then SizesOf(m)[at] else 0
  }

  function Put(m: Value, at: int, k: nat, v: Value): Value {
    Struct(DataOf(m)[(at, k) := v], SizesOf(m))
  }

  function PutSize(m: Value, at: int, n: nat): Value {
    Struct(DataOf(m), SizesOf(m)[at := n])
  }

  function PutAll(m: Value, at: int, k: nat, values: seq<Value>): Value
    decreases |values|
  {
    if values == [] then m else PutAll(Put(m, at, k, values[0]), at, k + 1, values[1..])
  }

  /** The bytes before the first NUL. */
  function UpToNul(bytes: seq<Byte>): (s: seq<Byte>)
    ensures |s| <= |bytes| && 0 !in s
  {
    if bytes == [] || bytes[0] == 0 then [] else [bytes[0]] + UpToNul(bytes[1..])
  }

  /** As many bytes as the buffer of a member has. */
  function Window(bytes: seq<Byte>, size: nat): (w: seq<Byte>)
    ensures |w| == size
  {
    if |bytes| >= size then bytes[..size] else bytes + seq(size - |bytes|, _ => 0)
  }

  /** The string in a buffer; it may have no NUL. */
  function CString(bytes: seq<Byte>, size: nat): seq<Byte> {
    UpToNul(if |bytes| <= size then bytes else bytes[..size])
  }

  // ----- what is present -----

  /** A value that a field without a has flag does not need to send. */
  predicate IsDefaultValue(f: Field, v: Value)
    decreases f, 0
  {
    match f.kind
    case Submessage(d) => IsDefaultMessage(d, v)
    case FixedBytes => f.dataSize == 0
    case Bytes => BytesOf(v) == []
    case Text => UpToNul(BytesOf(v)) == []
    case _ => NumOf(v) == 0
  }

  predicate IsDefaultField(d: Descriptor, m: Value, i: nat)
    requires i < |d.fields|
    decreases d, 0
  {
    var f := d.fields[i];
    match f.rule
    case Required => false
    case Repeated => Size(m, SizeAt(d, i)) == 0
    case OneOf => Size(m, SizeAt(d, i)) == 0
    case Optional =>
      if f.sizeOffset != 0 then Size(m, SizeAt(d, i)) == 0 else IsDefaultValue(f, Slot(m, DataAt(d, i), 0))
  }

  predicate IsDefaultMessage(d: Descriptor, m: Value)
    decreases d, 1
  {
    forall i: nat | i < |d.fields| :: IsDefaultField(d, m, i)
  }

  /** How many values of a field are there. */
  function Count(d: Descriptor, m: Value, i: nat): nat
    requires i < |d.fields|
  {
    var f := d.fields[i];
    match f.rule
    case Required => 1
    case Repeated => Size(m, SizeAt(d, i))
    case OneOf => if Size(m, SizeAt(d, i)) == f.tag then 1 else 0
    case Optional =>
      if f.sizeOffset != 0 then (if Size(m, SizeAt(d, i)) != 0 then 1 else 0)
      else if IsDefaultValue(f, Slot(m, DataAt(d, i), 0)) then 0 else 1
  }

  function Items(d: Descriptor, m: Value, i: nat): (items: seq<Value>)
    requires i < |d.fields|
    ensures |items| == Count(d, m, i)
  {
    seq(Count(d, m, i), (k: nat) => Slot(m, DataAt(d, i), k))
  }

  // ----- writing -----

  const BYTES_OFFSET: nat := 4

  predicate IsPackable(f: Field) {
    f.kind.Bool? || f.kind.Int? || f.kind.UInt? || f.kind.SInt? || f.kind.Fixed32? || f.kind.Fixed64?
  }

  function WireType(f: Field): (w: nat)
    ensures w < 8
  {
    match f.kind
    case Bool => 0
    case Int => 0
    case UInt => 0
    case SInt => 0
    case Fixed32 => 5
    case Fixed64 => 1
    case _ => 2
  }

  /** The sizes of the integer types. */
  predicate IsWidth(size: nat) {
    size == 1 || size == 2 || size == 4 || size == 8
  }

  function Key(tag: nat, wireType: nat): seq<Byte> {
    Varint(tag * 8 + wireType)
  }

  /** A length, as a 64-bit integer, and the bytes. */
  function Delimited(bytes: seq<Byte>): seq<Byte> {
    Varint(|bytes| % U64) + bytes
  }

  /** The 64-bit integer in memory. */
  function Int64(n: int): (r: int)
    ensures IsSigned(r, 8)
  {
    Signed(Unsigned(n, 8), 8)
  }

  function Joined(a: Option<seq<Byte>>, b: Option<seq<Byte>>): Option<seq<Byte>> {
    if a.Some? && b.Some? then Some(a.value + b.value) else None
  }

  /** A value without its key. */
  function EncodeValue(f: Field, v: Value): Option<seq<Byte>>
    decreases f, 0
  {
    match f.kind
    case Bool => Some(Varint(if NumOf(v) != 0 then 1 else 0))
    case Int => if IsWidth(f.dataSize) then Some(Varint(Unsigned(NumOf(v), 8))) else None
    case UInt => if IsWidth(f.dataSize) then Some(Varint(Unsigned(NumOf(v), 8))) else None
    case SInt => if IsWidth(f.dataSize) then Some(Varint(ZigZag(Int64(NumOf(v))))) else None
    case Fixed32 => Some(LittleEndian(Unsigned(NumOf(v), 4), 4))
    case Fixed64 => Some(LittleEndian(Unsigned(NumOf(v), 8), 8))
    case Bytes => if |BytesOf(v)| + BYTES_OFFSET > f.dataSize then None else Some(Delimited(BytesOf(v)))
    case Text => Some(Delimited(CString(BytesOf(v), f.dataSize)))
    case FixedBytes => Some(Delimited(Window(BytesOf(v), f.dataSize)))
    case Submessage(d) =>
      var bytes := EncodeMessage(d, v);
      if bytes.None? then None else Some(Delimited(bytes.value))
    case Extension => None
  }

  function EncodeKeyed(f: Field, v: Value): Option<seq<Byte>>
    decreases f, 1
  {
    Joined(Some(Key(f.tag, WireType(f))), EncodeValue(f, v))
  }

  /** The values of an array one after the other, each with a key unless they are packed. */
  function EncodeItems(f: Field, items: seq<Value>, keyed: bool): Option<seq<Byte>>
    decreases f, 2, |items|
  {
    if items == [] then Some([])
    else
      var last := items[|items| - 1];
      Joined(EncodeItems(f, items[..|items| - 1], keyed), if keyed then EncodeKeyed(f, last) else EncodeValue(f, last))
  }

  function EncodeField(d: Descriptor, m: Value, i: nat): Option<seq<Byte>>
    requires i < |d.fields|
    decreases d, 0
  {
    var f, items := d.fields[i], Items(d, m, i);
    if f.rule == Repeated then
      if items == [] then Some([])
      else if |items| > f.arraySize then None
      else if IsPackable(f) then
        var packed := EncodeItems(f, items, false);
        if packed.None? then None else Some(Key(f.tag, 2) + Delimited(packed.value))
      else EncodeItems(f, items, true)
    else EncodeItems(f, items, true)
  }

  lemma SingleContent(d: Descriptor, m: Value, i: nat)
    requires i < |d.fields| && d.fields[i].rule != Repeated
    ensures EncodeField(d, m, i) ==
            if Count(d, m, i) == 0 then Some([]) else EncodeKeyed(d.fields[i], Slot(m, DataAt(d, i), 0))
  {
    var f, items := d.fields[i], Items(d, m, i);
    assert EncodeItems(f, [], true) == Some([]);
    if Count(d, m, i) > 0 {
      assert items == [Slot(m, DataAt(d, i), 0)] && items[..0] == [];
      var e := EncodeKeyed(f, items[0]);
      if e.Some? {
        assert [] + e.value == e.value;
      }
    }
  }

  /** The first n fields. */
  function EncodeFields(d: Descriptor, m: Value, n: nat): Option<seq<Byte>>
    requires n <= |d.fields|
    decreases d, 1, n
  {
    if n == 0 then Some([]) else Joined(EncodeFields(d, m, n - 1), EncodeField(d, m, n - 1))
  }

  function EncodeMessage(d: Descriptor, m: Value): Option<seq<Byte>>
    decreases d, 2
  {
    EncodeFields(d, m, |d.fields|)
  }

  // ----- defaults -----

  function ZeroValue(f: Field): Value
    decreases f, 0
  {
    match f.kind
    case Submessage(d) => ZeroStruct(d, |d.fields|)
    case Bytes => Raw([])
    case Text => Raw([])
    case FixedBytes => Raw(seq(f.dataSize, _ => 0))
    case _ => Num(0)
  }

  /** A struct of zero bytes. */
  function ZeroStruct(d: Descriptor, n: nat): Value
    requires n <= |d.fields|
    decreases d, 1, n
  {
    if n == 0 then Struct(map[], map[])
    else PutSize(Put(ZeroStruct(d, n - 1), DataAt(d, n - 1), 0, ZeroValue(d.fields[n - 1])), SizeAt(d, n - 1), 0)
  }

  function DefaultValue(f: Field, base: Value): Value
    decreases f, 0
  {
    match f.kind
    case Submessage(d) => SetDefaults(d, base)
    case _ => if f.initial.Some? then f.initial.value else ZeroValue(f)
  }

  /** The contents of arrays and unions stay as they are; only their sizes are cleared. */
  function SetDefault(d: Descriptor, m: Value, i: nat): Value
    requires i < |d.fields|
    decreases d, 0
  {
    var f := d.fields[i];
    if f.rule == Repeated || f.rule == OneOf then PutSize(m, SizeAt(d, i), 0)
    else
      var m' := if f.rule == Optional && f.sizeOffset != 0 then PutSize(m, SizeAt(d, i), 0) else m;
      Put(m', DataAt(d, i), 0, DefaultValue(f, Slot(m, DataAt(d, i), 0)))
  }

  function SetFirstDefaults(d: Descriptor, m: Value, n: nat): Value
    requires n <= |d.fields|
    decreases d, 1, n
  {
    if n == 0 then m else SetDefault(d, SetFirstDefaults(d, m, n - 1), n - 1)
  }

  function SetDefaults(d: Descriptor, m: Value): Value
    decreases d, 2
  {
    SetFirstDefaults(d, m, |d.fields|)
  }

  // ----- reading -----

  /** What a member holds when a union turns to it. */
  function Base(d: Descriptor, m: Value, i: nat): Value
    requires i < |d.fields|
  {
    var f := d.fields[i];
    if f.rule == OneOf && f.kind.Submessage? && Size(m, SizeAt(d, i)) != f.tag then
      SetDefaults(f.kind.d, ZeroStruct(f.kind.d, |f.kind.d.fields|))
    else Slot(m, DataAt(d, i), 0)
  }

  /** A length and as many bytes, and what follows them. */
  function Undelimited(bytes: seq<Byte>): (r: Option<(seq<Byte>, seq<Byte>)>)
    ensures r.Some? ==> |r.value.0| + |r.value.1| < |bytes|
  {
    var length := Read32(bytes);
    if length.None? || length.value.0 > |length.value.1| then None
    else Some((length.value.1[..length.value.0], length.value.1[length.value.0..]))
  }

  /** A field of up to 32 bits takes the low 32 bits first, as they are signed. */
  function IntOf(f: Field, u: nat): Option<Value>
    requires u < U64
  {
    var n := if f.dataSize == 8 then Signed(u, 8) else Signed(Unsigned(u, 4), 4);
    if IsWidth(f.dataSize) && IsSigned(n, f.dataSize) then Some(Num(n)) else None
  }

  function UIntOf(f: Field, u: nat): Option<Value> {
    if IsWidth(f.dataSize) && u < Range(f.dataSize) then Some(Num(u)) else None
  }

  function SIntOf(f: Field, u: nat): Option<Value> {
    if IsWidth(f.dataSize) && IsSigned(UnZigZag(u), f.dataSize) then Some(Num(UnZigZag(u))) else None
  }

  function DecodeVarint(f: Field, bytes: seq<Byte>): (r: Option<(Value, seq<Byte>)>)
    ensures r.Some? ==> |r.value.1| < |bytes|
  {
    var u := Read64(bytes);
    if u.None? then None
    else
      var v := if f.kind.Int? then IntOf(f, u.value.0) else if f.kind.UInt? then UIntOf(f, u.value.0) else SIntOf(f, u.value.0);
      if v.None? then None else Some((v.value, u.value.1))
  }

  function DecodeFixed(size: nat, bytes: seq<Byte>): (r: Option<(Value, seq<Byte>)>)
    ensures r.Some? && size > 0 ==> |r.value.1| < |bytes|
  {
    if |bytes| < size then None else Some((Num(FromLittleEndian(bytes[..size])), bytes[size..]))
  }

  function DecodeNumber(f: Field, bytes: seq<Byte>): (r: Option<(Value, seq<Byte>)>)
    ensures r.Some? ==> |r.value.1| < |bytes|
  {
    match f.kind
    case Bool =>
      var u := Read32(bytes);
      if u.None? then None else Some((Num(if u.value.0 != 0 then 1 else 0), u.value.1))
    case Fixed32 => DecodeFixed(4, bytes)
    case Fixed64 => DecodeFixed(8, bytes)
    case _ => DecodeVarint(f, bytes)
  }

  /** A string or byte string as its member holds it, if there is room. */
  function Stored(f: Field, content: seq<Byte>): Option<Value> {
    match f.kind
    case Bytes => if |content| + BYTES_OFFSET > f.dataSize then None else Some(Raw(content))
    case Text => if |content| + 1 > f.dataSize then None else Some(Raw(UpToNul(content)))
    case FixedBytes =>
      if content != [] && |content| != f.dataSize then None
      else Some(if content == [] then ZeroValue(f) else Raw(content))
    case _ => None
  }

  function DecodeString(f: Field, bytes: seq<Byte>): (r: Option<(Value, seq<Byte>)>)
    ensures r.Some? ==> |r.value.1| < |bytes|
  {
    var content := Undelimited(bytes);
    if content.None? || Stored(f, content.value.0).None? then None
    else Some((Stored(f, content.value.0).value, content.value.1))
  }

  function DecodeValue(f: Field, base: Value, bytes: seq<Byte>): (r: Option<(Value, seq<Byte>)>)
    ensures r.Some? ==> |r.value.1| <= |bytes|
    decreases f, |bytes|, 0
  {
    if IsPackable(f) then DecodeNumber(f, bytes)
    else if !f.kind.Submessage? then DecodeString(f, bytes)
    else
      var content := Undelimited(bytes);
      if content.None? then None
      else
        var v := DecodeMessage(f.kind.d, if f.rule == Repeated then SetDefaults(f.kind.d, base) else base, content.value.0);
        if v.None? then None else Some((v.value, content.value.1))
  }

  /** The values of a packed array, of which some are read already: there must be room for all of them. */
  function DecodePacked(f: Field, count: nat, bytes: seq<Byte>): Option<seq<Value>>
    decreases f, |bytes|, 1
  {
    if bytes == [] then Some([])
    else if count >= f.arraySize then None
    else
      var first := DecodeNumber(f, bytes);
      if first.None? then None
      else
        var others := DecodePacked(f, count + 1, first.value.1);
        if others.None? then None else Some([first.value.0] + others.value)
  }

  /** One occurrence of a field. The wire type only tells packed arrays. */
  function DecodeField(d: Descriptor, m: Value, i: nat, wireType: nat, bytes: seq<Byte>): (r: Option<(Value, seq<Byte>)>)
    requires i < |d.fields|
    ensures r.Some? ==> |r.value.1| <= |bytes|
    decreases d, |bytes|, 1
  {
    var f, at, sz := d.fields[i], DataAt(d, i), SizeAt(d, i);
    if f.rule == Repeated && wireType == 2 && IsPackable(f) then
      var content := Undelimited(bytes);
      var values := if content.None? then None else DecodePacked(f, Size(m, sz), content.value.0);
      if values.None? then None
      else Some((PutSize(PutAll(m, at, Size(m, sz), values.value), sz, Size(m, sz) + |values.value|), content.value.1))
    else if f.rule == Repeated then
      if Size(m, sz) >= f.arraySize then None
      else
        var v := DecodeValue(f, Slot(m, at, Size(m, sz)), bytes);
        if v.None? then None
        else Some((PutSize(Put(m, at, Size(m, sz), v.value.0), sz, Size(m, sz) + 1), v.value.1))
    else
      var v := DecodeValue(f, Base(d, m, i), bytes);
      if v.None? then None
      else Some((Put(Sized(d, m, i), at, 0, v.value.0), v.value.1))
  }

  /** The struct with its size set for a value that is about to come. */
  function Sized(d: Descriptor, m: Value, i: nat): Value
    requires i < |d.fields|
  {
    var f := d.fields[i];
    if f.rule == OneOf then PutSize(m, SizeAt(d, i), f.tag)
    else if f.rule == Optional && f.sizeOffset != 0 then PutSize(m, SizeAt(d, i), 1)
    else m
  }

  function Skipped(wireType: nat, bytes: seq<Byte>): (r: Option<seq<Byte>>)
    ensures r.Some? ==> |r.value| <= |bytes|
  {
    match wireType
    case 0 => SkippedVarint(bytes)
    case 1 => if |bytes| < 8 then None else Some(bytes[8..])
    case 2 => if Undelimited(bytes).None? then None else Some(Undelimited(bytes).value.1)
    case 5 => if |bytes| < 4 then None else Some(bytes[4..])
    case _ => None
  }

  function SkippedVarint(bytes: seq<Byte>): (r: Option<seq<Byte>>)
    ensures r.Some? ==> |r.value| <= |bytes|
  {
    if bytes == [] then None else if bytes[0] < 128 then Some(bytes[1..]) else SkippedVarint(bytes[1..])
  }

  /** Which field has this tag. */
  function IndexFrom(d: Descriptor, tag: nat, i: nat): (r: Option<nat>)
    requires i <= |d.fields|
    ensures r.Some? ==> IsField(d, r.value, tag)
    ensures r.None? ==> forall j: nat | i <= j :: !IsField(d, j, tag)
    decreases |d.fields| - i
  {
    if i == |d.fields| then None
    else if IsField(d, i, tag) then Some(i)
    else IndexFrom(d, tag, i + 1)
  }

  function IndexOf(d: Descriptor, tag: nat): (r: Option<nat>)
    ensures r.Some? ==> IsField(d, r.value, tag)
    ensures r.None? ==> forall j: nat :: !IsField(d, j, tag)
  {
    IndexFrom(d, tag, 0)
  }

  /** The struct, the fields that occurred, and what was not read. */
  datatype Decoded = Decoded(m: Value, seen: set<nat>, rest: seq<Byte>)

  /** Fields in any order, until the end or a key of zero. An empty list takes a key with tag 0 for a boolean. */
  function DecodeFields(d: Descriptor, p: Decoded): (r: Option<Decoded>)
    ensures r.Some? ==> |r.value.rest| <= |p.rest| && p.seen <= r.value.seen
    decreases d, |p.rest|, 2
  {
    if p.rest == [] then Some(p)
    else
      match Read32(p.rest)
      case None => None
      case Some((key, bytes)) =>
        if key == 0 then Some(p.(rest := bytes))
        else
          var next := DecodeKeyed(d, p, key, bytes);
          if next.None? then None else DecodeFields(d, next.value)
  }

  function DecodeKeyed(d: Descriptor, p: Decoded, key: nat, bytes: seq<Byte>): (r: Option<Decoded>)
    requires |bytes| < |p.rest|
    ensures r.Some? ==> |r.value.rest| <= |bytes| && p.seen <= r.value.seen
    decreases d, |p.rest|, 1
  {
    var tag, wireType := key / 8, key % 8;
    if d.fields == [] && tag == 0 then
      if Read32(bytes).None? then None
      else Some(p.(m := Put(p.m, 0, 0, Num(if Read32(bytes).value.0 != 0 then 1 else 0)), rest := Read32(bytes).value.1))
    else
      match IndexOf(d, tag)
      case None =>
        var rest := Skipped(wireType, bytes);
        if rest.None? then None else Some(p.(rest := rest.value))
      case Some(i) =>
        var r := DecodeField(d, p.m, i, wireType, bytes);
        if r.None? then None else Some(Decoded(r.value.0, p.seen + {i}, r.value.1))
  }

  const MAX_REQUIRED: nat := 64

  /** Only so many required fields are tracked. */
  predicate AllRequired(d: Descriptor, seen: set<nat>) {
    forall i: nat | i < |d.fields| && d.fields[i].rule == Required && RequiredBefore(d, i) < MAX_REQUIRED :: i in seen
  }

  function DecodeNoInit(d: Descriptor, m: Value, bytes: seq<Byte>): Option<Decoded>
    decreases d, |bytes|, 3
  {
    var r := DecodeFields(d, Decoded(m, {}, bytes));
    if r.None? || !AllRequired(d, r.value.seen) then None else r
  }

  function DecodeMessage(d: Descriptor, m: Value, bytes: seq<Byte>): Option<Value>
    decreases d, |bytes|, 4
  {
    var r := DecodeNoInit(d, m, bytes);
    if r.None? then None else Some(r.value.m)
  }
}
