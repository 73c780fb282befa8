/** The encoder: output streams, and the methods that write a message field by field. */
module PbEncode {
  import opened Common
  import opened PbWire
  import opened PbVarint
  import opened PbField
  import opened PbCodec
  import opened PbBounds

  // ----- what writing does -----

  /** How many bytes a stream has counted, and what is in its buffer. */
  datatype Mark = Mark(written: nat, before: seq<Byte>)

  /** From s to e these bytes were written, or there were none, or no room for them. A sizing stream only counts. */
  ghost predicate Extends(writes: bool, maxSize: nat, s: Mark, e: Mark, bytes: Option<seq<Byte>>, ok: bool) {
    && ok == (bytes.Some? && (writes ==> s.written + |bytes.value| <= maxSize))
    && s.before <= e.before
    && (ok ==> e == Mark(s.written + |bytes.value|, if writes then s.before + bytes.value else s.before))
  }

  lemma Composed(
      writes: bool, maxSize: nat, s: Mark, mid: Mark, e: Mark, a: Option<seq<Byte>>, b: Option<seq<Byte>>, ok: bool)
    requires Extends(writes, maxSize, s, mid, a, true) && Extends(writes, maxSize, mid, e, b, ok)
    ensures Extends(writes, maxSize, s, e, Joined(a, b), ok)
  {
    if b.Some? {
      assert s.before + a.value + b.value == s.before + (a.value + b.value);
    }
  }

  lemma Stopped(writes: bool, maxSize: nat, s: Mark, e: Mark, a: Option<seq<Byte>>, b: Option<seq<Byte>>)
    requires Extends(writes, maxSize, s, e, a, false)
    ensures Extends(writes, maxSize, s, e, Joined(a, b), false)
  {
  }

  lemma Nothing(writes: bool, maxSize: nat, s: Mark)
    requires writes ==> s.written <= maxSize
    ensures Extends(writes, maxSize, s, s, Some([]), true)
  {
    assert s.before + [] == s.before;
  }

  class OStream {
    const writes: bool
    const buffer: array<Byte>
    const maxSize: nat
    var state: nat
    var bytesWritten: nat

    ghost predicate Valid()
      reads this
    {
      && state <= buffer.Length
      && (writes ==> bytesWritten <= maxSize && state + (maxSize - bytesWritten) <= buffer.Length)
    }

    ghost function Here(): Mark
      requires Valid()
      reads this, buffer
    {
      Mark(bytesWritten, buffer[..state])
    }

    /** Since the mark these bytes were written. */
    ghost predicate Wrote(start: Mark, bytes: Option<seq<Byte>>, ok: bool)
      reads this, buffer
    {
      Valid() && Extends(writes, maxSize, start, Here(), bytes, ok)
    }

    /** A stream into a buffer. */
    constructor (buf: array<Byte>, from: nat, size: nat)
      requires from + size <= buf.Length
      ensures Valid() && writes && buffer == buf && state == from && maxSize == size && bytesWritten == 0
    {
      writes, buffer, maxSize, state, bytesWritten := true, buf, size, from, 0;
    }

    /** A stream that only counts. */
    constructor Sizing()
      ensures Valid() && !writes && bytesWritten == 0 && state == 0 && fresh(buffer)
    {
      writes, maxSize, state, bytesWritten := false, 0, 0, 0;
      buffer := new Byte[0];
    }

    method BufWrite(buf: seq<Byte>)
      requires Valid() && writes && bytesWritten + |buf| <= maxSize
      modifies this`state, buffer
      ensures state == old(state) + |buf| && buffer[..state] == old(buffer[..state]) + buf
    {
      var dest := state;
      state := dest + |buf|;
      for i := 0 to |buf|
        invariant buffer[..dest] == old(buffer[..dest]) && buffer[dest..dest + i] == buf[..i]
        modifies buffer
      {
        buffer[dest + i] := buf[i];
        assert buffer[dest..dest + i + 1] == buffer[dest..dest + i] + [buf[i]];
      }
      assert buffer[..state] == buffer[..dest] + buffer[dest..state];
    }

    method Write(buf: seq<Byte>) returns (ok: bool)
      requires Valid()
      modifies this, buffer
      ensures Wrote(old(Here()), Some(buf), ok)
    {
      if |buf| > 0 && writes {
        if bytesWritten + |buf| > maxSize {
          return false;
        }
        BufWrite(buf);
      }
      bytesWritten := bytesWritten + |buf|;
      ok := true;
      assert writes && |buf| == 0 ==> old(buffer[..state]) + buf == buffer[..state];
    }

    /** Writing without data: a sizing stream only needs the count. */
    method Advance(size: nat, ghost bytes: seq<Byte>) returns (ok: bool)
      requires Valid() && !writes && |bytes| == size
      modifies this
      ensures Wrote(old(Here()), Some(bytes), ok)
    {
      bytesWritten := bytesWritten + size;
      ok := true;
    }
  }

  // ----- integers -----

  /** The bytes of an integer with the top bit of all of them set. */
  function Marked(v: nat): (bytes: seq<Byte>)
    ensures v > 0 ==> bytes != []
  {
    if v == 0 then [] else [128 + v % 128] + Marked(v / 128)
  }

  function LastCleared(bytes: seq<Byte>): seq<Byte> {
    if bytes == [] || bytes[|bytes| - 1] < 128 then bytes else bytes[..|bytes| - 1] + [bytes[|bytes| - 1] - 128]
  }

  lemma {:induction false} ClearedIsVarint(v: nat)
    requires v > 0
    ensures LastCleared(Marked(v)) == Varint(v)
  {
    if v >= 128 {
      ClearedIsVarint(v / 128);
      var tail := Marked(v / 128);
      assert Marked(v)[|tail|] == tail[|tail| - 1];
      assert Marked(v)[..|tail|] == [128 + v % 128] + tail[..|tail| - 1];
    }
  }

  lemma MarkedIsShort(v: nat)
    requires 0 < v < U64
    ensures |Marked(v)| <= 10
  {
    ClearedIsVarint(v);
    VarintIsShort(v);
  }

  /** More than seven bits, the lowest first. */
  method Septets(value: nat) returns (bytes: seq<Byte>)
    requires 0 < value < U64
    ensures bytes == Varint(value)
  {
    var buffer := new Byte[10];
    var i, v := 0, value;
    MarkedIsShort(value);
    while v > 0
      invariant i + |Marked(v)| <= 10 && buffer[..i] + Marked(v) == Marked(value)
    {
      buffer[i] := v % 128 + 128;
      assert buffer[..i + 1] + Marked(v / 128) == buffer[..i] + ([128 + v % 128] + Marked(v / 128));
      v := v / 128;
      i := i + 1;
    }
    assert buffer[..i] == Marked(value);
    ClearedIsVarint(value);
    LastIsMarked(value);
    buffer[i - 1] := buffer[i - 1] - 128;
    bytes := buffer[..i];
    assert bytes == LastCleared(Marked(value));
  }

  method EncodeVarint(s: OStream, value: nat) returns (ok: bool)
    requires s.Valid() && value < U64
    modifies s, s.buffer
    ensures s.Wrote(old(s.Here()), Some(Varint(value)), ok)
  {
    if value <= 0x7F {
      ok := s.Write([value]);
      return;
    }
    var bytes := Septets(value);
    ok := s.Write(bytes);
  }

  lemma {:induction false} LastIsMarked(v: nat)
    requires v > 0
    ensures Marked(v)[|Marked(v)| - 1] >= 128
  {
    if v >= 128 {
      LastIsMarked(v / 128);
    }
  }

  method EncodeSvarint(s: OStream, value: int) returns (ok: bool)
    requires s.Valid() && IsSigned(value, 8)
    modifies s, s.buffer
    ensures s.Wrote(old(s.Here()), Some(Varint(ZigZag(value))), ok)
  {
    var zigzagged;
    if value < 0 {
      zigzagged := U64 - 1 - Unsigned(2 * Unsigned(value, 8), 8);
    } else {
      zigzagged := 2 * value;
    }
    ok := EncodeVarint(s, zigzagged);
  }

  /** Shifted right by 8 * k bits. */
  function Shifted(v: nat, k: nat): nat {
    if k == 0 then v else Shifted(v / 256, k - 1)
  }

  lemma {:induction false} LittleEndianAt(v: nat, size: nat, k: nat)
    requires k < size
    ensures LittleEndian(v, size)[k] == Shifted(v, k) % 256
    decreases size
  {
    if k > 0 {
      LittleEndianAt(v / 256, size - 1, k - 1);
    }
  }

  method EncodeFixed32(s: OStream, val: nat) returns (ok: bool)
    requires s.Valid() && val < U32
    modifies s, s.buffer
    ensures s.Wrote(old(s.Here()), Some(LittleEndian(val, 4)), ok)
  {
    var bytes := [val % 256, Shifted(val, 1) % 256, Shifted(val, 2) % 256, Shifted(val, 3) % 256];
    forall k | 0 <= k < 4 ensures bytes[k] == LittleEndian(val, 4)[k] {
      LittleEndianAt(val, 4, k);
    }
    assert bytes == LittleEndian(val, 4);
    ok := s.Write(bytes);
  }

  method EncodeFixed64(s: OStream, val: nat) returns (ok: bool)
    requires s.Valid() && val < U64
    modifies s, s.buffer
    ensures s.Wrote(old(s.Here()), Some(LittleEndian(val, 8)), ok)
  {
    var bytes := [val % 256, Shifted(val, 1) % 256, Shifted(val, 2) % 256, Shifted(val, 3) % 256,
                  Shifted(val, 4) % 256, Shifted(val, 5) % 256, Shifted(val, 6) % 256, Shifted(val, 7) % 256];
    forall k | 0 <= k < 8 ensures bytes[k] == LittleEndian(val, 8)[k] {
      LittleEndianAt(val, 8, k);
    }
    assert bytes == LittleEndian(val, 8);
    ok := s.Write(bytes);
  }

  // ----- values -----

  method EncodeTag(s: OStream, wireType: nat, tag: nat) returns (ok: bool)
    requires s.Valid() && tag < U32 && wireType < 8
    modifies s, s.buffer
    ensures s.Wrote(old(s.Here()), Some(Key(tag, wireType)), ok)
  {
    ok := EncodeVarint(s, tag * 8 + wireType);
  }

  method EncodeTagForField(s: OStream, f: Field) returns (ok: bool)
    requires s.Valid() && f.tag < U32 && !f.kind.Extension?
    modifies s, s.buffer
    ensures s.Wrote(old(s.Here()), Some(Key(f.tag, WireType(f))), ok)
  {
    var wireType;
    match f.kind {
      case Bool => wireType := 0;
      case Int => wireType := 0;
      case UInt => wireType := 0;
      case SInt => wireType := 0;
      case Fixed32 => wireType := 5;
      case Fixed64 => wireType := 1;
      case _ => wireType := 2;
    }
    ok := EncodeTag(s, wireType, f.tag);
  }

  method EncodeString(s: OStream, bytes: seq<Byte>) returns (ok: bool)
    requires s.Valid()
    modifies s, s.buffer
    ensures s.Wrote(old(s.Here()), Some(Delimited(bytes)), ok)
  {
    ghost var start, length := s.Here(), Some(Varint(|bytes| % U64));
    ok := EncodeVarint(s, |bytes| % U64);
    if !ok {
      Stopped(s.writes, s.maxSize, start, s.Here(), length, Some(bytes));
      return;
    }
    ghost var mid := s.Here();
    ok := s.Write(bytes);
    Composed(s.writes, s.maxSize, start, mid, s.Here(), length, Some(bytes), ok);
  }

  /** Refused before anything is written. */
  lemma Refused(s: OStream)
    requires s.Valid()
    ensures s.Wrote(s.Here(), None, false)
  {
  }

  method EncodeNumber(s: OStream, f: Field, v: Value) returns (ok: bool)
    requires s.Valid() && IsPackable(f)
    modifies s, s.buffer
    ensures s.Wrote(old(s.Here()), EncodeValue(f, v), ok)
  {
    if f.kind.Bool? {
      ok := EncodeVarint(s, if NumOf(v) != 0 then 1 else 0);
    } else if f.kind.Fixed32? {
      ok := EncodeFixed32(s, Unsigned(NumOf(v), 4));
    } else if f.kind.Fixed64? {
      ok := EncodeFixed64(s, Unsigned(NumOf(v), 8));
    } else if f.dataSize != 1 && f.dataSize != 2 && f.dataSize != 4 && f.dataSize != 8 {
      Refused(s);
      ok := false;
    } else if f.kind.SInt? {
      ok := EncodeSvarint(s, Int64(NumOf(v)));
    } else {
      ok := EncodeVarint(s, Unsigned(NumOf(v), 8));
    }
  }

  lemma UpToNulMore(text: seq<Byte>, n: nat)
    requires n < |text| && text[n] != 0
    ensures text[..n + 1] + UpToNul(text[n + 1..]) == text[..n] + UpToNul(text[n..])
  {
    assert text[n..][1..] == text[n + 1..] && text[..n + 1] == text[..n] + [text[n]];
  }

  /** The characters before the first NUL, or all of the buffer. */
  method StringSize(bytes: seq<Byte>, maxSize: nat) returns (size: nat)
    ensures size <= |bytes| && bytes[..size] == CString(bytes, maxSize)
  {
    var text := if |bytes| <= maxSize then bytes else bytes[..maxSize];
    size := 0;
    assert text[..0] + UpToNul(text[0..]) == UpToNul(text);
    while size < maxSize && size < |bytes| && bytes[size] != 0
      invariant size <= |text| && text[..size] + UpToNul(text[size..]) == UpToNul(text)
    {
      UpToNulMore(text, size);
      size := size + 1;
    }
    assert UpToNul(text[size..]) == [] && bytes[..size] == text[..size];
  }

  method EncodeRaw(s: OStream, f: Field, v: Value) returns (ok: bool)
    requires s.Valid() && (f.kind.Bytes? || f.kind.Text? || f.kind.FixedBytes?)
    modifies s, s.buffer
    ensures s.Wrote(old(s.Here()), EncodeValue(f, v), ok)
  {
    match f.kind
    case Bytes =>
      if |BytesOf(v)| + BYTES_OFFSET > f.dataSize {
        Refused(s);
        return false;
      }
      ok := EncodeString(s, BytesOf(v));
    case Text =>
      var size := StringSize(BytesOf(v), f.dataSize);
      ok := EncodeString(s, BytesOf(v)[..size]);
    case FixedBytes =>
      ok := EncodeString(s, Window(BytesOf(v), f.dataSize));
  }

  // ----- submessages, arrays and messages -----

  /** Two passes: the first only counts, and the second writes exactly as many bytes. */
  method EncodeSubmessage(s: OStream, d: Descriptor, v: Value) returns (ok: bool)
    requires s.Valid() && IsStatic(d)
    modifies s, s.buffer
    ensures s.Wrote(old(s.Here()), if EncodeMessage(d, v).None? then None else Some(Delimited(EncodeMessage(d, v).value)), ok)
    decreases d, 6
  {
    ghost var start := s.Here();
    var sizing := new OStream.Sizing();
    ok := Encode(sizing, d, v);
    if !ok {
      Refused(s);
      return;
    }
    var size := sizing.bytesWritten;
    ghost var bytes := EncodeMessage(d, v).value;
    ghost var length := Some(Varint(size % U64));
    ok := EncodeVarint(s, size % U64);
    if !ok {
      Stopped(s.writes, s.maxSize, start, s.Here(), length, Some(bytes));
      return;
    }
    ghost var mid := s.Here();
    ok := EncodeSized(s, d, v, size);
    Composed(s.writes, s.maxSize, start, mid, s.Here(), length, Some(bytes), ok);
  }

  /** The second pass. The size never changes between the passes. */
  method EncodeSized(s: OStream, d: Descriptor, v: Value, size: nat) returns (ok: bool)
    requires s.Valid() && IsStatic(d) && EncodeMessage(d, v).Some? && size == |EncodeMessage(d, v).value|
    modifies s, s.buffer
    ensures s.Wrote(old(s.Here()), EncodeMessage(d, v), ok)
    decreases d, 5
  {
    if !s.writes {
      ok := s.Advance(size, EncodeMessage(d, v).value);
      return;
    }
    if s.bytesWritten + size > s.maxSize {
      return false;
    }
    var substream := new OStream(s.buffer, s.state, size);
    var status := Encode(substream, d, v);
    s.bytesWritten := s.bytesWritten + substream.bytesWritten;
    s.state := substream.state;
    assert substream.bytesWritten == size && status;
    ok := substream.bytesWritten == size && status;
  }

  method EncodeAny(s: OStream, f: Field, v: Value) returns (ok: bool)
    requires s.Valid() && IsStaticField(f)
    modifies s, s.buffer
    ensures s.Wrote(old(s.Here()), EncodeValue(f, v), ok)
    decreases f, 0
  {
    if f.kind.Submessage? {
      ok := EncodeSubmessage(s, f.kind.d, v);
    } else if f.kind.Bytes? || f.kind.Text? || f.kind.FixedBytes? {
      ok := EncodeRaw(s, f, v);
    } else {
      ok := EncodeNumber(s, f, v);
    }
  }

  method EncodeWithTag(s: OStream, f: Field, v: Value) returns (ok: bool)
    requires s.Valid() && IsStaticField(f)
    modifies s, s.buffer
    ensures s.Wrote(old(s.Here()), EncodeKeyed(f, v), ok)
    decreases f, 1
  {
    ghost var start, key := s.Here(), Some(Key(f.tag, WireType(f)));
    ok := EncodeTagForField(s, f);
    if !ok {
      Stopped(s.writes, s.maxSize, start, s.Here(), key, EncodeValue(f, v));
      return;
    }
    ghost var mid := s.Here();
    ok := EncodeAny(s, f, v);
    Composed(s.writes, s.maxSize, start, mid, s.Here(), key, EncodeValue(f, v), ok);
  }

  /** Elements of an array, with or without keys. */
  method EncodeElements(s: OStream, f: Field, items: seq<Value>, keyed: bool) returns (ok: bool)
    requires s.Valid() && IsStaticField(f)
    modifies s, s.buffer
    ensures s.Wrote(old(s.Here()), EncodeItems(f, items, keyed), ok)
    decreases f, 2
  {
    ghost var start := s.Here();
    var i := 0;
    Nothing(s.writes, s.maxSize, start);
    assert items[..0] == [];
    while i < |items|
      invariant i <= |items| && s.Wrote(start, EncodeItems(f, items[..i], keyed), true)
    {
      ghost var mid := s.Here();
      ghost var done := EncodeItems(f, items[..i], keyed);
      ghost var next := if keyed then EncodeKeyed(f, items[i]) else EncodeValue(f, items[i]);
      if keyed {
        ok := EncodeWithTag(s, f, items[i]);
      } else {
        ok := EncodeAny(s, f, items[i]);
      }
      Composed(s.writes, s.maxSize, start, mid, s.Here(), done, next, ok);
      ElementsMore(f, items, keyed, i);
      if !ok {
        ElementsStop(s.writes, s.maxSize, start, s.Here(), f, items, keyed, i + 1);
        return;
      }
      i := i + 1;
    }
    assert items[..i] == items;
    ok := true;
  }

  lemma ElementsMore(f: Field, items: seq<Value>, keyed: bool, n: nat)
    requires n < |items|
    ensures EncodeItems(f, items[..n + 1], keyed) ==
            Joined(EncodeItems(f, items[..n], keyed), if keyed then EncodeKeyed(f, items[n]) else EncodeValue(f, items[n]))
  {
    assert items[..n + 1][..n] == items[..n];
  }

  /** Where some elements do not fit, all do not. */
  lemma {:induction false} ElementsStop(
      writes: bool, maxSize: nat, s: Mark, e: Mark, f: Field, items: seq<Value>, keyed: bool, n: nat)
    requires n <= |items| && Extends(writes, maxSize, s, e, EncodeItems(f, items[..n], keyed), false)
    ensures Extends(writes, maxSize, s, e, EncodeItems(f, items, keyed), false)
    decreases |items| - n
  {
    if n == |items| {
      assert items[..n] == items;
    } else {
      ElementsMore(f, items, keyed, n);
      Stopped(writes, maxSize, s, e, EncodeItems(f, items[..n], keyed),
              if keyed then EncodeKeyed(f, items[n]) else EncodeValue(f, items[n]));
      ElementsStop(writes, maxSize, s, e, f, items, keyed, n + 1);
    }
  }

  lemma {:induction false} FixedSizes(f: Field, items: seq<Value>)
    requires f.kind.Fixed32? || f.kind.Fixed64?
    ensures EncodeItems(f, items, false).Some?
    ensures |EncodeItems(f, items, false).value| == if f.kind.Fixed32? then 4 * |items| else 8 * |items|
  {
    if items != [] {
      FixedSizes(f, items[..|items| - 1]);
    }
  }

  /** How many bytes the elements take when they are packed. */
  method PackedSize(f: Field, items: seq<Value>) returns (ok: bool, size: nat)
    requires IsStaticField(f) && IsPackable(f)
    ensures ok == EncodeItems(f, items, false).Some?
    ensures ok ==> size == |EncodeItems(f, items, false).value|
    decreases f, 3
  {
    if f.kind.Fixed32? {
      FixedSizes(f, items);
      ok, size := true, 4 * |items|;
    } else if f.kind.Fixed64? {
      FixedSizes(f, items);
      ok, size := true, 8 * |items|;
    } else {
      var sizing := new OStream.Sizing();
      ok := EncodeElements(sizing, f, items, false);
      size := sizing.bytesWritten;
    }
  }

  /** The length of a packed array, and the array. */
  method EncodePacked(s: OStream, f: Field, items: seq<Value>) returns (ok: bool)
    requires s.Valid() && IsStaticField(f) && IsPackable(f)
    modifies s, s.buffer
    ensures s.Wrote(old(s.Here()), PackedContent(f, items), ok)
    decreases f, 4
  {
    ghost var start := s.Here();
    var size;
    ok, size := PackedSize(f, items);
    if !ok {
      Refused(s);
      return;
    }
    ghost var bytes, length := EncodeItems(f, items, false).value, Some(Varint(size % U64));
    ok := EncodeVarint(s, size % U64);
    if !ok {
      Stopped(s.writes, s.maxSize, start, s.Here(), length, Some(bytes));
      return;
    }
    ghost var mid := s.Here();
    if !s.writes {
      ok := s.Advance(size, bytes);
    } else {
      ok := EncodeElements(s, f, items, false);
    }
    Composed(s.writes, s.maxSize, start, mid, s.Here(), length, Some(bytes), ok);
  }

  function PackedContent(f: Field, items: seq<Value>): Option<seq<Byte>> {
    if EncodeItems(f, items, false).None? then None else Some(Delimited(EncodeItems(f, items, false).value))
  }

  /** An array that is not empty. */
  function ArrayContent(f: Field, items: seq<Value>): Option<seq<Byte>> {
    if items == [] then Some([])
    else if |items| > f.arraySize then None
    else if IsPackable(f) then Joined(Some(Key(f.tag, 2)), PackedContent(f, items))
    else EncodeItems(f, items, true)
  }

  method EncodeArray(s: OStream, f: Field, items: seq<Value>) returns (ok: bool)
    requires s.Valid() && IsStaticField(f)
    modifies s, s.buffer
    ensures s.Wrote(old(s.Here()), ArrayContent(f, items), ok)
    decreases f, 5
  {
    ghost var start := s.Here();
    if |items| == 0 {
      Nothing(s.writes, s.maxSize, start);
      return true;
    }
    if |items| > f.arraySize {
      Refused(s);
      return false;
    }
    if !IsPackable(f) {
      ok := EncodeElements(s, f, items, true);
      return;
    }
    ghost var key := Some(Key(f.tag, 2));
    ok := EncodeTag(s, 2, f.tag);
    if !ok {
      Stopped(s.writes, s.maxSize, start, s.Here(), key, PackedContent(f, items));
      return;
    }
    ghost var mid := s.Here();
    ok := EncodePacked(s, f, items);
    Composed(s.writes, s.maxSize, start, mid, s.Here(), key, PackedContent(f, items), ok);
  }

  // ----- default values -----

  lemma StaticSize(d: Descriptor, i: nat)
    requires IsStatic(d) && i < |d.fields|
    ensures SizeAt(d, i) == DataAt(d, i) + d.fields[i].sizeOffset && IsStaticField(d.fields[i])
  {
    SizeIsAtOffset(d, i);
  }

  /** The iterator is at field n, or past the last. */
  ghost predicate IsAtField(iter: FieldIter, d: Descriptor, n: nat, more: bool)
    reads iter
  {
    iter.Valid() && iter.d == d && n <= |d.fields| && (more <==> n < |d.fields|) && (more ==> iter.pos == n)
  }

  /** Whether a field has the value that is not sent when there is no has flag. */
  method CheckDefault(d: Descriptor, m: Value, i: nat, pData: int) returns (isDefault: bool)
    requires IsStatic(d) && i < |d.fields| && pData == DataAt(d, i)
    ensures isDefault == IsDefaultField(d, m, i)
    decreases d, 0
  {
    var f := d.fields[i];
    var pSize := pData + f.sizeOffset;
    StaticSize(d, i);
    if f.rule == Required {
      isDefault := false;
    } else if f.rule == Repeated || f.rule == OneOf || f.sizeOffset != 0 {
      isDefault := Size(m, pSize) == 0;
    } else {
      isDefault := CheckDefaultValue(f, Slot(m, pData, 0));
    }
  }

  method CheckDefaultValue(f: Field, v: Value) returns (isDefault: bool)
    requires IsStaticField(f)
    ensures isDefault == IsDefaultValue(f, v)
    decreases f, 2
  {
    if f.kind.Bytes? {
      isDefault := |BytesOf(v)| == 0;
    } else if f.kind.Text? {
      isDefault := BytesOf(v) == [] || BytesOf(v)[0] == 0;
    } else if f.kind.FixedBytes? {
      isDefault := f.dataSize == 0;
    } else if f.kind.Submessage? {
      isDefault := CheckDefaultMessage(f.kind.d, v);
    } else {
      isDefault := NumOf(v) == 0;
    }
  }

  method CheckDefaultMessage(d: Descriptor, m: Value) returns (isDefault: bool)
    requires IsStatic(d)
    ensures isDefault == IsDefaultMessage(d, m)
    decreases d, 1
  {
    var iter := new FieldIter(d);
    var more := iter.Begin();
    ghost var n := 0;
    while more
      invariant IsAtField(iter, d, n, more)
      invariant forall i: nat | i < n :: IsDefaultField(d, m, i)
      decreases |d.fields| - n
    {
      isDefault := CheckDefault(d, m, iter.pos, iter.pData);
      if !isDefault {
        return;
      }
      more := iter.Next();
      n := n + 1;
    }
    isDefault := true;
  }

  // ----- messages -----

  lemma ArrayFieldContent(d: Descriptor, m: Value, i: nat)
    requires i < |d.fields| && d.fields[i].rule == Repeated
    ensures EncodeField(d, m, i) == ArrayContent(d.fields[i], Items(d, m, i))
  {
  }

  /** Whether a field that is no array is present. */
  method IsPresent(d: Descriptor, m: Value, i: nat, pData: int) returns (has: bool)
    requires IsStatic(d) && i < |d.fields| && pData == DataAt(d, i) && d.fields[i].rule != Repeated
    ensures has == (Count(d, m, i) > 0)
    decreases d, 0
  {
    var f := d.fields[i];
    StaticSize(d, i);
    var pSize := pData + f.sizeOffset;
    if f.rule == Required {
      has := true;
    } else if f.rule == OneOf {
      has := Size(m, pSize) == f.tag;
    } else if f.sizeOffset != 0 {
      has := Size(m, pSize) != 0;
    } else {
      var isDefault := CheckDefault(d, m, i, pData);
      has := !isDefault;
    }
  }

  method EncodeBasicField(s: OStream, d: Descriptor, m: Value, i: nat, pData: int) returns (ok: bool)
    requires s.Valid() && IsStatic(d) && i < |d.fields| && pData == DataAt(d, i)
    modifies s, s.buffer
    ensures s.Wrote(old(s.Here()), EncodeField(d, m, i), ok)
    decreases d, 2
  {
    var f := d.fields[i];
    StaticSize(d, i);
    if f.rule == Repeated {
      var count := Size(m, pData + f.sizeOffset);
      ArrayFieldContent(d, m, i);
      ok := EncodeArray(s, f, seq(count, (k: nat) => Slot(m, pData, k)));
    } else {
      SingleContent(d, m, i);
      var has := IsPresent(d, m, i, pData);
      if has {
        ok := EncodeWithTag(s, f, Slot(m, pData, 0));
      } else {
        Nothing(s.writes, s.maxSize, s.Here());
        ok := true;
      }
    }
  }

  /** Where some fields do not fit, all do not. */
  lemma {:induction false} FieldsStop(writes: bool, maxSize: nat, s: Mark, e: Mark, d: Descriptor, m: Value, n: nat)
    requires n <= |d.fields| && Extends(writes, maxSize, s, e, EncodeFields(d, m, n), false)
    ensures Extends(writes, maxSize, s, e, EncodeMessage(d, m), false)
    decreases |d.fields| - n
  {
    if n < |d.fields| {
      Stopped(writes, maxSize, s, e, EncodeFields(d, m, n), EncodeField(d, m, n));
      FieldsStop(writes, maxSize, s, e, d, m, n + 1);
    }
  }

  /** One more field. */
  method EncodeNext(s: OStream, d: Descriptor, m: Value, n: nat, pData: int, ghost start: Mark) returns (ok: bool)
    requires s.Valid() && IsStatic(d) && n < |d.fields| && pData == DataAt(d, n)
    requires s.Wrote(start, EncodeFields(d, m, n), true)
    modifies s, s.buffer
    ensures if ok then s.Wrote(start, EncodeFields(d, m, n + 1), true) else s.Wrote(start, EncodeMessage(d, m), false)
    decreases d, 3
  {
    ghost var mid := s.Here();
    ok := EncodeBasicField(s, d, m, n, pData);
    Composed(s.writes, s.maxSize, start, mid, s.Here(), EncodeFields(d, m, n), EncodeField(d, m, n), ok);
    if !ok {
      FieldsStop(s.writes, s.maxSize, start, s.Here(), d, m, n + 1);
    }
  }

  /** Writes exactly the encoding of a message, or fails: when the message has none, or, into a buffer, exactly when it
      does not fit. Only counting never runs out of room. */
  method Encode(s: OStream, d: Descriptor, m: Value) returns (ok: bool)
    requires s.Valid() && IsStatic(d)
    modifies s, s.buffer
    ensures s.Wrote(old(s.Here()), EncodeMessage(d, m), ok)
    decreases d, 4
  {
    ghost var start, n := s.Here(), 0;
    var iter := new FieldIter(d);
    var more := iter.Begin();
    Nothing(s.writes, s.maxSize, start);
    while more
      invariant IsAtField(iter, d, n, more)
      invariant s.Wrote(start, EncodeFields(d, m, n), true)
      decreases |d.fields| - n
    {
      ok := EncodeNext(s, d, m, iter.pos, iter.pData, start);
      if !ok {
        return;
      }
      more := iter.Next();
      n := n + 1;
    }
    ok := true;
  }

  /** The size that a message takes. */
  method GetEncodedSize(d: Descriptor, m: Value) returns (ok: bool, size: nat)
    requires IsStatic(d)
    ensures ok == EncodeMessage(d, m).Some?
    ensures ok ==> size == |EncodeMessage(d, m).value|
  {
    var stream := new OStream.Sizing();
    ok := Encode(stream, d, m);
    size := stream.bytesWritten;
  }

  /** Encoding into a buffer succeeds exactly when the size that was computed fits, and fills exactly that size. */
  method EncodeToBuffer(d: Descriptor, m: Value, buf: array<Byte>) returns (ok: bool, written: nat)
    requires IsStatic(d)
    modifies buf
    ensures ok == (EncodeMessage(d, m).Some? && |EncodeMessage(d, m).value| <= buf.Length)
    ensures ok ==> written <= buf.Length && buf[..written] == EncodeMessage(d, m).value
  {
    var stream := new OStream(buf, 0, buf.Length);
    ok := Encode(stream, d, m);
    written := stream.bytesWritten;
  }
}
