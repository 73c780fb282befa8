/** What does not fit: what the encoder refuses to write, and the decoder to store. */
module PbLimits {
  import opened Common
  import opened PbWire
  import opened PbVarint
  import opened PbField
  import opened PbCodec
  import opened PbBounds
  import opened PbRoundTrip

  /** 2 to the power of one less than the bits of an integer of this many bytes. */
  function Half(size: nat): int {
    match size
    case 1 => 0x80
    case 2 => 0x8000
    case 4 => 0x8000_0000
    case _ => 0x8000_0000_0000_0000
  }

  /** The integer whose two's complement of 32 or 64 bits these are. */
  function FromComplement(u: nat, bits: nat): int {
    if bits == 32 then
      if u % 0x1_0000_0000 < 0x8000_0000 then u % 0x1_0000_0000 else u % 0x1_0000_0000 - 0x1_0000_0000
    else if u < 0x8000_0000_0000_0000 then u
    else u - 0x1_0000_0000_0000_0000
  }

  /** The number that an encoding stands for, by the type of the field: unsigned, signed as of its low 32 bits or of 64
      bits, or zigzag. */
  function NumberOf(f: Field, u: nat): int {
    if f.kind.UInt? then u
    else if f.kind.SInt? then if u % 2 == 0 then u / 2 else -((u + 1) / 2)
    else FromComplement(u, if f.dataSize == 8 then 64 else 32)
  }

  /** A number is stored if and only if its encoding has at most ten bytes and the member can hold it. */
  lemma StoredIfItFits(f: Field, base: Value, s: seq<Septet>, rest: seq<Byte>)
    requires f.kind.Int? || f.kind.UInt? || f.kind.SInt?
    requires s != [] && (f.dataSize == 1 || f.dataSize == 2 || f.dataSize == 4 || f.dataSize == 8)
    ensures
      var n := NumberOf(f, Number(s) % U64);
      DecodeValue(f, base, Encoded(s) + rest) ==
      if |s| <= 10 && (if f.kind.UInt? then n < 2 * Half(f.dataSize) else -Half(f.dataSize) <= n < Half(f.dataSize))
      then Some((Num(n), rest)) else None
  {
    Reads64Exactly(s, rest);
  }

  /** Strings and byte strings are stored if and only if their member has room: with four bytes for the length, with a NUL,
      or exactly. No bytes at all stand for zeros. */
  lemma BytesIfTheyFit(f: Field, base: Value, content: seq<Byte>, rest: seq<Byte>)
    requires (f.kind.Bytes? || f.kind.Text? || f.kind.FixedBytes?) && |content| < U32
    ensures
      DecodeValue(f, base, Delimited(content) + rest) ==
      if f.kind.Bytes? then if |content| + 4 <= f.dataSize then Some((Raw(content), rest)) else None
      else if f.kind.Text? then if |content| < f.dataSize then Some((Raw(UpToNul(content)), rest)) else None
      else if |content| == f.dataSize then Some((Raw(content), rest))
      else if content == [] then Some((Raw(seq(f.dataSize, _ => 0)), rest))
      else None
  {
    StringIsRead(f, content, rest);
    assert f.dataSize == 0 ==> seq(f.dataSize, _ => 0 as Byte) == [];
  }

  /** An element is added to an array only if there is room for it. */
  lemma ElementIfThereIsRoom(d: Descriptor, m: Value, i: nat, wireType: nat, bytes: seq<Byte>)
    requires i < |d.fields| && d.fields[i].rule == Repeated && !(wireType == 2 && IsPackable(d.fields[i]))
    ensures
      var f, size := d.fields[i], Size(m, SizeAt(d, i));
      var r := DecodeField(d, m, i, wireType, bytes);
      && (r.Some? ==> size < f.arraySize && Size(r.value.0, SizeAt(d, i)) == size + 1)
      && (size < f.arraySize ==> (r.Some? <==> DecodeValue(f, Slot(m, DataAt(d, i), size), bytes).Some?))
  {
  }

  /** And so with all elements of a packed array. */
  lemma {:induction false} PackedIfThereIsRoom(f: Field, count: nat, bytes: seq<Byte>)
    requires count <= f.arraySize && DecodePacked(f, count, bytes).Some?
    ensures count + |DecodePacked(f, count, bytes).value| <= f.arraySize
    decreases |bytes|
  {
    if bytes != [] {
      PackedIfThereIsRoom(f, count + 1, DecodeNumber(f, bytes).value.1);
    }
  }

  /** The encoder refuses arrays longer than their members, */
  lemma RefusesLongArrays(d: Descriptor, m: Value, i: nat)
    requires i < |d.fields| && d.fields[i].rule == Repeated && Size(m, SizeAt(d, i)) > d.fields[i].arraySize
    ensures EncodeField(d, m, i) == None
  {
  }

  /** byte strings that do not fit theirs, and integers of odd sizes. */
  lemma RefusesValues(f: Field, v: Value)
    ensures f.kind.Bytes? ==> (EncodeValue(f, v) == None <==> |BytesOf(v)| + 4 > f.dataSize)
    ensures f.kind.Int? || f.kind.UInt? || f.kind.SInt? ==> (EncodeValue(f, v) == None <==> f.dataSize !in {1, 2, 4, 8})
  {
  }
}
