/** The decoder: input streams, substreams, and the methods that read a message field by field. */
module PbDecode {
  import opened Common
  import opened PbWire
  import opened PbField
  import opened PbCodec
  import opened PbBounds

  class IStream {
    const buffer: seq<Byte>
    var state: nat
    var bytesLeft: nat

    ghost predicate Valid()
      reads this
    {
      state + bytesLeft <= |buffer|
    }

    ghost function Rest(): (bytes: seq<Byte>)
      requires Valid()
      reads this
      ensures |bytes| == bytesLeft
    {
      buffer[state..state + bytesLeft]
    }

    /** The same stream, with these bytes still to be read. */
    ghost predicate Left(end: nat, rest: seq<Byte>)
      reads this
    {
      Valid() && state + bytesLeft == end && Rest() == rest
    }

    ghost predicate Keeps(end: nat)
      reads this
    {
      Valid() && state + bytesLeft == end
    }

    /** Also after a failure the stream does not reach beyond its end. */
    ghost predicate Within(end: nat)
      reads this
    {
      Valid() && state + bytesLeft <= end
    }

    constructor (buf: seq<Byte>, from: nat, size: nat)
      requires from + size <= |buf|
      ensures Valid() && buffer == buf && state == from && bytesLeft == size
    {
      buffer, state, bytesLeft := buf, from, size;
    }

    /** Takes bytes off the stream, all or none. */
    method Read(count: nat) returns (ok: bool, bytes: seq<Byte>)
      requires Valid()
      modifies this
      ensures ok == (count <= |old(Rest())|)
      ensures if ok then bytes == old(Rest())[..count] && Left(old(state + bytesLeft), old(Rest())[count..])
              else Left(old(state + bytesLeft), old(Rest()))
    {
      bytes := [];
      if count == 0 {
        return true, [];
      }
      if bytesLeft < count {
        return false, [];
      }
      bytes := buffer[state..state + count];
      state, bytesLeft := state + count, bytesLeft - count;
      ok := true;
    }

    method ReadByte() returns (ok: bool, b: Byte)
      requires Valid()
      modifies this
      ensures ok == (old(Rest()) != [])
      ensures if ok then b == old(Rest())[0] && Left(old(state + bytesLeft), old(Rest())[1..])
              else Left(old(state + bytesLeft), old(Rest()))
    {
      if bytesLeft == 0 {
        return false, 0;
      }
      b := buffer[state];
      state, bytesLeft := state + 1, bytesLeft - 1;
      ok := true;
    }
  }

  // ----- integers -----

  /** The bytes after the first of a 32-bit integer. The position of the next bit wraps around after 37 bytes. */
  method DecodeMore32(s: IStream, first: Byte) returns (ok: bool, value: nat)
    requires s.Valid()
    modifies s
    ensures s.Keeps(old(s.state + s.bytesLeft)) && ok == Read32From(old(s.Rest()), 7, first % 128).Some?
    ensures ok ==>
              var r := Read32From(old(s.Rest()), 7, first % 128).value;
              value == r.0 && s.Rest() == r.1
  {
    ghost var end, all := s.state + s.bytesLeft, s.Rest();
    var bitpos: nat := 7;
    value := first % 128;
    var b := first;
    var more := true;
    while more
      invariant s.Keeps(end) && value < U32
      invariant more ==> Read32From(s.Rest(), bitpos, value) == Read32From(all, 7, first % 128)
      invariant !more ==> Read32From(all, 7, first % 128) ==
                          if bitpos == 35 && b % 128 >= 16 then None else Some((value, s.Rest()))
      decreases s.bytesLeft, more
    {
      assert s.Rest() != [] ==> Read32From(s.Rest(), bitpos, value) == Read32Byte(s.Rest(), bitpos, value);
      ok, b := s.ReadByte();
      if !ok {
        return false, value;
      }
      if bitpos >= 32 {
        var signExtension := if bitpos < 63 then 0xFF else 1;
        if b % 128 != 0 && (value < 0x8000_0000 || b != signExtension) {
          return false, value;
        }
      } else {
        value := Or32(value, Shifted32(b % 128, bitpos));
      }
      bitpos := NextPosition(bitpos);
      more := b >= 128;
    }
    if bitpos == 35 && b % 128 >= 16 {
      return false, value;
    }
    ok := true;
  }

  /** eof tells the end of the stream from an integer that is cut off. */
  method DecodeVarint32Eof(s: IStream) returns (ok: bool, value: nat, eof: bool)
    requires s.Valid()
    modifies s
    ensures s.Keeps(old(s.state + s.bytesLeft)) && ok == Read32(old(s.Rest())).Some?
    ensures ok ==> value == Read32(old(s.Rest())).value.0 && s.Rest() == Read32(old(s.Rest())).value.1
    ensures eof == (old(s.Rest()) == [])
  {
    var b;
    value, eof := 0, false;
    ok, b := s.ReadByte();
    if !ok {
      return false, 0, s.bytesLeft == 0;
    }
    if b < 128 {
      value := b;
    } else {
      ok, value := DecodeMore32(s, b);
    }
  }

  method DecodeVarint32(s: IStream) returns (ok: bool, value: nat)
    requires s.Valid()
    modifies s
    ensures s.Keeps(old(s.state + s.bytesLeft)) && ok == Read32(old(s.Rest())).Some?
    ensures ok ==> value == Read32(old(s.Rest())).value.0 && s.Rest() == Read32(old(s.Rest())).value.1
  {
    var eof;
    ok, value, eof := DecodeVarint32Eof(s);
  }

  method DecodeVarint64(s: IStream) returns (ok: bool, value: nat)
    requires s.Valid()
    modifies s
    ensures s.Keeps(old(s.state + s.bytesLeft)) && ok == Read64(old(s.Rest())).Some?
    ensures ok ==> value == Read64(old(s.Rest())).value.0 && s.Rest() == Read64(old(s.Rest())).value.1
  {
    ghost var end, all := s.state + s.bytesLeft, s.Rest();
    var bitpos: nat, w: nat := 0, 1;
    ghost var k := 0;
    value := 0;
    var more := true;
    while more
      invariant s.Keeps(end) && value < U64 && bitpos == 7 * k
      invariant more ==> Read64From(s.Rest(), k, w, value) == Read64(all)
      invariant !more ==> Read64(all) == Some((value, s.Rest()))
      decreases s.bytesLeft, more
    {
      if bitpos >= 64 {
        return false, value;
      }
      var b;
      ok, b := s.ReadByte();
      if !ok {
        return false, value;
      }
      TimesIsProduct(b % 128, w);
      value := (value + b % 128 * w) % U64;
      bitpos, w, k := bitpos + 7, w * 128, k + 1;
      more := b >= 128;
    }
    ok := true;
  }

  method DecodeSvarint(s: IStream) returns (ok: bool, value: int)
    requires s.Valid()
    modifies s
    ensures s.Keeps(old(s.state + s.bytesLeft)) && ok == Read64(old(s.Rest())).Some?
    ensures ok ==> value == UnZigZag(Read64(old(s.Rest())).value.0) && s.Rest() == Read64(old(s.Rest())).value.1
  {
    var u;
    ok, u := DecodeVarint64(s);
    var half: int := u / 2;
    value := if u % 2 == 1 then -half - 1 else half;
  }

  lemma FourBytes(bytes: seq<Byte>)
    requires |bytes| >= 4
    ensures FromLittleEndian(bytes) == bytes[0] + bytes[1] as nat * 0x100 + bytes[2] as nat * 0x1_0000
                                       + bytes[3] as nat * 0x100_0000 + U32 * FromLittleEndian(bytes[4..])
  {
    assert bytes[1..][1..] == bytes[2..] && bytes[2..][1..] == bytes[3..] && bytes[3..][1..] == bytes[4..];
    assert FromLittleEndian(bytes[3..]) == bytes[3] + 256 * FromLittleEndian(bytes[4..]);
    assert FromLittleEndian(bytes[2..]) == bytes[2] + 256 * FromLittleEndian(bytes[3..]);
    assert FromLittleEndian(bytes[1..]) == bytes[1] + 256 * FromLittleEndian(bytes[2..]);
  }

  method DecodeFixed32(s: IStream) returns (ok: bool, value: nat)
    requires s.Valid()
    modifies s
    ensures s.Keeps(old(s.state + s.bytesLeft)) && ok == DecodeFixed(4, old(s.Rest())).Some?
    ensures ok ==> DecodeFixed(4, old(s.Rest())) == Some((Num(value), s.Rest()))
  {
    var bytes;
    ok, bytes := s.Read(4);
    value := 0;
    if ok {
      FourBytes(bytes);
      assert bytes[4..] == [];
      value := bytes[0] as nat + bytes[1] as nat * 0x100 + bytes[2] as nat * 0x1_0000 + bytes[3] as nat * 0x100_0000;
    }
  }

  method DecodeFixed64(s: IStream) returns (ok: bool, value: nat)
    requires s.Valid()
    modifies s
    ensures s.Keeps(old(s.state + s.bytesLeft)) && ok == DecodeFixed(8, old(s.Rest())).Some?
    ensures ok ==> DecodeFixed(8, old(s.Rest())) == Some((Num(value), s.Rest()))
  {
    var bytes;
    ok, bytes := s.Read(8);
    value := 0;
    if ok {
      FourBytes(bytes);
      FourBytes(bytes[4..]);
      assert bytes[4..][4..] == [];
      value := bytes[0] as nat + bytes[1] as nat * 0x100 + bytes[2] as nat * 0x1_0000 + bytes[3] as nat * 0x100_0000
               + bytes[4] as nat * 0x1_0000_0000 + bytes[5] as nat * 0x100_0000_0000
               + bytes[6] as nat * 0x1_0000_0000_0000 + bytes[7] as nat * 0x100_0000_0000_0000;
    }
  }

  method SkipVarint(s: IStream) returns (ok: bool)
    requires s.Valid()
    modifies s
    ensures s.Keeps(old(s.state + s.bytesLeft)) && ok == SkippedVarint(old(s.Rest())).Some?
    ensures ok ==> s.Rest() == SkippedVarint(old(s.Rest())).value
  {
    ghost var end, all := s.state + s.bytesLeft, s.Rest();
    var more := true;
    while more
      invariant s.Keeps(end)
      invariant if more then SkippedVarint(s.Rest()) == SkippedVarint(all) else SkippedVarint(all) == Some(s.Rest())
      decreases s.bytesLeft, more
    {
      var b;
      ok, b := s.ReadByte();
      if !ok {
        return;
      }
      more := b >= 128;
    }
    ok := true;
  }

  // ----- substreams -----

  /** A substream of as many bytes as the length says. The stream stays where it is until the substream is closed. */
  method MakeSubstream(s: IStream) returns (ok: bool, sub: IStream)
    requires s.Valid()
    modifies s
    ensures s.Within(old(s.state + s.bytesLeft)) && fresh(sub) && sub.Valid()
    ensures ok == Undelimited(old(s.Rest())).Some?
    ensures ok ==>
              && sub.buffer == s.buffer && sub.Rest() == Undelimited(old(s.Rest())).value.0
              && sub.state + sub.bytesLeft + s.bytesLeft == old(s.state + s.bytesLeft)
              && s.buffer[sub.state + sub.bytesLeft..old(s.state + s.bytesLeft)] == Undelimited(old(s.Rest())).value.1
    ensures !ok ==> s.Keeps(old(s.state + s.bytesLeft))
  {
    var size;
    ok, size := DecodeVarint32(s);
    sub := new IStream(s.buffer, s.state, 0);
    if !ok {
      return;
    }
    if s.bytesLeft < size {
      return false, sub;
    }
    sub := new IStream(s.buffer, s.state, size);
    s.bytesLeft := s.bytesLeft - size;
  }

  /** What is left of the substream is skipped, and the stream goes on after it. */
  method CloseSubstream(s: IStream, sub: IStream)
    requires s.Valid() && sub.Valid() && s != sub && sub.buffer == s.buffer
    requires sub.state + sub.bytesLeft + s.bytesLeft <= |s.buffer|
    modifies s, sub
    ensures s.Valid() && s.state == old(sub.state + sub.bytesLeft) && s.bytesLeft == old(s.bytesLeft)
  {
    var ok, bytes := sub.Read(sub.bytesLeft);
    s.state := sub.state;
  }

  /** A length and as many bytes. */
  method ReadContent(s: IStream, size: nat, ghost all: seq<Byte>) returns (ok: bool, bytes: seq<Byte>)
    requires s.Valid() && Read32(all) == Some((size, s.Rest()))
    modifies s
    ensures s.Keeps(old(s.state + s.bytesLeft)) && ok == Undelimited(all).Some?
    ensures ok ==> Undelimited(all) == Some((bytes, s.Rest()))
  {
    ok, bytes := s.Read(size);
  }

  method SkipField(s: IStream, wireType: nat) returns (ok: bool)
    requires s.Valid()
    modifies s
    ensures s.Keeps(old(s.state + s.bytesLeft)) && ok == Skipped(wireType, old(s.Rest())).Some?
    ensures ok ==> s.Rest() == Skipped(wireType, old(s.Rest())).value
  {
    var bytes;
    if wireType == 0 {
      ok := SkipVarint(s);
    } else if wireType == 1 {
      ok, bytes := s.Read(8);
    } else if wireType == 2 {
      ghost var all := s.Rest();
      var size;
      ok, size := DecodeVarint32(s);
      if ok {
        ok, bytes := ReadContent(s, size, all);
      }
    } else if wireType == 5 {
      ok, bytes := s.Read(4);
    } else {
      ok := false;
    }
  }

  // ----- values -----

  /** The value that is stored in a member of this many bytes. */
  function Stored(n: int, size: nat): int {
    Signed(Unsigned(n, size), size)
  }

  lemma StoredIsSame(n: int, size: nat)
    ensures Stored(n, size) == n <==> IsSigned(n, size)
  {
  }

  /** The number a field stores, unless it does not fit. */
  method Clamp(f: Field, n: int) returns (ok: bool)
    requires f.kind.UInt? ==> n >= 0
    ensures ok == (IsWidth(f.dataSize) && if f.kind.UInt? then n < Range(f.dataSize) else IsSigned(n, f.dataSize))
  {
    if f.dataSize != 1 && f.dataSize != 2 && f.dataSize != 4 && f.dataSize != 8 {
      return false;
    }
    var clamped := if f.kind.UInt? then Unsigned(n, f.dataSize) else Stored(n, f.dataSize);
    StoredIsSame(n, f.dataSize);
    ok := clamped == n;
  }

  method DecodeInt(s: IStream, f: Field) returns (ok: bool, v: Value)
    requires s.Valid() && (f.kind.Int? || f.kind.UInt?)
    modifies s
    ensures s.Keeps(old(s.state + s.bytesLeft)) && ok == DecodeVarint(f, old(s.Rest())).Some?
    ensures ok ==> DecodeVarint(f, old(s.Rest())) == Some((v, s.Rest()))
  {
    var u: nat;
    v := Num(0);
    ok, u := DecodeVarint64(s);
    if !ok {
      return;
    }
    var n: int := u;
    if f.kind.Int? {
      n := if f.dataSize == 8 then Signed(u, 8) else Signed(Unsigned(u, 4), 4);
    }
    ok := Clamp(f, n);
    v := Num(n);
  }

  method DecodeSint(s: IStream, f: Field) returns (ok: bool, v: Value)
    requires s.Valid() && f.kind.SInt?
    modifies s
    ensures s.Keeps(old(s.state + s.bytesLeft)) && ok == DecodeVarint(f, old(s.Rest())).Some?
    ensures ok ==> DecodeVarint(f, old(s.Rest())) == Some((v, s.Rest()))
  {
    var n;
    v := Num(0);
    ok, n := DecodeSvarint(s);
    if !ok {
      return;
    }
    ok := Clamp(f, n);
    v := Num(n);
  }

  method DecodeNumberFrom(s: IStream, f: Field) returns (ok: bool, v: Value)
    requires s.Valid() && IsPackable(f)
    modifies s
    ensures s.Keeps(old(s.state + s.bytesLeft)) && ok == DecodeNumber(f, old(s.Rest())).Some?
    ensures ok ==> DecodeNumber(f, old(s.Rest())) == Some((v, s.Rest()))
  {
    var u;
    if f.kind.Bool? {
      ok, u := DecodeVarint32(s);
      v := Num(if u != 0 then 1 else 0);
    } else if f.kind.Fixed32? {
      ok, u := DecodeFixed32(s);
      v := Num(u);
    } else if f.kind.Fixed64? {
      ok, u := DecodeFixed64(s);
      v := Num(u);
    } else if f.kind.SInt? {
      ok, v := DecodeSint(s, f);
    } else {
      ok, v := DecodeInt(s, f);
    }
  }

  method DecodeRaw(s: IStream, f: Field, base: Value) returns (ok: bool, v: Value)
    requires s.Valid() && (f.kind.Bytes? || f.kind.Text? || f.kind.FixedBytes?)
    modifies s
    ensures s.Keeps(old(s.state + s.bytesLeft)) && ok == DecodeValue(f, base, old(s.Rest())).Some?
    ensures ok ==> DecodeValue(f, base, old(s.Rest())) == Some((v, s.Rest()))
  {
    ghost var all := s.Rest();
    var size, bytes;
    v := Raw([]);
    ok, size := DecodeVarint32(s);
    if !ok {
      return;
    }
    if f.kind.Bytes? {
      if size + BYTES_OFFSET > f.dataSize {
        return false, v;
      }
    } else if f.kind.Text? {
      if size + 1 > f.dataSize {
        return false, v;
      }
    } else if size == 0 {
      assert s.Rest()[..0] == [] && s.Rest()[0..] == s.Rest();
      return true, ZeroValue(f);
    } else if size != f.dataSize {
      return false, v;
    }
    ok, bytes := ReadContent(s, size, all);
    v := Raw(if f.kind.Text? then UpToNul(bytes) else bytes);
  }

  // ----- defaults -----

  method SetToDefault(d: Descriptor, m: Value, i: nat, pData: int, pSize: int) returns (w: Value)
    requires IsStatic(d) && i < |d.fields| && pData == DataAt(d, i) && pSize == SizeAt(d, i)
    ensures w == SetDefault(d, m, i)
    decreases d, 0
  {
    var f := d.fields[i];
    SizeIsAtOffset(d, i);
    assert IsStaticField(f);
    w := m;
    var initData := true;
    if f.rule == Optional && pSize != pData {
      w := PutSize(w, pSize, 0);
    } else if f.rule == Repeated || f.rule == OneOf {
      w := PutSize(w, pSize, 0);
      initData := false;
    }
    if initData {
      var v;
      if f.kind.Submessage? {
        v := SetToDefaults(f.kind.d, Slot(m, pData, 0));
      } else if f.initial.Some? {
        v := f.initial.value;
      } else {
        v := ZeroValue(f);
      }
      w := Put(w, pData, 0, v);
    }
  }

  method SetToDefaults(d: Descriptor, m: Value) returns (w: Value)
    requires IsStatic(d)
    ensures w == SetDefaults(d, m)
    decreases d, 1
  {
    w := m;
    var iter := new FieldIter(d);
    var more := iter.Begin();
    ghost var n := 0;
    while more
      invariant iter.Valid() && iter.d == d && n <= |d.fields| && (more <==> n < |d.fields|) && (more ==> iter.pos == n)
      invariant w == SetFirstDefaults(d, m, n)
      decreases |d.fields| - n
    {
      w := SetToDefault(d, w, iter.pos, iter.pData, iter.pSize);
      more := iter.Next();
      n := n + 1;
    }
  }

  // ----- the required fields that were seen -----

  function FirstBits(k: nat): (bits: set<nat>)
    ensures forall x: nat :: x in bits <==> x < k
  {
    if k == 0 then {} else FirstBits(k - 1) + {k - 1}
  }

  ghost predicate IsSeenRequired(d: Descriptor, seen: set<nat>, i: nat, b: nat) {
    i < |d.fields| && i in seen && d.fields[i].rule == Required && RequiredBefore(d, i) == b
  }

  /** Two words of 32 bits, a word being the set of the positions of its bits: bit b is the required field with index b. */
  ghost predicate Tracks(d: Descriptor, words: seq<set<nat>>, seen: set<nat>) {
    && |words| == 2 && (forall x | x in words[0] :: x < 32) && (forall x | x in words[1] :: x < 32)
    && (d.fields != [] ==>
          forall b: nat | b < MAX_REQUIRED :: b % 32 in words[b / 32] <==> exists i: nat :: IsSeenRequired(d, seen, i, b))
  }

  lemma {:induction false} IndicesIncrease(d: Descriptor, i: nat, j: nat)
    requires i <= j <= |d.fields|
    ensures RequiredBefore(d, i) <= RequiredBefore(d, j)
    ensures i < j && d.fields[i].rule == Required ==> RequiredBefore(d, i) < RequiredBefore(d, j)
    decreases j - i
  {
    if i < j {
      IndicesIncrease(d, i, j - 1);
    }
  }

  lemma {:induction false} IndexIsOf(d: Descriptor, b: nat, n: nat) returns (i: nat)
    requires n <= |d.fields| && b < RequiredBefore(d, n)
    ensures i < n && d.fields[i].rule == Required && RequiredBefore(d, i) == b
  {
    if d.fields[n - 1].rule == Required && RequiredBefore(d, n - 1) == b {
      i := n - 1;
    } else {
      i := IndexIsOf(d, b, n - 1);
    }
  }

  lemma MarkTracks(d: Descriptor, words: seq<set<nat>>, seen: set<nat>, i: nat, words': seq<set<nat>>)
    requires Tracks(d, words, seen) && i < |d.fields|
    requires var b := RequiredBefore(d, i);
             words' == if d.fields[i].rule == Required && b < MAX_REQUIRED then words[b / 32 := words[b / 32] + {b % 32}] else words
    ensures Tracks(d, words', seen + {i})
  {
    forall b: nat | b < MAX_REQUIRED
      ensures b % 32 in words'[b / 32] <==> exists j: nat :: IsSeenRequired(d, seen + {i}, j, b)
    {
      if exists j: nat :: IsSeenRequired(d, seen, j, b) {
        var j: nat :| IsSeenRequired(d, seen, j, b);
        assert IsSeenRequired(d, seen + {i}, j, b);
      }
      if d.fields[i].rule == Required && RequiredBefore(d, i) == b {
        assert IsSeenRequired(d, seen + {i}, i, b);
      }
      if exists j: nat :: IsSeenRequired(d, seen + {i}, j, b) {
        var j: nat :| IsSeenRequired(d, seen + {i}, j, b);
        assert j == i || IsSeenRequired(d, seen, j, b);
      }
    }
  }

  /** The tracked required fields were all seen exactly when the bits below their number are set. */
  lemma AllBitsAreRequired(d: Descriptor, words: seq<set<nat>>, seen: set<nat>, count: nat)
    requires Tracks(d, words, seen) && d.fields != []
    requires count == if RequiredBefore(d, |d.fields|) > MAX_REQUIRED then MAX_REQUIRED else RequiredBefore(d, |d.fields|)
    ensures AllRequired(d, seen) <==> forall b: nat | b < count :: b % 32 in words[b / 32]
    ensures forall b: nat | b < MAX_REQUIRED && b % 32 in words[b / 32] :: b < count
  {
    forall b: nat | b < MAX_REQUIRED && b % 32 in words[b / 32] ensures b < count {
      var i: nat :| IsSeenRequired(d, seen, i, b);
      IndicesIncrease(d, i, |d.fields|);
    }
    if AllRequired(d, seen) {
      forall b: nat | b < count ensures b % 32 in words[b / 32] {
        var i := IndexIsOf(d, b, |d.fields|);
        assert IsSeenRequired(d, seen, i, b);
      }
    }
    if forall b: nat | b < count :: b % 32 in words[b / 32] {
      BitsGiveRequired(d, words, seen, count);
    }
  }

  lemma BitsGiveRequired(d: Descriptor, words: seq<set<nat>>, seen: set<nat>, count: nat)
    requires Tracks(d, words, seen) && d.fields != []
    requires count == if RequiredBefore(d, |d.fields|) > MAX_REQUIRED then MAX_REQUIRED else RequiredBefore(d, |d.fields|)
    requires forall b: nat | b < count :: b % 32 in words[b / 32]
    ensures AllRequired(d, seen)
  {
    forall i: nat | i < |d.fields| && d.fields[i].rule == Required && RequiredBefore(d, i) < MAX_REQUIRED ensures i in seen {
      IndicesIncrease(d, i, |d.fields|);
      var b := RequiredBefore(d, i);
      assert b % 32 in words[b / 32];
      var j: nat :| IsSeenRequired(d, seen, j, b);
      if i < j {
        IndicesIncrease(d, i, j);
      } else {
        IndicesIncrease(d, j, i);
      }
    }
  }

  /** Whole words, and what is left of the last. */
  method CheckBits(words: seq<set<nat>>, count: nat) returns (ok: bool)
    requires |words| == 2 && (forall x | x in words[0] :: x < 32) && (forall x | x in words[1] :: x < 32)
    requires count <= MAX_REQUIRED && forall b: nat | b < MAX_REQUIRED && b % 32 in words[b / 32] :: b < count
    ensures ok <==> forall b: nat | b < count :: b % 32 in words[b / 32]
  {
    var i := 0;
    while i < count / 32
      invariant i <= count / 32 && forall b: nat | b < 32 * i :: b % 32 in words[b / 32]
    {
      if words[i] != FirstBits(32) {
        MissingBit(words, i, 32);
        return false;
      }
      assert forall b: nat | 32 * i <= b < 32 * (i + 1) :: b / 32 == i && b % 32 in FirstBits(32);
      i := i + 1;
    }
    if count % 32 != 0 {
      if words[i] != FirstBits(count % 32) {
        ExtraBit(words, i, count);
        MissingBit(words, i, count % 32);
        return false;
      }
      assert forall b: nat | 32 * i <= b < count :: b / 32 == i && b % 32 in FirstBits(count % 32);
    }
    ok := true;
  }

  lemma MissingBit(words: seq<set<nat>>, q: nat, k: nat)
    requires q < |words| && k <= 32 && words[q] != FirstBits(k) && words[q] <= FirstBits(k)
    ensures exists b: nat :: 32 * q <= b < 32 * q + k && b % 32 !in words[b / 32]
  {
    var x: nat :| x in FirstBits(k) && x !in words[q];
    var b := 32 * q + x;
    assert b / 32 == q && b % 32 == x;
  }

  lemma ExtraBit(words: seq<set<nat>>, q: nat, count: nat)
    requires |words| == 2 && q < 2 && q == count / 32 && forall x | x in words[q] :: x < 32
    requires forall b: nat | b < MAX_REQUIRED && b % 32 in words[b / 32] :: b < count
    ensures words[q] <= FirstBits(count % 32)
  {
    forall x | x in words[q] ensures x < count % 32 {
      var b := 32 * q + x;
      assert b / 32 == q && b % 32 == x;
    }
  }

  // ----- fields -----

  lemma {:induction false} PutAllMore(m: Value, at: int, k: nat, values: seq<Value>, v: Value)
    ensures PutAll(m, at, k, values + [v]) == Put(PutAll(m, at, k, values), at, k + |values|, v)
    decreases |values|
  {
    if values == [] {
      assert PutAll(m, at, k, [v]) == PutAll(Put(m, at, k, v), at, k + 1, []);
    } else {
      assert (values + [v])[0] == values[0] && (values + [v])[1..] == values[1..] + [v];
      PutAllMore(Put(m, at, k, values[0]), at, k + 1, values[1..], v);
    }
  }

  function Prepended(done: seq<Value>, more: Option<seq<Value>>): Option<seq<Value>> {
    if more.None? then None else Some(done + more.value)
  }

  lemma PackedMore(f: Field, count: nat, bytes: seq<Byte>, done: seq<Value>)
    requires bytes != [] && count < f.arraySize && DecodeNumber(f, bytes).Some?
    ensures var (v, rest) := DecodeNumber(f, bytes).value;
            Prepended(done, DecodePacked(f, count, bytes)) == Prepended(done + [v], DecodePacked(f, count + 1, rest))
  {
    var (v, rest) := DecodeNumber(f, bytes).value;
    var others := DecodePacked(f, count + 1, rest);
    if others.Some? {
      assert done + ([v] + others.value) == done + [v] + others.value;
    }
  }

  /** A packed array: as many elements as there are bytes for, and room for all of them. */
  method DecodePackedFrom(sub: IStream, f: Field, m: Value, pData: int, count: nat)
    returns (ok: bool, w: Value, size: nat, ghost values: Option<seq<Value>>)
    requires sub.Valid() && IsPackable(f)
    modifies sub
    ensures sub.Keeps(old(sub.state + sub.bytesLeft))
    ensures values == DecodePacked(f, count, old(sub.Rest())) && ok == values.Some?
    ensures ok ==> w == PutAll(m, pData, count, values.value) && size == count + |values.value|
  {
    ghost var end, done := sub.state + sub.bytesLeft, [];
    values := DecodePacked(f, count, sub.Rest());
    PackedStarts(values);
    w, size, ok := m, count, true;
    while sub.bytesLeft > 0 && size < f.arraySize
      invariant sub.Keeps(end) && size == count + |done| && w == PutAll(m, pData, count, done) && ok
      invariant values == Prepended(done, DecodePacked(f, size, sub.Rest()))
      decreases sub.bytesLeft
    {
      PackedStep(f, size, sub.Rest(), done);
      var v;
      ok, v := DecodeNumberFrom(sub, f);
      if !ok {
        return;
      }
      PutAllMore(m, pData, count, done, v);
      w := Put(w, pData, size, v);
      size := size + 1;
      done := done + [v];
    }
    PackedEnds(f, size, sub.Rest(), done);
    if sub.bytesLeft != 0 {
      return false, w, size, values;
    }
  }

  lemma PackedStarts(values: Option<seq<Value>>)
    ensures Prepended([], values) == values
  {
    assert values.Some? ==> [] + values.value == values.value;
  }

  lemma PackedEnds(f: Field, count: nat, bytes: seq<Byte>, done: seq<Value>)
    requires bytes == [] || count >= f.arraySize
    ensures Prepended(done, DecodePacked(f, count, bytes)) == if bytes == [] then Some(done) else None
  {
    assert done + [] == done;
  }

  lemma PackedStep(f: Field, count: nat, bytes: seq<Byte>, done: seq<Value>)
    requires bytes != [] && count < f.arraySize
    ensures if DecodeNumber(f, bytes).None? then DecodePacked(f, count, bytes).None?
            else var (v, rest) := DecodeNumber(f, bytes).value;
                 Prepended(done, DecodePacked(f, count, bytes)) == Prepended(done + [v], DecodePacked(f, count + 1, rest))
  {
    if DecodeNumber(f, bytes).Some? {
      PackedMore(f, count, bytes, done);
    }
  }

  lemma PackedIsField(d: Descriptor, m: Value, i: nat, bytes: seq<Byte>)
    requires i < |d.fields| && d.fields[i].rule == Repeated && IsPackable(d.fields[i])
    ensures Undelimited(bytes).None? ==> DecodeField(d, m, i, 2, bytes).None?
    ensures Undelimited(bytes).Some? ==>
              var count := Size(m, SizeAt(d, i));
              var values := DecodePacked(d.fields[i], count, Undelimited(bytes).value.0);
              DecodeField(d, m, i, 2, bytes) ==
              if values.None? then None
              else Some((PutSize(PutAll(m, DataAt(d, i), count, values.value), SizeAt(d, i), count + |values.value|),
                         Undelimited(bytes).value.1))
  {
  }

  method DecodePackedField(s: IStream, d: Descriptor, m: Value, i: nat, pData: int, pSize: int) returns (ok: bool, w: Value)
    requires s.Valid() && i < |d.fields| && d.fields[i].rule == Repeated && IsPackable(d.fields[i])
    requires pData == DataAt(d, i) && pSize == SizeAt(d, i)
    modifies s
    ensures s.Within(old(s.state + s.bytesLeft)) && ok == DecodeField(d, m, i, 2, old(s.Rest())).Some?
    ensures ok ==> s.Keeps(old(s.state + s.bytesLeft)) && DecodeField(d, m, i, 2, old(s.Rest())) == Some((w, s.Rest()))
  {
    var sub, size;
    w := m;
    PackedIsField(d, m, i, s.Rest());
    ok, sub := MakeSubstream(s);
    if !ok {
      return;
    }
    ghost var values;
    ok, w, size, values := DecodePackedFrom(sub, d.fields[i], m, pData, Size(m, pSize));
    if ok {
      CloseSubstream(s, sub);
      w := PutSize(w, pSize, size);
    }
  }

  /** Any value: the decoder of its type. */
  method DecodeAny(s: IStream, f: Field, base: Value) returns (ok: bool, v: Value)
    requires s.Valid() && IsStaticField(f)
    modifies s
    ensures s.Within(old(s.state + s.bytesLeft)) && ok == DecodeValue(f, base, old(s.Rest())).Some?
    ensures ok ==> s.Keeps(old(s.state + s.bytesLeft)) && DecodeValue(f, base, old(s.Rest())) == Some((v, s.Rest()))
    decreases f, 2
  {
    if f.kind.Submessage? {
      ok, v := DecodeSubmessage(s, f, base);
    } else if f.kind.Bytes? || f.kind.Text? || f.kind.FixedBytes? {
      ok, v := DecodeRaw(s, f, base);
    } else {
      ok, v := DecodeNumberFrom(s, f);
    }
  }

  /** Elements of an array start from defaults; other submessages go on from what they are. */
  method DecodeContent(sub: IStream, f: Field, base: Value) returns (ok: bool, v: Value)
    requires sub.Valid() && IsStaticField(f) && f.kind.Submessage?
    modifies sub
    ensures sub.Within(old(sub.state + sub.bytesLeft))
    ensures var r := DecodeMessage(f.kind.d, if f.rule == Repeated then SetDefaults(f.kind.d, base) else base, old(sub.Rest()));
            ok == r.Some? && (ok ==> r == Some(v) && sub.Keeps(old(sub.state + sub.bytesLeft)))
    decreases f, 0
  {
    v := base;
    if f.rule == Repeated {
      v := SetToDefaults(f.kind.d, base);
    }
    ok, v := DecodeNoInitFrom(sub, f.kind.d, v);
  }

  method DecodeSubmessage(s: IStream, f: Field, base: Value) returns (ok: bool, v: Value)
    requires s.Valid() && IsStaticField(f) && f.kind.Submessage?
    modifies s
    ensures s.Within(old(s.state + s.bytesLeft)) && ok == DecodeValue(f, base, old(s.Rest())).Some?
    ensures ok ==> s.Keeps(old(s.state + s.bytesLeft)) && DecodeValue(f, base, old(s.Rest())) == Some((v, s.Rest()))
    decreases f, 1
  {
    var sub;
    v := base;
    ok, sub := MakeSubstream(s);
    if !ok {
      return;
    }
    ok, v := DecodeContent(sub, f, base);
    CloseSubstream(s, sub);
  }

  /** A union that turns to a submessage is zeroed and set to defaults first. */
  method PrepareUnion(d: Descriptor, m: Value, i: nat, pData: int, pSize: int) returns (base: Value)
    requires IsStatic(d) && i < |d.fields| && pData == DataAt(d, i) && pSize == SizeAt(d, i)
    ensures base == Base(d, m, i)
  {
    var f := d.fields[i];
    assert IsStaticField(f);
    base := Slot(m, pData, 0);
    if f.rule == OneOf && f.kind.Submessage? && Size(m, pSize) != f.tag {
      base := SetToDefaults(f.kind.d, ZeroStruct(f.kind.d, |f.kind.d.fields|));
    }
  }

  /** An element of an array that is not packed. */
  method DecodeElement(s: IStream, d: Descriptor, m: Value, i: nat, wireType: nat, pData: int, pSize: int)
    returns (ok: bool, w: Value)
    requires s.Valid() && IsStatic(d) && i < |d.fields| && pData == DataAt(d, i) && pSize == SizeAt(d, i)
    requires d.fields[i].rule == Repeated && !(wireType == 2 && IsPackable(d.fields[i]))
    modifies s
    ensures s.Within(old(s.state + s.bytesLeft)) && ok == DecodeField(d, m, i, wireType, old(s.Rest())).Some?
    ensures ok ==> s.Keeps(old(s.state + s.bytesLeft)) && DecodeField(d, m, i, wireType, old(s.Rest())) == Some((w, s.Rest()))
    decreases d, 0
  {
    var f, size := d.fields[i], Size(m, pSize);
    assert IsStaticField(f);
    w := m;
    if size >= f.arraySize {
      return false, w;
    }
    var v;
    ok, v := DecodeAny(s, f, Slot(m, pData, size));
    w := PutSize(Put(m, pData, size, v), pSize, size + 1);
  }

  method DecodeSingle(s: IStream, d: Descriptor, m: Value, i: nat, wireType: nat, pData: int, pSize: int)
    returns (ok: bool, w: Value)
    requires s.Valid() && IsStatic(d) && i < |d.fields| && pData == DataAt(d, i) && pSize == SizeAt(d, i)
    requires d.fields[i].rule != Repeated
    modifies s
    ensures s.Within(old(s.state + s.bytesLeft)) && ok == DecodeField(d, m, i, wireType, old(s.Rest())).Some?
    ensures ok ==> s.Keeps(old(s.state + s.bytesLeft)) && DecodeField(d, m, i, wireType, old(s.Rest())) == Some((w, s.Rest()))
    decreases d, 0
  {
    var f := d.fields[i];
    SizeIsAtOffset(d, i);
    assert IsStaticField(f);
    var base := PrepareUnion(d, m, i, pData, pSize);
    w := m;
    if f.rule == Optional && pSize != pData {
      w := PutSize(w, pSize, 1);
    } else if f.rule == OneOf {
      w := PutSize(w, pSize, f.tag);
    }
    var v;
    ok, v := DecodeAny(s, f, base);
    w := Put(w, pData, 0, v);
  }

  method DecodeStaticField(s: IStream, d: Descriptor, m: Value, i: nat, wireType: nat, pData: int, pSize: int)
    returns (ok: bool, w: Value)
    requires s.Valid() && IsStatic(d) && i < |d.fields| && pData == DataAt(d, i) && pSize == SizeAt(d, i)
    modifies s
    ensures s.Within(old(s.state + s.bytesLeft)) && ok == DecodeField(d, m, i, wireType, old(s.Rest())).Some?
    ensures ok ==> s.Keeps(old(s.state + s.bytesLeft)) && DecodeField(d, m, i, wireType, old(s.Rest())) == Some((w, s.Rest()))
    decreases d, 1
  {
    if d.fields[i].rule != Repeated {
      ok, w := DecodeSingle(s, d, m, i, wireType, pData, pSize);
    } else if wireType == 2 && IsPackable(d.fields[i]) {
      ok, w := DecodePackedField(s, d, m, i, pData, pSize);
    } else {
      ok, w := DecodeElement(s, d, m, i, wireType, pData, pSize);
    }
  }

  // ----- messages -----

  /** A key of zero ends a message, as the end of the stream does. */
  method DecodeTag(s: IStream) returns (ok: bool, wireType: nat, tag: nat, eof: bool)
    requires s.Valid() && s.bytesLeft > 0
    modifies s
    ensures s.Within(old(s.state + s.bytesLeft))
    ensures match Read32(old(s.Rest()))
            case None => !ok && !eof
            case Some((key, rest)) =>
              && s.Left(old(s.state + s.bytesLeft), rest) && ok == (key != 0) && eof == (key == 0)
              && (ok ==> tag == key / 8 && wireType == key % 8)
  {
    var temp;
    wireType, tag := 0, 0;
    ok, temp, eof := DecodeVarint32Eof(s);
    if !ok {
      return;
    }
    if temp == 0 {
      return false, 0, 0, true;
    }
    tag, wireType := temp / 8, temp % 8;
  }

  /** A field of the list: its bit is set if it is required, and it is decoded. */
  method DecodeKnown(s: IStream, d: Descriptor, m: Value, iter: FieldIter, words: seq<set<nat>>, wireType: nat, ghost seen: set<nat>)
    returns (ok: bool, w: Value, words': seq<set<nat>>)
    requires s.Valid() && iter.Valid() && iter.d == d && iter.pos < |d.fields| && IsStatic(d) && Tracks(d, words, seen)
    modifies s
    ensures s.Within(old(s.state + s.bytesLeft)) && ok == DecodeField(d, m, iter.pos, wireType, old(s.Rest())).Some?
    ensures Tracks(d, words', seen + {iter.pos})
    ensures ok ==>
              && s.Keeps(old(s.state + s.bytesLeft))
              && DecodeField(d, m, iter.pos, wireType, old(s.Rest())) == Some((w, s.Rest()))
    decreases d, 2
  {
    words' := words;
    if d.fields[iter.pos].rule == Required && iter.requiredIndex < MAX_REQUIRED {
      words' := words[iter.requiredIndex / 32 := words[iter.requiredIndex / 32] + {iter.requiredIndex % 32}];
    }
    MarkTracks(d, words, seen, iter.pos, words');
    ok, w := DecodeStaticField(s, d, m, iter.pos, wireType, iter.pData, iter.pSize);
  }

  /** The terminator of an empty list reads as a required boolean at the start of the struct. */
  method DecodeTerminator(s: IStream, d: Descriptor, m: Value, words: seq<set<nat>>, wireType: nat, ghost p: Decoded)
    returns (ok: bool, w: Value, words': seq<set<nat>>)
    requires s.Valid() && d.fields == [] && p.m == m && |s.Rest()| < |p.rest| && wireType < 8 && Tracks(d, words, p.seen)
    modifies s
    ensures s.Within(old(s.state + s.bytesLeft)) && ok == DecodeKeyed(d, p, wireType, old(s.Rest())).Some? && Tracks(d, words', p.seen)
    ensures ok ==>
              && s.Keeps(old(s.state + s.bytesLeft))
              && DecodeKeyed(d, p, wireType, old(s.Rest())) == Some(p.(m := w, rest := s.Rest()))
  {
    var u;
    words' := words[0 := words[0] + {0}];
    ok, u := DecodeVarint32(s);
    w := Put(m, 0, 0, Num(if u != 0 then 1 else 0));
  }

  /** The field after a key. */
  method DecodeAfterKey(s: IStream, d: Descriptor, m: Value, iter: FieldIter, words: seq<set<nat>>, tag: nat, wireType: nat,
                        ghost p: Decoded) returns (ok: bool, w: Value, words': seq<set<nat>>, ghost p': Decoded)
    requires s.Valid() && iter.Valid() && iter.d == d && IsStatic(d)
    requires p.m == m && |s.Rest()| < |p.rest| && wireType < 8 && Tracks(d, words, p.seen)
    modifies s, iter
    ensures s.Within(old(s.state + s.bytesLeft)) && iter.Valid()
    ensures ok == DecodeKeyed(d, p, tag * 8 + wireType, old(s.Rest())).Some?
    ensures ok ==>
              && s.Keeps(old(s.state + s.bytesLeft)) && DecodeKeyed(d, p, tag * 8 + wireType, old(s.Rest())) == Some(p')
              && p'.m == w && p'.rest == s.Rest() && Tracks(d, words', p'.seen)
    decreases d, 3
  {
    w, words', p' := m, words, p;
    var found := iter.Find(tag);
    if !found {
      UnknownKey(d, p, tag, wireType, s.Rest());
      ok := SkipField(s, wireType);
      p' := p.(rest := s.Rest());
    } else if d.fields == [] {
      ok, w, words' := DecodeTerminator(s, d, m, words, wireType, p);
      p' := p.(m := w, rest := s.Rest());
    } else {
      KnownKey(d, p, tag, wireType, s.Rest(), iter.pos);
      ok, w, words' := DecodeKnown(s, d, m, iter, words, wireType, p.seen);
      p' := Decoded(w, p.seen + {iter.pos}, s.Rest());
    }
  }

  /** The next key, or the end. */
  method TakeTag(s: IStream, d: Descriptor, ghost p: Decoded) returns (ok: bool, ended: bool, wireType: nat, tag: nat)
    requires s.Valid() && s.bytesLeft > 0 && p.rest == s.Rest()
    modifies s
    ensures s.Within(old(s.state + s.bytesLeft))
    ensures !ok && !ended ==> DecodeFields(d, p).None?
    ensures ok || ended ==> s.Keeps(old(s.state + s.bytesLeft)) && s.bytesLeft < old(s.bytesLeft)
    ensures ended ==> !ok && DecodeFields(d, p) == Some(p.(rest := s.Rest()))
    ensures ok ==> !ended && wireType < 8 && Read32(p.rest) == Some((tag * 8 + wireType, s.Rest())) && tag * 8 + wireType != 0
  {
    GoesNoFurther(d, p);
    ok, wireType, tag, ended := DecodeTag(s);
  }

  /** The next field, or the end. */
  method DecodeNext(s: IStream, d: Descriptor, m: Value, iter: FieldIter, words: seq<set<nat>>, ghost p: Decoded)
    returns (ok: bool, ended: bool, w: Value, words': seq<set<nat>>, ghost p': Decoded)
    requires s.Valid() && s.bytesLeft > 0 && iter.Valid() && iter.d == d && IsStatic(d)
    requires p.m == m && p.rest == s.Rest() && Tracks(d, words, p.seen)
    modifies s, iter
    ensures s.Within(old(s.state + s.bytesLeft)) && iter.Valid()
    ensures !ok ==> DecodeFields(d, p).None?
    ensures ok ==>
              && s.Keeps(old(s.state + s.bytesLeft)) && s.bytesLeft < old(s.bytesLeft)
              && DecodeFields(d, p) == (if ended then Some(p') else DecodeFields(d, p'))
              && p'.m == w && p'.rest == s.Rest() && Tracks(d, words', p'.seen)
    decreases d, 4
  {
    var wireType, tag;
    w, words' := m, words;
    ok, ended, wireType, tag := TakeTag(s, d, p);
    p' := p.(rest := s.Rest());
    if !ok {
      return ended, ended, w, words', p';
    }
    GoesOn(d, p, tag * 8 + wireType, s.Rest());
    ok, w, words', p' := DecodeAfterKey(s, d, m, iter, words, tag, wireType, p);
  }

  /** Fields in any order, until the end of the stream or a key of zero. */
  method DecodeAll(s: IStream, d: Descriptor, m: Value, iter: FieldIter)
    returns (ok: bool, w: Value, words: seq<set<nat>>, ghost p: Decoded)
    requires s.Valid() && iter.Valid() && iter.d == d && IsStatic(d)
    modifies s, iter
    ensures s.Within(old(s.state + s.bytesLeft)) && iter.Valid()
    ensures ok == DecodeFields(d, Decoded(m, {}, old(s.Rest()))).Some?
    ensures ok ==>
              && s.Keeps(old(s.state + s.bytesLeft)) && DecodeFields(d, Decoded(m, {}, old(s.Rest()))) == Some(p)
              && p.m == w && p.rest == s.Rest() && Tracks(d, words, p.seen)
    decreases d, 5
  {
    ghost var end, start := s.state + s.bytesLeft, Decoded(m, {}, s.Rest());
    p, w, words := start, m, [{}, {}];
    while s.bytesLeft > 0
      invariant s.Keeps(end) && iter.Valid()
      invariant p.m == w && p.rest == s.Rest() && Tracks(d, words, p.seen) && DecodeFields(d, p) == DecodeFields(d, start)
      decreases s.bytesLeft
    {
      var ended;
      ok, ended, w, words, p := DecodeNext(s, d, w, iter, words, p);
      if !ok || ended {
        return;
      }
    }
    ok := true;
  }

  /** How many required fields there are: the iterator goes on to the end of the list. */
  method CountRequired(iter: FieldIter) returns (count: nat)
    requires iter.Valid()
    modifies iter
    ensures iter.Valid() && count == RequiredBefore(iter.d, |iter.d.fields|)
  {
    var lastRequired, more := false, true;
    count := 0;
    while more
      invariant iter.Valid()
      invariant !more ==>
                  && count == RequiredBefore(iter.d, if iter.d.fields == [] then 0 else |iter.d.fields| - 1)
                  && (iter.d.fields != [] ==> lastRequired == (iter.d.fields[|iter.d.fields| - 1].rule == Required))
      decreases if more then |iter.d.fields| - iter.pos + 1 else 0
    {
      count := iter.requiredIndex;
      lastRequired := iter.pos == |iter.d.fields| || iter.d.fields[iter.pos].rule == Required;
      more := iter.Next();
    }
    if lastRequired && iter.d.fields != [] {
      count := count + 1;
    }
  }

  /** All tracked required fields must have been seen. */
  method CheckRequired(d: Descriptor, iter: FieldIter, words: seq<set<nat>>, ghost seen: set<nat>) returns (ok: bool)
    requires iter.Valid() && iter.d == d && Tracks(d, words, seen)
    modifies iter
    ensures iter.Valid() && ok == AllRequired(d, seen)
  {
    var count := CountRequired(iter);
    if count > MAX_REQUIRED {
      count := MAX_REQUIRED;
    }
    ok := true;
    if count > 0 {
      AllBitsAreRequired(d, words, seen, count);
      ok := CheckBits(words, count);
    } else if d.fields != [] {
      AllBitsAreRequired(d, words, seen, 0);
    }
  }

  /** Succeeds only if every tracked required field occurred, in whatever order the fields came. */
  method DecodeNoInitFrom(s: IStream, d: Descriptor, m: Value) returns (ok: bool, w: Value)
    requires s.Valid() && IsStatic(d)
    modifies s
    ensures s.Within(old(s.state + s.bytesLeft)) && ok == DecodeNoInit(d, m, old(s.Rest())).Some?
    ensures ok ==>
              && s.Keeps(old(s.state + s.bytesLeft)) && w == DecodeNoInit(d, m, old(s.Rest())).value.m
              && s.Rest() == DecodeNoInit(d, m, old(s.Rest())).value.rest
    decreases d, 6
  {
    var iter := new FieldIter(d);
    var words;
    ghost var p;
    ok, w, words, p := DecodeAll(s, d, m, iter);
    if ok {
      ok := CheckRequired(d, iter, words, p.seen);
    }
  }

  /** Defaults first. */
  method Decode(s: IStream, d: Descriptor, dest: Value) returns (ok: bool, w: Value)
    requires s.Valid() && IsStatic(d)
    modifies s
    ensures s.Within(old(s.state + s.bytesLeft)) && ok == DecodeNoInit(d, SetDefaults(d, dest), old(s.Rest())).Some?
    ensures ok ==>
              && w == DecodeNoInit(d, SetDefaults(d, dest), old(s.Rest())).value.m
              && s.Rest() == DecodeNoInit(d, SetDefaults(d, dest), old(s.Rest())).value.rest
  {
    w := SetToDefaults(d, dest);
    ok, w := DecodeNoInitFrom(s, d, w);
  }
}
