/** What the decoder makes of input that the encoder did not write. */
module PbProperties {
  import opened Common
  import opened PbWire
  import opened PbVarint
  import opened PbField
  import opened PbCodec
  import opened PbBounds
  import opened PbRoundTrip

  /** The tags of the fields that the decoder meets, in order. */
  function Tags(d: Descriptor, p: Decoded): seq<nat>
    decreases |p.rest|
  {
    if p.rest == [] || Read32(p.rest).None? || Read32(p.rest).value.0 == 0 then []
    else
      var (key, bytes) := Read32(p.rest).value;
      var next := DecodeKeyed(d, p, key, bytes);
      if next.None? then [] else [key / 8] + Tags(d, next.value)
  }

  /** The fields that count as seen are those whose tags occurred. */
  lemma {:induction false} SeenOccurred(d: Descriptor, p: Decoded, i: nat)
    requires HasDistinctTags(d) && i < |d.fields| && !d.fields[i].kind.Extension? && DecodeFields(d, p).Some?
    ensures i in DecodeFields(d, p).value.seen <==> i in p.seen || d.fields[i].tag in Tags(d, p)
    decreases |p.rest|
  {
    if p.rest != [] && Read32(p.rest).value.0 != 0 {
      var (key, bytes) := Read32(p.rest).value;
      var next := DecodeKeyed(d, p, key, bytes).value;
      SeenOccurred(d, next, i);
      SeesTag(d, p, key, bytes, i);
    }
  }

  lemma SeesTag(d: Descriptor, p: Decoded, key: nat, bytes: seq<Byte>, i: nat)
    requires HasDistinctTags(d) && i < |d.fields| && !d.fields[i].kind.Extension? && |bytes| < |p.rest|
    requires DecodeKeyed(d, p, key, bytes).Some?
    ensures i in DecodeKeyed(d, p, key, bytes).value.seen <==> i in p.seen || d.fields[i].tag == key / 8
  {
    var r := IndexOf(d, key / 8);
    assert d.fields[i].tag == key / 8 ==> IsField(d, i, key / 8);
    assert r.Some? ==> d.fields[r.value].tag == key / 8;
  }

  /** Input whose fields can all be decoded is accepted if and only if every tracked required field occurs in it, in
      whatever order, and whatever unknown fields are between them. */
  lemma AcceptsIfRequiredOccur(d: Descriptor, m: Value, bytes: seq<Byte>)
    requires IsStatic(d) && DecodeFields(d, Decoded(m, {}, bytes)).Some?
    ensures DecodeMessage(d, m, bytes).Some? <==>
            forall i: nat | i < |d.fields| && d.fields[i].rule == Required && RequiredBefore(d, i) < MAX_REQUIRED ::
              d.fields[i].tag in Tags(d, Decoded(m, {}, bytes))
  {
    var p := Decoded(m, {}, bytes);
    forall i: nat | i < |d.fields|
      ensures i in DecodeFields(d, p).value.seen <==> d.fields[i].tag in Tags(d, p)
    {
      assert IsStaticField(d.fields[i]);
      SeenOccurred(d, p, i);
    }
  }

  /** A field that is not in the list changes nothing, unless its tag is the terminator of an empty list. */
  lemma UnknownIsSkipped(d: Descriptor, p: Decoded, tag: nat, wireType: nat, content: seq<Byte>, rest: seq<Byte>)
    requires tag < 0x2000_0000 && wireType < 8 && tag * 8 + wireType != 0 && IndexOf(d, tag) == None
    requires !(d.fields == [] && tag == 0)
    requires Skipped(wireType, content + rest) == Some(rest) && p.rest == Key(tag, wireType) + (content + rest)
    ensures DecodeFields(d, p) == DecodeFields(d, p.(rest := rest))
  {
    KeyBack(tag, wireType, content + rest);
    UnknownKey(d, p, tag, wireType, content + rest);
    GoesOn(d, p, tag * 8 + wireType, content + rest);
  }

  /** An empty list reads what follows a key with tag 0 as a boolean, whatever the wire type. */
  lemma TerminatorIsBool(d: Descriptor, p: Decoded, wireType: nat, bytes: seq<Byte>)
    requires d.fields == [] && 1 <= wireType < 8 && p.rest == Key(0, wireType) + bytes
    ensures DecodeFields(d, p) ==
            match Read32(bytes)
            case None => None
            case Some((n, rest)) => DecodeFields(d, p.(m := Put(p.m, 0, 0, Num(if n != 0 then 1 else 0)), rest := rest))
  {
    KeyBack(0, wireType, bytes);
    GoesOn(d, p, wireType, bytes);
  }

  /** So a message without fields is written to, also where the field could be skipped. */
  lemma EmptyListIsWrittenTo(m: Value)
    ensures IndexOf(Descriptor([]), 0) == None && Skipped(2, [0]) == Some([])
    ensures DecodeFields(Descriptor([]), Decoded(m, {}, [2, 0])) == Some(Decoded(Put(m, 0, 0, Num(0)), {}, []))
    ensures DecodeFields(Descriptor([]), Decoded(m, {}, [1, 1])) == Some(Decoded(Put(m, 0, 0, Num(1)), {}, []))
  {
    assert Key(0, 2) + [0] == [2, 0] && Key(0, 1) + [1] == [1, 1];
    TerminatorIsBool(Descriptor([]), Decoded(m, {}, [2, 0]), 2, [0]);
    TerminatorIsBool(Descriptor([]), Decoded(m, {}, [1, 1]), 1, [1]);
  }

  lemma {:induction false} StaysBool(d: Descriptor, p: Decoded)
    requires d.fields == [] && Slot(p.m, 0, 0) in {Num(0), Num(1)} && DecodeFields(d, p).Some?
    ensures Slot(DecodeFields(d, p).value.m, 0, 0) in {Num(0), Num(1)}
    decreases |p.rest|
  {
    if p.rest != [] && Read32(p.rest).value.0 != 0 {
      var (key, bytes) := Read32(p.rest).value;
      StaysBool(d, DecodeKeyed(d, p, key, bytes).value);
    }
  }

  /** A field whose tag is not in the list, at the end of the input, leaves every struct alone if and only if it does
      not carry the tag of an empty list's terminator. */
  lemma SkippedUnlessTerminator(d: Descriptor, tag: nat, wireType: nat, content: seq<Byte>)
    requires tag < 0x2000_0000 && wireType < 8 && tag * 8 + wireType != 0 && IndexOf(d, tag) == None
    requires Skipped(wireType, content) == Some([])
    ensures LeavesAll(d, Key(tag, wireType) + content) <==> !(d.fields == [] && tag == 0)
  {
    var bytes := Key(tag, wireType) + content;
    if d.fields == [] && tag == 0 {
      var m := Struct(map[(0, 0) := Num(2)], map[]);
      TerminatorIsBool(d, Decoded(m, {}, bytes), wireType, content);
      if Read32(content).Some? {
        var (n, rest) := Read32(content).value;
        var next := Decoded(Put(m, 0, 0, Num(if n != 0 then 1 else 0)), {}, rest);
        if DecodeFields(d, next).Some? {
          StaysBool(d, next);
        }
      }
      assert !Leaves(d, m, bytes);
    } else {
      forall m: Value ensures Leaves(d, m, bytes) {
        assert content + [] == content;
        UnknownIsSkipped(d, Decoded(m, {}, bytes), tag, wireType, content, []);
      }
    }
  }

  /** Decoding the whole input changes nothing in the struct. */
  ghost predicate Leaves(d: Descriptor, m: Value, bytes: seq<Byte>) {
    DecodeFields(d, Decoded(m, {}, bytes)) == Some(Decoded(m, {}, []))
  }

  ghost predicate LeavesAll(d: Descriptor, bytes: seq<Byte>) {
    forall m: Value :: Leaves(d, m, bytes)
  }

  lemma {:induction false} SkipsVarint(v: nat, rest: seq<Byte>)
    ensures SkippedVarint(Varint(v) + rest) == Some(rest)
    decreases v
  {
    VarintParts(v, rest);
    if v >= 128 {
      SkipsVarint(v / 128, rest);
    }
  }

  /** Whatever field the encoder wrote for another list can be skipped. */
  lemma EncodedIsSkipped(f: Field, v: Value, rest: seq<Byte>)
    requires IsSoundField(f) && EncodeValue(f, v).Some? && |EncodeValue(f, v).value| < U32
    ensures Skipped(WireType(f), EncodeValue(f, v).value + rest) == Some(rest)
  {
    var bytes := EncodeValue(f, v).value;
    if f.kind.Fixed32? || f.kind.Fixed64? {
      assert (bytes + rest)[|bytes|..] == rest;
    } else if WireType(f) == 0 {
      var sent := if f.kind.Bool? then (if NumOf(v) != 0 then 1 else 0) else Sent(f, v);
      SkipsVarint(sent, rest);
    } else {
      var content := if f.kind.Bytes? then BytesOf(v) else if f.kind.Text? then CString(BytesOf(v), f.dataSize)
                     else if f.kind.FixedBytes? then Window(BytesOf(v), f.dataSize) else EncodeMessage(f.kind.d, v).value;
      ContentBack(content, rest);
    }
  }

  lemma ShortString(bytes: seq<Byte>, size: nat)
    ensures |CString(bytes, size)| <= size && UpToNul(CString(bytes, size)) == CString(bytes, size)
  {
    NoNul(CString(bytes, size));
  }

  /** A string that fills its buffer is written, but not read: a string is read back if and only if there is a NUL
      within its buffer. */
  lemma StringBack(f: Field, v: Value, base: Value, rest: seq<Byte>)
    requires f.kind.Text? && f.dataSize <= SIZE_MAX
    ensures EncodeValue(f, v).Some?
    ensures DecodeValue(f, base, EncodeValue(f, v).value + rest) ==
            if |CString(BytesOf(v), f.dataSize)| < f.dataSize then Some((Raw(CString(BytesOf(v), f.dataSize)), rest)) else None
  {
    ShortString(BytesOf(v), f.dataSize);
    StringIsRead(f, CString(BytesOf(v), f.dataSize), rest);
  }

  // ----- what is sent without a has flag -----

  lemma PresentIsSent(d: Descriptor, m: Value, i: nat)
    requires i < |d.fields|
    ensures EncodeField(d, m, i) == Some([]) <==> Count(d, m, i) == 0
  {
    var f, items := d.fields[i], Items(d, m, i);
    if |items| > 0 && (f.rule != Repeated || !IsPackable(f)) {
      var last := EncodeKeyed(f, items[|items| - 1]);
      assert last.Some? ==> last.value != [];
    }
  }

  ghost predicate AreEmpty(d: Descriptor, m: Value, n: nat)
    requires n <= |d.fields|
  {
    forall i: nat | i < n :: EncodeField(d, m, i) == Some([])
  }

  lemma {:induction false} FirstFieldsAreEmpty(d: Descriptor, m: Value, n: nat)
    requires n <= |d.fields|
    ensures EncodeFields(d, m, n) == Some([]) <==> AreEmpty(d, m, n)
  {
    if n > 0 {
      FirstFieldsAreEmpty(d, m, n - 1);
      JoinedIsEmpty(EncodeFields(d, m, n - 1), EncodeField(d, m, n - 1));
      assert EncodeFields(d, m, n) == Joined(EncodeFields(d, m, n - 1), EncodeField(d, m, n - 1));
      assert AreEmpty(d, m, n) ==> EncodeField(d, m, n - 1) == Some([]);
      assert AreEmpty(d, m, n) <==> AreEmpty(d, m, n - 1) && EncodeField(d, m, n - 1) == Some([]);
    }
  }

  lemma JoinedIsEmpty(a: Option<seq<Byte>>, b: Option<seq<Byte>>)
    ensures Joined(a, b) == Some([]) <==> a == Some([]) && b == Some([])
  {
    if Joined(a, b) == Some([]) {
      assert |a.value + b.value| == |a.value| + |b.value| == 0;
      assert a.value == [] && b.value == [];
    }
    if a == Some([]) && b == Some([]) {
      assert a.value + b.value == [];
    }
  }

  /** A submessage counts as default if and only if nothing is written for any of its fields. */
  lemma DefaultIsEmpty(d: Descriptor, m: Value)
    requires IsStatic(d) && IsMessage(d, m)
    ensures IsDefaultMessage(d, m) <==> EncodeMessage(d, m) == Some([])
  {
    FirstFieldsAreEmpty(d, m, |d.fields|);
    forall i: nat | i < |d.fields| ensures IsDefaultField(d, m, i) ==> EncodeField(d, m, i) == Some([]) {
      assert d.fields[i] in d.fields;
      PresentIsSent(d, m, i);
    }
    if EncodeMessage(d, m) == Some([]) {
      forall i: nat | i < |d.fields| ensures IsDefaultField(d, m, i) {
        PresentIsSent(d, m, i);
        assert IsMessageField(d, m, i);
        if d.fields[i].rule == OneOf && Size(m, SizeAt(d, i)) != 0 {
          var j: nat :| j < |d.fields| && ShareUnion(d, i, j) && Size(m, SizeAt(d, i)) == d.fields[j].tag;
          PresentIsSent(d, m, j);
          assert false;
        }
      }
    }
  }

  /** The number 0, no bytes, the empty string, or a submessage for which nothing is written. */
  ghost predicate IsZero(f: Field, v: Value) {
    match f.kind
    case Submessage(sub) => EncodeMessage(sub, v) == Some([])
    case FixedBytes => f.dataSize == 0
    case Bytes => BytesOf(v) == []
    case Text => BytesOf(v) == [] || BytesOf(v)[0] == 0
    case _ => NumOf(v) == 0
  }

  /** When nothing is written for a field: never if it is required, for an array of length 0, for a member that its union
      does not hold, and for an optional field whose has flag is not set, or which is zero if it has no flag. */
  lemma NothingIsWritten(d: Descriptor, m: Value, i: nat)
    requires IsStatic(d) && i < |d.fields|
    requires d.fields[i].kind.Submessage? ==> IsMessage(d.fields[i].kind.d, Slot(m, DataAt(d, i), 0))
    ensures
      var f, size := d.fields[i], Size(m, SizeAt(d, i));
      EncodeField(d, m, i) == Some([]) <==>
      match f.rule
      case Required => false
      case Repeated => size == 0
      case OneOf => size != f.tag
      case Optional => if f.sizeOffset != 0 then size == 0 else IsZero(f, Slot(m, DataAt(d, i), 0))
  {
    PresentIsSent(d, m, i);
    var f, v := d.fields[i], Slot(m, DataAt(d, i), 0);
    assert IsStaticField(f);
    if f.kind.Submessage? {
      DefaultIsEmpty(f.kind.d, v);
    }
  }

  /** So a number without a has flag is sent if and only if it is not zero: 5 in the field with tag 1 takes two bytes. */
  lemma FiveIsSent(d: Descriptor, m: Value)
    requires d == Descriptor([Field(1, Optional, Static, UInt, 0, 0, 4, 0, None)]) && Slot(m, 0, 0) == Num(5)
    ensures EncodeMessage(d, m) == Some([8, 5])
  {
    SingleContent(d, m, 0);
    assert EncodeFields(d, m, 0) == Some([]) && DataAt(d, 0) == 0;
    assert Varint(8) == [8] && Varint(5) == [5];
    assert EncodeKeyed(d.fields[0], Num(5)) == Some([8] + [5]);
    assert [] + ([8] + [5]) == [8, 5];
  }

  // ----- the wire format -----

  /** Keys hold the tag, and in the lowest three bits the wire type: 0 for variable-length integers, 1 and 5 for eight and
      four bytes, 2 for what has a length. */
  lemma KeysAre(f: Field)
    ensures WireType(f) ==
            if f.kind.Bool? || f.kind.Int? || f.kind.UInt? || f.kind.SInt? then 0
            else if f.kind.Fixed64? then 1 else if f.kind.Fixed32? then 5 else 2
    ensures Key(1, 0) == [0x08] && Key(2, 2) == [0x12] && Key(16, 0) == [0x80, 0x01]
  {
    assert Varint(128) == [128] + Varint(1);
  }

  /** 150 takes two bytes; zigzag numbers alternate. */
  lemma NumbersAre(f: Field, zigzag: Field)
    requires f.kind == Int && f.dataSize == 4 && zigzag.kind == SInt && zigzag.dataSize == 4
    ensures EncodeValue(f, Num(150)) == Some([0x96, 0x01])
    ensures EncodeValue(zigzag, Num(-1)) == Some([0x01]) && EncodeValue(zigzag, Num(1)) == Some([0x02])
  {
    assert Varint(150) == [150] + Varint(1);
    assert Unsigned(150, 8) == 150 && Int64(-1) == -1 && Int64(1) == 1;
    assert Varint(1) == [1] && Varint(2) == [2] && [150] + [1] == [0x96, 0x01];
    assert ZigZag(-1) == 1 && ZigZag(1) == 2;
  }

  /** Fixed-width integers have their lowest byte first, strings their length. */
  lemma OthersAre(fixed: Field, text: Field)
    requires fixed.kind == Fixed32 && text.kind == Text && text.dataSize == 16
    ensures EncodeValue(fixed, Num(0x0102_0304)) == Some([0x04, 0x03, 0x02, 0x01])
    ensures EncodeValue(text, Raw([0x68, 0x69])) == Some([0x02, 0x68, 0x69])
  {
    assert Unsigned(0x0102_0304, 4) == 0x0102_0304;
    assert LittleEndian(0x01, 1) == [0x01] && LittleEndian(0x0102, 2) == [0x02, 0x01];
    assert LittleEndian(0x0102_03, 3) == [0x03, 0x02, 0x01] && LittleEndian(0x0102_0304, 4) == [0x04, 0x03, 0x02, 0x01];
    assert [0x68, 0x69][1..] == [0x69] && [0x69][1..] == [];
    assert UpToNul([0x69]) == [0x69] && UpToNul([0x68, 0x69]) == [0x68, 0x69];
    assert Varint(2) == [2] && [2] + [0x68, 0x69] == [0x02, 0x68, 0x69];
  }

  /** A packed array is one length-delimited value. */
  lemma PackedIs(f: Field, items: seq<Value>)
    requires f.kind == UInt && f.dataSize == 4 && f.tag == 4 && items == [Num(3), Num(270)]
    ensures EncodeItems(f, items, false) == Some([0x03, 0x8E, 0x02])
    ensures Key(f.tag, 2) + Delimited([0x03, 0x8E, 0x02]) == [0x22, 0x03, 0x03, 0x8E, 0x02]
  {
    assert items[..1] == [Num(3)] && items[..1][..0] == [];
    assert Varint(270) == [0x8E] + Varint(2) && Varint(2) == [2] && Varint(3) == [3];
    assert Unsigned(3, 8) == 3 && Unsigned(270, 8) == 270;
    assert EncodeItems(f, [], false) == Some([]);
    assert EncodeItems(f, [Num(3)], false) == Some([] + [3]);
    assert [] + [3] == [3] && [3] + ([0x8E] + [2]) == [0x03, 0x8E, 0x02];
    assert Varint(34) == [0x22] && [0x22] + ([3] + [0x03, 0x8E, 0x02]) == [0x22, 0x03, 0x03, 0x8E, 0x02];
  }

  /** What is skipped of each wire type; the others are refused. */
  lemma SkipsExactly(wireType: nat, bytes: seq<Byte>, s: seq<Septet>, content: seq<Byte>, rest: seq<Byte>)
    requires s != [] && |content| < U32
    ensures Skipped(0, Encoded(s) + rest) == Some(rest) && Skipped(2, Delimited(content) + rest) == Some(rest)
    ensures Skipped(1, bytes) == (if |bytes| < 8 then None else Some(bytes[8..]))
    ensures Skipped(5, bytes) == (if |bytes| < 4 then None else Some(bytes[4..]))
    ensures wireType !in {0, 1, 2, 5} ==> Skipped(wireType, bytes) == None
  {
    SkipsEncoded(s, rest);
    ContentBack(content, rest);
  }

  lemma {:induction false} SkipsEncoded(s: seq<Septet>, rest: seq<Byte>)
    requires s != []
    ensures SkippedVarint(Encoded(s) + rest) == Some(rest)
  {
    EncodedParts(s, rest);
    if |s| > 1 {
      SkipsEncoded(s[1..], rest);
    }
  }

  // ----- the last occurrence counts -----

  /** When a field occurs twice that holds one value, or two members of a union occur, the last value stays, and the union
      holds its member. */
  lemma LastOneStays(d: Descriptor, p: Decoded, i: nat, j: nat, v: Value, w: Value, rest: seq<Byte>) returns (q: Decoded)
    requires IsSound(d) && i < |d.fields| && j < |d.fields| && (i == j || ShareUnion(d, i, j))
    requires IsSingleNumber(d.fields[i]) && InBounds(d.fields[i], v) && EncodeKeyed(d.fields[i], v).Some?
    requires IsSingleNumber(d.fields[j]) && InBounds(d.fields[j], w) && EncodeKeyed(d.fields[j], w).Some?
    requires p.rest == EncodeKeyed(d.fields[i], v).value + (EncodeKeyed(d.fields[j], w).value + rest)
    ensures DecodeFields(d, p) == DecodeFields(d, q) && q.rest == rest && Slot(q.m, DataAt(d, j), 0) == w
    ensures d.fields[j].rule == OneOf ==> Size(q.m, SizeAt(d, j)) == d.fields[j].tag
  {
    q := OneOccurs(d, p, i, v, EncodeKeyed(d.fields[j], w).value + rest);
    q := OneOccurs(d, q, j, w, rest);
  }

  predicate IsSingleNumber(f: Field) {
    f.rule != Repeated && IsPackable(f)
  }

  lemma OneOccurs(d: Descriptor, p: Decoded, i: nat, v: Value, rest: seq<Byte>) returns (q: Decoded)
    requires IsSound(d) && i < |d.fields| && IsSingleNumber(d.fields[i])
    requires InBounds(d.fields[i], v) && EncodeKeyed(d.fields[i], v).Some?
    requires p.rest == EncodeKeyed(d.fields[i], v).value + rest
    ensures DecodeFields(d, p) == DecodeFields(d, q) && q.rest == rest && Slot(q.m, DataAt(d, i), 0) == v
    ensures d.fields[i].rule == OneOf ==> Size(q.m, SizeAt(d, i)) == d.fields[i].tag
  {
    var f := d.fields[i];
    var value := EncodeValue(f, v).value;
    assert IsSoundField(f);
    Associative(Key(f.tag, WireType(f)), value, rest);
    var r := DecodeField(d, p.m, i, WireType(f), value + rest);
    OneIsRead(d, p.m, i, v, value, rest);
    q := Decoded(r.value.0, p.seen + {i}, rest);
    KeyedBack(d, p, i, WireType(f), value + rest, r.value.0, rest);
  }

  lemma OneIsRead(d: Descriptor, m: Value, i: nat, v: Value, value: seq<Byte>, rest: seq<Byte>)
    requires i < |d.fields| && IsSingleNumber(d.fields[i])
    requires IsSoundField(d.fields[i]) && InBounds(d.fields[i], v) && EncodeValue(d.fields[i], v) == Some(value)
    ensures
      var r := DecodeField(d, m, i, WireType(d.fields[i]), value + rest);
      && r.Some? && r.value.1 == rest && Slot(r.value.0, DataAt(d, i), 0) == v
      && (d.fields[i].rule == OneOf ==> Size(r.value.0, SizeAt(d, i)) == d.fields[i].tag)
  {
    NumberBack(d.fields[i], v, rest);
  }
}
