/** What is encoded is decoded: the round trip of whole messages. */
module PbRoundTrip {
  import opened Common
  import opened PbWire
  import opened PbVarint
  import opened PbField
  import opened PbCodec
  import opened PbBounds

  // ----- values -----

  /** The number that is sent for an integer, and the integer it stands for. */
  function Sent(f: Field, v: Value): nat {
    if f.kind.SInt? then ZigZag(Int64(NumOf(v))) else Unsigned(NumOf(v), 8)
  }

  lemma SentBack(f: Field, v: Value)
    requires f.kind.Int? || f.kind.UInt? || f.kind.SInt?
    requires IsWidth(f.dataSize) && InBounds(f, v)
    ensures EncodeValue(f, v) == Some(Varint(Sent(f, v))) && Sent(f, v) < U64
    ensures Some(v) == if f.kind.Int? then IntOf(f, Sent(f, v)) else if f.kind.UInt? then UIntOf(f, Sent(f, v))
                       else SIntOf(f, Sent(f, v))
  {
    if f.kind.Int? {
      IntBack(f, v.n);
    } else if f.kind.SInt? {
      SignedUnsigned(v.n, 8);
      ZigZagBack(v.n);
    }
  }

  lemma VarintBack(f: Field, v: Value, rest: seq<Byte>)
    requires f.kind.Int? || f.kind.UInt? || f.kind.SInt?
    requires IsWidth(f.dataSize) && InBounds(f, v)
    ensures EncodeValue(f, v).Some? && DecodeVarint(f, EncodeValue(f, v).value + rest) == Some((v, rest))
  {
    SentBack(f, v);
    Reads64(Sent(f, v), rest);
  }

  lemma IntBack(f: Field, n: int)
    requires IsWidth(f.dataSize) && IsSigned(n, f.dataSize)
    ensures IntOf(f, Unsigned(n, 8)) == Some(Num(n))
  {
    SignedUnsigned(n, 8);
    if f.dataSize != 8 {
      SignedUnsigned(n, 4);
      assert n % U64 % U32 == n % U32;
    }
  }

  lemma FixedBack(v: nat, size: nat, rest: seq<Byte>)
    requires v < Pow256(size)
    ensures DecodeFixed(size, LittleEndian(v, size) + rest) == Some((Num(v), rest))
  {
    LittleEndianBack(v, size);
    var bytes := LittleEndian(v, size) + rest;
    assert bytes[..size] == LittleEndian(v, size) && bytes[size..] == rest;
  }

  lemma BoolBack(f: Field, v: Value, rest: seq<Byte>)
    requires f.kind.Bool? && InBounds(f, v)
    ensures EncodeValue(f, v) == Some(Varint(NumOf(v)))
    ensures DecodeNumber(f, Varint(NumOf(v)) + rest) == Some((v, rest))
  {
    Reads32(NumOf(v), rest);
  }

  lemma Word32Back(v: nat, rest: seq<Byte>)
    requires v < U32
    ensures Unsigned(v, 4) == v && DecodeFixed(4, LittleEndian(v, 4) + rest) == Some((Num(v), rest))
  {
    Limits();
    FixedBack(v, 4, rest);
  }

  lemma Word64Back(v: nat, rest: seq<Byte>)
    requires v < U64
    ensures Unsigned(v, 8) == v && DecodeFixed(8, LittleEndian(v, 8) + rest) == Some((Num(v), rest))
  {
    Limits();
    FixedBack(v, 8, rest);
  }

  lemma NumberBack(f: Field, v: Value, rest: seq<Byte>)
    requires IsPackable(f) && IsSoundField(f) && InBounds(f, v)
    ensures EncodeValue(f, v).Some? && EncodeValue(f, v).value != []
    ensures DecodeNumber(f, EncodeValue(f, v).value + rest) == Some((v, rest))
  {
    match f.kind
    case Bool =>
      BoolBack(f, v, rest);
    case Fixed32 =>
      Word32Back(v.n, rest);
    case Fixed64 =>
      Word64Back(v.n, rest);
    case _ =>
      VarintBack(f, v, rest);
  }

  lemma ContentBack(content: seq<Byte>, rest: seq<Byte>)
    requires |content| < U32
    ensures Undelimited(Delimited(content) + rest) == Some((content, rest))
  {
    Reads32(|content|, content + rest);
    assert Delimited(content) + rest == Varint(|content|) + (content + rest);
    assert (content + rest)[..|content|] == content && (content + rest)[|content|..] == rest;
  }

  lemma StringIsRead(f: Field, s: seq<Byte>, rest: seq<Byte>)
    requires |s| < U32
    ensures DecodeString(f, Delimited(s) + rest) == if Stored(f, s).None? then None else Some((Stored(f, s).value, rest))
  {
    ContentBack(s, rest);
  }

  lemma {:induction false} NoNul(bytes: seq<Byte>)
    requires 0 !in bytes
    ensures UpToNul(bytes) == bytes
  {
    if bytes != [] {
      assert bytes[0] in bytes;
      NoNul(bytes[1..]);
    }
  }

  /** Strings and bytes. */
  lemma RawBack(f: Field, v: Value, base: Value, rest: seq<Byte>)
    requires f.kind.Bytes? || f.kind.Text? || f.kind.FixedBytes?
    requires IsSoundField(f) && InBounds(f, v)
    ensures EncodeValue(f, v) == Some(Delimited(v.bytes))
    ensures f.kind.FixedBytes? && v.bytes == [] ==> v == ZeroValue(f)
    ensures DecodeValue(f, base, Delimited(v.bytes) + rest) == Some((v, rest))
  {
    WholeString(f, v);
    assert f.kind.FixedBytes? ==> v.bytes[..f.dataSize] == v.bytes;
    RawIsRead(f, v, base, rest);
  }

  lemma RawIsRead(f: Field, v: Value, base: Value, rest: seq<Byte>)
    requires f.kind.Bytes? || f.kind.Text? || f.kind.FixedBytes?
    requires IsSoundField(f) && InBounds(f, v)
    ensures DecodeValue(f, base, Delimited(v.bytes) + rest) == Some((v, rest))
  {
    WholeString(f, v);
    StringIsRead(f, v.bytes, rest);
    RawIsStored(f, v);
  }

  lemma RawIsStored(f: Field, v: Value)
    requires f.kind.Bytes? || f.kind.Text? || f.kind.FixedBytes?
    requires IsSoundField(f) && InBounds(f, v) && (f.kind.Text? ==> UpToNul(v.bytes) == v.bytes)
    ensures Stored(f, v.bytes) == Some(v)
  {
  }

  lemma WholeString(f: Field, v: Value)
    requires f.kind.Text? ==> v.Raw? && 0 !in v.bytes && |v.bytes| < f.dataSize
    ensures f.kind.Text? ==> UpToNul(v.bytes) == v.bytes == CString(v.bytes, f.dataSize)
  {
    if f.kind.Text? {
      NoNul(v.bytes);
    }
  }

  // ----- every message within its bounds can be encoded -----

  lemma EncodesValue(f: Field, v: Value)
    requires IsSoundField(f) && InBounds(f, v)
    ensures EncodeValue(f, v).Some?
    decreases f, 0
  {
    if f.kind.Submessage? {
      EncodesMessage(f.kind.d, v);
    }
  }

  lemma {:induction false} EncodesItems(f: Field, items: seq<Value>, keyed: bool)
    requires IsSoundField(f) && forall v | v in items :: InBounds(f, v)
    ensures EncodeItems(f, items, keyed).Some?
    decreases f, 1, |items|
  {
    if items != [] {
      EncodesItems(f, items[..|items| - 1], keyed);
      EncodesValue(f, items[|items| - 1]);
    }
  }

  lemma {:induction false} EncodesFields(d: Descriptor, m: Value, n: nat)
    requires IsSound(d) && IsMessage(d, m) && n <= |d.fields|
    ensures EncodeFields(d, m, n).Some?
    decreases d, 0, n
  {
    if n > 0 {
      EncodesFields(d, m, n - 1);
      var f, items := d.fields[n - 1], Items(d, m, n - 1);
      assert IsSoundField(f) && IsMessageField(d, m, n - 1);
      forall v | v in items ensures InBounds(f, v) {
        var k :| 0 <= k < |items| && items[k] == v;
      }
      EncodesItems(f, items, true);
      EncodesItems(f, items, false);
    }
  }

  lemma EncodesMessage(d: Descriptor, m: Value)
    requires IsSound(d) && IsMessage(d, m)
    ensures EncodeMessage(d, m).Some?
    decreases d, 1
  {
    EncodesFields(d, m, |d.fields|);
  }

  // ----- one occurrence of a field -----

  lemma KeyBack(tag: nat, wireType: nat, body: seq<Byte>)
    requires tag < 0x2000_0000 && wireType < 8
    ensures Read32(Key(tag, wireType) + body) == Some((tag * 8 + wireType, body))
  {
    Reads32(tag * 8 + wireType, body);
  }

  lemma KnownGoesOn(d: Descriptor, p: Decoded, tag: nat, i: nat, wireType: nat, body: seq<Byte>, w: Value, rest: seq<Byte>)
    requires HasDistinctTags(d) && IsField(d, i, tag) && 1 <= tag < 0x2000_0000 && wireType < 8
    requires Read32(p.rest) == Some((tag * 8 + wireType, body))
    requires DecodeField(d, p.m, i, wireType, body) == Some((w, rest))
    ensures DecodeFields(d, p) == DecodeFields(d, Decoded(w, p.seen + {i}, rest))
  {
    KnownKey(d, p, tag, wireType, body, i);
    GoesOn(d, p, tag * 8 + wireType, body);
  }

  /** The decoder goes on after the field. */
  lemma KeyedBack(d: Descriptor, p: Decoded, i: nat, wireType: nat, body: seq<Byte>, w: Value, rest: seq<Byte>)
    requires IsSound(d) && i < |d.fields| && wireType < 8
    requires p.rest == Key(d.fields[i].tag, wireType) + body
    requires DecodeField(d, p.m, i, wireType, body) == Some((w, rest))
    ensures DecodeFields(d, p) == DecodeFields(d, Decoded(w, p.seen + {i}, rest))
  {
    var tag := d.fields[i].tag;
    assert IsSoundField(d.fields[i]) && IsField(d, i, tag) && 1 <= tag < 0x2000_0000;
    KeyBack(tag, wireType, body);
    KnownGoesOn(d, p, tag, i, wireType, body, w, rest);
  }

  // ----- what the decoder has reached -----

  /** Field i is not decoded yet. */
  ghost predicate IsPending(d: Descriptor, w: Value, i: nat)
    requires i < |d.fields|
  {
    var f := d.fields[i];
    && (f.rule == OneOf ==> Size(w, SizeAt(d, i)) != f.tag)
    && (f.rule != OneOf && HasSize(f) ==> Size(w, SizeAt(d, i)) == 0)
    && (f.rule == Required || f.rule == Optional ==> IsClearedValue(f, Slot(w, DataAt(d, i), 0)))
  }

  ghost predicate IsRestored(d: Descriptor, m: Value, w: Value, i: nat)
    requires i < |d.fields|
  {
    && Count(d, m, i) == Count(d, w, i)
    && forall k: nat | k < Count(d, m, i) ::
         SameValue(d.fields[i], Slot(m, DataAt(d, i), k), Slot(w, DataAt(d, i), k))
  }

  /** A union is empty, or holds the member it is going to hold. */
  predicate MayHold(d: Descriptor, m: Value, w: Value, i: nat)
    requires i < |d.fields|
  {
    d.fields[i].rule == OneOf ==> Size(w, SizeAt(d, i)) == 0 || Size(w, SizeAt(d, i)) == Size(m, SizeAt(d, i))
  }

  ghost predicate IsAsFar(d: Descriptor, m: Value, w: Value, seen: set<nat>, n: nat, i: nat)
    requires i < |d.fields|
  {
    && MayHold(d, m, w, i) && IsDefaultIfAbsent(d, m, w, i)
    && if i < n then IsRestored(d, m, w, i) && (d.fields[i].rule == Required ==> i in seen) else IsPending(d, w, i)
  }

  /** An optional field that was not sent holds its default, or zero if it has none. */
  ghost predicate IsDefaultIfAbsent(d: Descriptor, m: Value, w: Value, i: nat)
    requires i < |d.fields|
  {
    d.fields[i].rule == Optional && Count(d, m, i) == 0 ==> IsClearedValue(d.fields[i], Slot(w, DataAt(d, i), 0))
  }

  ghost predicate AbsentAreDefault(d: Descriptor, m: Value, w: Value) {
    forall i: nat | i < |d.fields| :: IsDefaultIfAbsent(d, m, w, i)
  }

  ghost predicate Reached(d: Descriptor, m: Value, w: Value, seen: set<nat>, n: nat) {
    forall i: nat | i < |d.fields| :: IsAsFar(d, m, w, seen, n, i)
  }

  lemma StartIsReached(d: Descriptor, m: Value, w: Value)
    requires IsSound(d) && IsCleared(d, w)
    ensures Reached(d, m, w, {}, 0)
  {
    forall i: nat | i < |d.fields| ensures IsAsFar(d, m, w, {}, 0, i) {
      assert IsClearedField(d, w, i) && IsSoundField(d.fields[i]);
    }
  }

  /** Nothing was sent for field n. */
  lemma AbsentReached(d: Descriptor, m: Value, w: Value, seen: set<nat>, n: nat)
    requires IsSound(d) && n < |d.fields| && Reached(d, m, w, seen, n) && Count(d, m, n) == 0
    ensures Reached(d, m, w, seen, n + 1)
  {
    var f := d.fields[n];
    assert IsAsFar(d, m, w, seen, n, n) && IsSoundField(f);
    if f.rule == Optional && f.sizeOffset == 0 {
      ClearedIsDefault(f, Slot(m, DataAt(d, n), 0), Slot(w, DataAt(d, n), 0));
    }
    assert IsAsFar(d, m, w, seen, n + 1, n);
    var next := n + 1;
    forall i: nat | i < |d.fields| ensures IsAsFar(d, m, w, seen, next, i) {
      assert IsAsFar(d, m, w, seen, n, i);
    }
  }

  /** Decoding field n leaves the others as far as they were. */
  lemma OtherAsFar(d: Descriptor, m: Value, w: Value, w': Value, seen: set<nat>, seen': set<nat>, n: nat, i: nat)
    requires IsSound(d) && n < |d.fields| && i < |d.fields| && i != n && seen <= seen'
    requires IsAsFar(d, m, w, seen, n, i) && AgreeOff(d, w, w', n) && Count(d, m, n) > 0
    requires IsRestored(d, m, w', n)
    ensures IsAsFar(d, m, w', seen', n + 1, i)
  {
    if ShareUnion(d, n, i) {
      assert d.fields[i].tag != d.fields[n].tag;
      assert Size(w', SizeAt(d, i)) == d.fields[n].tag == Size(m, SizeAt(d, i));
    } else {
      OthersUntouched(d, w, w', n, i);
    }
  }

  lemma PresentReached(d: Descriptor, m: Value, w: Value, w': Value, seen: set<nat>, seen': set<nat>, n: nat)
    requires IsSound(d) && n < |d.fields| && Reached(d, m, w, seen, n) && seen <= seen' && n in seen'
    requires AgreeOff(d, w, w', n) && Count(d, m, n) > 0 && IsRestored(d, m, w', n)
    ensures Reached(d, m, w', seen', n + 1)
  {
    var next := n + 1;
    forall i: nat | i < |d.fields| ensures IsAsFar(d, m, w', seen', next, i) {
      assert IsAsFar(d, m, w, seen, n, i);
      if i != n {
        OtherAsFar(d, m, w, w', seen, seen', n, i);
      }
    }
  }

  // ----- packed arrays -----

  lemma ItemsMore(f: Field, items: seq<Value>, keyed: bool, n: nat)
    requires n < |items|
    ensures EncodeItems(f, items[..n + 1], keyed) ==
            Joined(EncodeItems(f, items[..n], keyed), if keyed then EncodeKeyed(f, items[n]) else EncodeValue(f, items[n]))
  {
    assert items[..n + 1][..n] == items[..n];
  }

  lemma PackedOne(f: Field, count: nat, v: Value, more: seq<Byte>, values: seq<Value>)
    requires IsPackable(f) && IsSoundField(f) && InBounds(f, v) && count < f.arraySize
    requires DecodePacked(f, count + 1, more) == Some(values)
    ensures DecodePacked(f, count, EncodeValue(f, v).value + more) == Some([v] + values)
  {
    NumberBack(f, v, more);
  }

  lemma {:induction false} PackedBack(
      f: Field, count: nat, items: seq<Value>, n: nat, bytes: seq<Byte>, more: seq<Byte>, values: seq<Value>)
    requires IsPackable(f) && IsSoundField(f) && n <= |items| && count + n <= f.arraySize
    requires forall k: nat | k < n :: InBounds(f, items[k])
    requires DecodePacked(f, count + n, more) == Some(values) && EncodeItems(f, items[..n], false) == Some(bytes)
    ensures DecodePacked(f, count, bytes + more) == Some(items[..n] + values)
    decreases n
  {
    if n == 0 {
      assert [] + more == more && items[..0] + values == values;
    } else {
      var v := items[n - 1];
      ItemsMore(f, items, false, n - 1);
      var before, last := EncodeItems(f, items[..n - 1], false).value, EncodeValue(f, v).value;
      PackedOne(f, count + n - 1, v, more, values);
      PackedBack(f, count, items, n - 1, before, last + more, [v] + values);
      Associative(before, last, more);
      SplitLast(items, n, values);
    }
  }

  lemma SplitLast<T>(items: seq<T>, n: nat, values: seq<T>)
    requires 0 < n <= |items|
    ensures items[..n - 1] + ([items[n - 1]] + values) == items[..n] + values
  {
  }

  lemma {:induction false} PutAllSlots(m: Value, at: int, k: nat, values: seq<Value>)
    ensures forall i: nat | i < |values| :: Slot(PutAll(m, at, k, values), at, k + i) == values[i]
    ensures forall i: nat | i < k :: Slot(PutAll(m, at, k, values), at, i) == Slot(m, at, i)
    ensures forall a: int, i: nat | a != at :: Slot(PutAll(m, at, k, values), a, i) == Slot(m, a, i)
    ensures forall a: int :: Size(PutAll(m, at, k, values), a) == Size(m, a)
    decreases |values|
  {
    if values != [] {
      PutAllSlots(Put(m, at, k, values[0]), at, k + 1, values[1..]);
      forall i: nat | i < |values| ensures Slot(PutAll(m, at, k, values), at, k + i) == values[i] {
        if i > 0 {
          var before := i - 1;
          assert values[1..][before] == values[i] && k + 1 + before == k + i;
        }
      }
    }
  }

  // ----- fields -----

  lemma SingleRestored(d: Descriptor, m: Value, w: Value, i: nat, v: Value, w': Value)
    requires IsSound(d) && i < |d.fields| && d.fields[i].rule != Repeated && Count(d, m, i) > 0
    requires SameValue(d.fields[i], Slot(m, DataAt(d, i), 0), v) && w' == Put(Sized(d, w, i), DataAt(d, i), 0, v)
    ensures AgreeOff(d, w, w', i) && IsRestored(d, m, w', i)
  {
    var f := d.fields[i];
    SameDefault(f, Slot(m, DataAt(d, i), 0), v);
  }

  /** A union that turns to a submessage starts from defaults, and so does everything that was cleared. */
  lemma BaseIsCleared(d: Descriptor, w: Value, i: nat)
    requires IsSound(d) && i < |d.fields| && d.fields[i].rule != Repeated && IsPending(d, w, i)
    ensures d.fields[i].kind.Submessage? ==> IsCleared(d.fields[i].kind.d, Base(d, w, i))
  {
    var f := d.fields[i];
    assert IsSoundField(f);
    if f.kind.Submessage? && f.rule == OneOf {
      Clears(f.kind.d, ZeroStruct(f.kind.d, |f.kind.d.fields|));
    }
  }

  /** Items decoded so far. */
  ghost predicate ArrayReached(d: Descriptor, m: Value, w: Value, w': Value, i: nat, n: nat)
    requires i < |d.fields|
  {
    && AgreeOff(d, w, w', i) && Size(w', SizeAt(d, i)) == n
    && forall k: nat | k < n :: SameValue(d.fields[i], Slot(m, DataAt(d, i), k), Slot(w', DataAt(d, i), k))
  }

  lemma ArrayMore(d: Descriptor, m: Value, w: Value, w': Value, i: nat, n: nat, v: Value, w'': Value)
    requires i < |d.fields| && HasSize(d.fields[i]) && ArrayReached(d, m, w, w', i, n)
    requires SameValue(d.fields[i], Slot(m, DataAt(d, i), n), v)
    requires w'' == PutSize(Put(w', DataAt(d, i), n, v), SizeAt(d, i), n + 1)
    ensures ArrayReached(d, m, w, w'', i, n + 1)
  {
  }

  lemma ArrayRestored(d: Descriptor, m: Value, w: Value, w': Value, i: nat)
    requires i < |d.fields| && d.fields[i].rule == Repeated && ArrayReached(d, m, w, w', i, Count(d, m, i))
    ensures AgreeOff(d, w, w', i) && IsRestored(d, m, w', i)
  {
  }

  /** A packed array, decoded at once. */
  lemma PackedRestored(d: Descriptor, m: Value, w: Value, i: nat, w': Value)
    requires i < |d.fields| && d.fields[i].rule == Repeated && IsPackable(d.fields[i]) && Size(w, SizeAt(d, i)) == 0
    requires w' == PutSize(PutAll(w, DataAt(d, i), 0, Items(d, m, i)), SizeAt(d, i), |Items(d, m, i)|)
    ensures AgreeOff(d, w, w', i) && IsRestored(d, m, w', i)
  {
    var at, items := DataAt(d, i), Items(d, m, i);
    PutAllSlots(w, at, 0, items);
    var all := PutAll(w, at, 0, items);
    forall k: nat | k < |items| ensures Slot(w', at, k) == Slot(m, at, k) {
      assert Slot(all, at, 0 + k) == items[k];
    }
  }

  lemma PackedFieldBack(d: Descriptor, m: Value, p: Decoded, i: nat, bytes: seq<Byte>, rest: seq<Byte>)
    returns (p': Decoded)
    requires IsSound(d) && IsMessage(d, m) && i < |d.fields| && d.fields[i].rule == Repeated && IsPackable(d.fields[i])
    requires IsPending(d, p.m, i) && Count(d, m, i) > 0
    requires EncodeField(d, m, i) == Some(bytes) && |bytes| < U32 && p.rest == bytes + rest
    ensures DecodeFields(d, p) == DecodeFields(d, p') && p'.rest == rest && p'.seen == p.seen + {i}
    ensures AgreeOff(d, p.m, p'.m, i) && IsRestored(d, m, p'.m, i)
  {
    var f, items := d.fields[i], Items(d, m, i);
    assert IsSoundField(f) && IsMessageField(d, m, i);
    assert items[..|items|] == items;
    var content := EncodeItems(f, items, false).value;
    PackedBack(f, 0, items, |items|, content, [], []);
    assert content + [] == content && items + [] == items;
    ContentBack(content, rest);
    Associative(Key(f.tag, 2), Delimited(content), rest);
    var w' := PutSize(PutAll(p.m, DataAt(d, i), 0, items), SizeAt(d, i), |items|);
    PackedRestored(d, m, p.m, i, w');
    KeyedBack(d, p, i, 2, Delimited(content) + rest, w', rest);
    p' := Decoded(w', p.seen + {i}, rest);
  }

  // ----- messages -----

  lemma ValueBack(f: Field, v: Value, base: Value, bytes: seq<Byte>, rest: seq<Byte>) returns (w: Value)
    requires IsSoundField(f) && InBounds(f, v) && EncodeValue(f, v) == Some(bytes) && |bytes| < U32
    requires f.kind.Submessage? && f.rule != Repeated ==> IsCleared(f.kind.d, base)
    ensures DecodeValue(f, base, bytes + rest) == Some((w, rest)) && SameValue(f, v, w)
    decreases f, 0
  {
    if f.kind.Submessage? {
      w := SubmessageBack(f, v, base, EncodeMessage(f.kind.d, v).value, rest);
    } else if IsPackable(f) {
      NumberBack(f, v, rest);
      w := v;
    } else {
      RawBack(f, v, base, rest);
      w := v;
    }
  }

  lemma SubmessageBack(f: Field, v: Value, base: Value, content: seq<Byte>, rest: seq<Byte>)
    returns (w: Value)
    requires IsSoundField(f) && f.kind.Submessage? && InBounds(f, v)
    requires EncodeMessage(f.kind.d, v) == Some(content) && |content| < U32
    requires f.rule != Repeated ==> IsCleared(f.kind.d, base)
    ensures DecodeValue(f, base, Delimited(content) + rest) == Some((w, rest)) && SameMessage(f.kind.d, v, w)
    decreases f, 0, 0
  {
    var d := f.kind.d;
    var start := if f.rule == Repeated then SetDefaults(d, base) else base;
    Clears(d, base);
    ContentBack(content, rest);
    w := MessageBack(d, v, start, content);
  }

  /** A field with one value. */
  lemma SingleBack(d: Descriptor, m: Value, p: Decoded, i: nat, bytes: seq<Byte>, rest: seq<Byte>)
    returns (p': Decoded)
    requires IsSound(d) && IsMessage(d, m) && i < |d.fields| && d.fields[i].rule != Repeated && Count(d, m, i) > 0
    requires IsPending(d, p.m, i)
    requires EncodeKeyed(d.fields[i], Slot(m, DataAt(d, i), 0)) == Some(bytes) && |bytes| < U32 && p.rest == bytes + rest
    ensures DecodeFields(d, p) == DecodeFields(d, p') && p'.rest == rest && p'.seen == p.seen + {i}
    ensures AgreeOff(d, p.m, p'.m, i) && IsRestored(d, m, p'.m, i)
    decreases d, 0, 0
  {
    var f, v := d.fields[i], Slot(m, DataAt(d, i), 0);
    assert IsSoundField(f) && IsMessageField(d, m, i);
    var value := EncodeValue(f, v).value;
    BaseIsCleared(d, p.m, i);
    var w := ValueBack(f, v, Base(d, p.m, i), value, rest);
    var w' := Put(Sized(d, p.m, i), DataAt(d, i), 0, w);
    SingleRestored(d, m, p.m, i, w, w');
    Associative(Key(f.tag, WireType(f)), value, rest);
    KeyedBack(d, p, i, WireType(f), value + rest, w', rest);
    p' := Decoded(w', p.seen + {i}, rest);
  }

  /** One more element of an array that is not packed. */
  lemma ElementBack(d: Descriptor, m: Value, w: Value, p: Decoded, i: nat, n: nat, bytes: seq<Byte>, rest: seq<Byte>)
    returns (p': Decoded)
    requires IsSound(d) && IsMessage(d, m) && i < |d.fields| && d.fields[i].rule == Repeated && !IsPackable(d.fields[i])
    requires n < Count(d, m, i) && ArrayReached(d, m, w, p.m, i, n)
    requires EncodeKeyed(d.fields[i], Slot(m, DataAt(d, i), n)) == Some(bytes) && |bytes| < U32 && p.rest == bytes + rest
    ensures DecodeFields(d, p) == DecodeFields(d, p') && p'.rest == rest && p'.seen == p.seen + {i}
    ensures ArrayReached(d, m, w, p'.m, i, n + 1)
    decreases d, 0, 0
  {
    var f, v := d.fields[i], Slot(m, DataAt(d, i), n);
    assert IsSoundField(f) && IsMessageField(d, m, i);
    var value := EncodeValue(f, v).value;
    var x := ValueBack(f, v, Slot(p.m, DataAt(d, i), n), value, rest);
    var w' := PutSize(Put(p.m, DataAt(d, i), n, x), SizeAt(d, i), n + 1);
    ArrayMore(d, m, w, p.m, i, n, x, w');
    Associative(Key(f.tag, WireType(f)), value, rest);
    KeyedBack(d, p, i, WireType(f), value + rest, w', rest);
    p' := Decoded(w', p.seen + {i}, rest);
  }

  lemma {:induction false} ArrayBack(d: Descriptor, m: Value, p: Decoded, i: nat, n: nat, bytes: seq<Byte>, rest: seq<Byte>)
    returns (p': Decoded)
    requires IsSound(d) && IsMessage(d, m) && i < |d.fields| && d.fields[i].rule == Repeated && !IsPackable(d.fields[i])
    requires n <= Count(d, m, i) && IsPending(d, p.m, i)
    requires EncodeItems(d.fields[i], Items(d, m, i)[..n], true) == Some(bytes) && |bytes| < U32 && p.rest == bytes + rest
    ensures DecodeFields(d, p) == DecodeFields(d, p') && p'.rest == rest && ArrayReached(d, m, p.m, p'.m, i, n)
    ensures p'.seen == if n == 0 then p.seen else p.seen + {i}
    decreases d, 0, n + 1
  {
    var f, items := d.fields[i], Items(d, m, i);
    if n == 0 {
      p' := p;
    } else {
      ItemsMore(f, items, true, n - 1);
      var before, last := EncodeItems(f, items[..n - 1], true).value, EncodeKeyed(f, items[n - 1]).value;
      Associative(before, last, rest);
      var q := ArrayBack(d, m, p, i, n - 1, before, last + rest);
      p' := ElementBack(d, m, p.m, q, i, n - 1, last, rest);
    }
  }

  /** A field that is present, of any kind. */
  lemma PresentBack(d: Descriptor, m: Value, p: Decoded, i: nat, bytes: seq<Byte>, rest: seq<Byte>)
    returns (p': Decoded)
    requires IsSound(d) && IsMessage(d, m) && i < |d.fields| && Count(d, m, i) > 0 && IsPending(d, p.m, i)
    requires EncodeField(d, m, i) == Some(bytes) && |bytes| < U32 && p.rest == bytes + rest
    ensures DecodeFields(d, p) == DecodeFields(d, p') && p'.rest == rest && p'.seen == p.seen + {i}
    ensures AgreeOff(d, p.m, p'.m, i) && IsRestored(d, m, p'.m, i)
    decreases d, 1
  {
    var f, items := d.fields[i], Items(d, m, i);
    if f.rule != Repeated {
      SingleContent(d, m, i);
      p' := SingleBack(d, m, p, i, bytes, rest);
    } else if IsPackable(f) {
      p' := PackedFieldBack(d, m, p, i, bytes, rest);
    } else {
      assert items[..|items|] == items;
      p' := ArrayBack(d, m, p, i, |items|, bytes, rest);
      ArrayRestored(d, m, p.m, p'.m, i);
    }
  }

  lemma AbsentIsEmpty(d: Descriptor, m: Value, i: nat)
    requires i < |d.fields| && Count(d, m, i) == 0
    ensures EncodeField(d, m, i) == Some([])
  {
  }

  /** The next field is decoded, if it is present. */
  lemma NextBack(d: Descriptor, m: Value, q: Decoded, i: nat, last: seq<Byte>, rest: seq<Byte>) returns (p: Decoded)
    requires IsSound(d) && IsMessage(d, m) && i < |d.fields| && Reached(d, m, q.m, q.seen, i)
    requires EncodeField(d, m, i) == Some(last) && |last| < U32 && q.rest == last + rest
    ensures DecodeFields(d, q) == DecodeFields(d, p) && p.rest == rest && Reached(d, m, p.m, p.seen, i + 1)
    ensures q.seen <= p.seen <= q.seen + {i}
    decreases d, 2, i
  {
    assert IsAsFar(d, m, q.m, q.seen, i, i);
    if Count(d, m, i) == 0 {
      AbsentIsEmpty(d, m, i);
      AbsentReached(d, m, q.m, q.seen, i);
      assert last + rest == rest;
      p := q;
    } else {
      p := PresentBack(d, m, q, i, last, rest);
      PresentReached(d, m, q.m, p.m, q.seen, p.seen, i);
    }
  }

  /** Decoding what was written for the first n fields leads from start to p, with the rest of the input to come. */
  ghost predicate IsReachedFrom(d: Descriptor, m: Value, start: Decoded, p: Decoded, n: nat, rest: seq<Byte>)
    requires n <= |d.fields|
  {
    && DecodeFields(d, start) == DecodeFields(d, p) && p.rest == rest
    && Reached(d, m, p.m, p.seen, n) && forall i | i in p.seen :: i < n
  }

  lemma NothingBack(d: Descriptor, m: Value, start: Decoded, bytes: seq<Byte>, rest: seq<Byte>)
    requires IsSound(d) && IsMessage(d, m) && IsCleared(d, start.m) && start.seen == {}
    requires EncodeFields(d, m, 0) == Some(bytes) && start.rest == bytes + rest
    ensures IsReachedFrom(d, m, start, start, 0, rest)
  {
    StartIsReached(d, m, start.m);
    assert bytes + rest == rest;
  }

  lemma OneMoreBack(d: Descriptor, m: Value, start: Decoded, q: Decoded, n: nat, last: seq<Byte>, rest: seq<Byte>)
    returns (p: Decoded)
    requires IsSound(d) && IsMessage(d, m) && 0 < n <= |d.fields| && IsReachedFrom(d, m, start, q, n - 1, last + rest)
    requires EncodeField(d, m, n - 1) == Some(last) && |last| < U32
    ensures IsReachedFrom(d, m, start, p, n, rest)
    decreases d, 3, 0
  {
    p := NextBack(d, m, q, n - 1, last, rest);
  }

  /** What was written for the first n fields, and the rest of the input: the last field put with the rest. */
  lemma LastField(d: Descriptor, m: Value, n: nat, bytes: seq<Byte>, rest: seq<Byte>)
    returns (before: seq<Byte>, last: seq<Byte>)
    requires 0 < n <= |d.fields| && EncodeFields(d, m, n) == Some(bytes)
    ensures EncodeFields(d, m, n - 1) == Some(before) && EncodeField(d, m, n - 1) == Some(last)
    ensures |before| <= |bytes| && |last| <= |bytes| && bytes + rest == before + (last + rest)
  {
    before, last := EncodeFields(d, m, n - 1).value, EncodeField(d, m, n - 1).value;
    Associative(before, last, rest);
  }

  lemma {:induction false} FieldsBack(d: Descriptor, m: Value, start: Decoded, n: nat, bytes: seq<Byte>, rest: seq<Byte>)
    returns (p: Decoded)
    requires IsSound(d) && IsMessage(d, m) && IsCleared(d, start.m) && start.seen == {} && n <= |d.fields|
    requires EncodeFields(d, m, n) == Some(bytes) && |bytes| < U32 && start.rest == bytes + rest
    ensures IsReachedFrom(d, m, start, p, n, rest)
    decreases d, 3, n
  {
    if n == 0 {
      NothingBack(d, m, start, bytes, rest);
      p := start;
    } else {
      var before, last := LastField(d, m, n, bytes, rest);
      var q := FieldsBack(d, m, start, n - 1, before, last + rest);
      p := OneMoreBack(d, m, start, q, n, last, rest);
    }
  }

  lemma AllReached(d: Descriptor, m: Value, p: Decoded)
    requires IsSound(d) && IsMessage(d, m) && Reached(d, m, p.m, p.seen, |d.fields|)
    ensures AllRequired(d, p.seen) && SameMessage(d, m, p.m) && AbsentAreDefault(d, m, p.m)
  {
    forall i: nat | i < |d.fields|
      ensures SameField(d, m, p.m, i) && (d.fields[i].rule == Required ==> i in p.seen) && IsDefaultIfAbsent(d, m, p.m, i)
    {
      assert IsAsFar(d, m, p.m, p.seen, |d.fields|, i) && IsMessageField(d, m, i);
      if d.fields[i].rule == OneOf && Size(m, SizeAt(d, i)) != 0 {
        var j: nat :| j < |d.fields| && ShareUnion(d, i, j) && Size(m, SizeAt(d, i)) == d.fields[j].tag;
        assert IsAsFar(d, m, p.m, p.seen, |d.fields|, j) && IsRestored(d, m, p.m, j);
      }
    }
  }

  lemma MessageBack(d: Descriptor, m: Value, start: Value, bytes: seq<Byte>) returns (w: Value)
    requires IsSound(d) && IsMessage(d, m) && IsCleared(d, start)
    requires EncodeMessage(d, m) == Some(bytes) && |bytes| < U32
    ensures DecodeMessage(d, start, bytes) == Some(w) && SameMessage(d, m, w) && AbsentAreDefault(d, m, w)
    ensures DecodeNoInit(d, start, bytes).Some? && DecodeNoInit(d, start, bytes).value.rest == []
    decreases d, 3
  {
    assert bytes + [] == bytes;
    var p := FieldsBack(d, m, Decoded(start, {}, bytes), |d.fields|, bytes, []);
    AllReached(d, m, p);
    w := p.m;
  }

  /** Every message within its declared bounds can be encoded, and decoding what was encoded, into any struct, takes all
      of the bytes and restores every field that is present, in all submessages, arrays and unions. */
  lemma RoundTrip(d: Descriptor, m: Value, dest: Value)
    requires IsSound(d) && IsMessage(d, m)
    ensures EncodeMessage(d, m).Some?
    ensures |EncodeMessage(d, m).value| < U32 ==>
              var r := DecodeNoInit(d, SetDefaults(d, dest), EncodeMessage(d, m).value);
              r.Some? && r.value.rest == [] && SameMessage(d, m, r.value.m)
              && SameUnflagged(d, m, r.value.m) && AbsentAreDefault(d, m, r.value.m)
  {
    EncodesMessage(d, m);
    Clears(d, dest);
    if |EncodeMessage(d, m).value| < U32 {
      var w := MessageBack(d, m, SetDefaults(d, dest), EncodeMessage(d, m).value);
      SameIsUnflagged(d, m, w);
    }
  }
}
