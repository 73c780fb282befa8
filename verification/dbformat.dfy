/** The internal-key format of the store: user key, then an eight-byte little-endian tag that packs
    the sequence number above the value type. */
module DbFormat {
  import opened Common

  type Bytes = seq<Byte>

  const MAX_SEQUENCE_NUMBER: nat := 0xff_ffff_ffff_ffff

  datatype ValueType = Deletion | Value
  {
    function Code(): nat {
      if Deletion? then 0 else 1
    }
  }

  const VALUE_TYPE_FOR_SEEK := Value

  datatype ParsedInternalKey = ParsedInternalKey(userKey: Bytes, sequence: nat, ty: ValueType)
  {
    predicate Valid() {
      sequence <= MAX_SEQUENCE_NUMBER
    }
  }

  // ----- packing, appending and parsing -----

  function PackSequenceAndType(sequence: nat, ty: ValueType): (tag: nat)
    requires sequence <= MAX_SEQUENCE_NUMBER
    ensures tag < Pow256(8)
    ensures tag / 256 == sequence && tag % 256 == ty.Code()
  {
    assert Pow256(8) == 0x1_0000_0000_0000_0000;
    sequence * 256 + ty.Code()
  }

  function AppendInternalKey(result: Bytes, key: ParsedInternalKey): (r: Bytes)
    requires key.Valid()
    ensures |r| == |result| + |key.userKey| + 8
  {
    result + key.userKey + LittleEndian(PackSequenceAndType(key.sequence, key.ty), 8)
  }

  function Encode(key: ParsedInternalKey): Bytes
    requires key.Valid()
  {
    AppendInternalKey([], key)
  }

  function ExtractUserKey(internalKey: Bytes): Bytes
    requires |internalKey| >= 8
  {
    internalKey[..|internalKey| - 8]
  }

  function Tag(internalKey: Bytes): nat
    requires |internalKey| >= 8
  {
    FromLittleEndian(internalKey[|internalKey| - 8..])
  }

  function ParseInternalKey(internalKey: Bytes): Option<ParsedInternalKey> {
    if |internalKey| < 8 then None
    else
      var num := Tag(internalKey);
      var c := num % 256;
      if c <= Value.Code() then
        Some(ParsedInternalKey(ExtractUserKey(internalKey), num / 256, if c == 0 then Deletion else Value))
      else None
  }

  /** Parsing is the exact inverse of appending to an empty string: it succeeds on precisely the
      strings that encode a key whose sequence number fits in 56 bits. */
  lemma ParseInvertsAppend(internalKey: Bytes, key: ParsedInternalKey)
    ensures ParseInternalKey(internalKey) == Some(key) <==> key.Valid() && internalKey == Encode(key)
  {
    assert Pow256(8) == 0x1_0000_0000_0000_0000;
    if key.Valid() && internalKey == Encode(key) {
      LittleEndianBack(PackSequenceAndType(key.sequence, key.ty), 8);
      assert internalKey[|internalKey| - 8..] == LittleEndian(PackSequenceAndType(key.sequence, key.ty), 8);
      assert ExtractUserKey(internalKey) == key.userKey;
    }
    if ParseInternalKey(internalKey) == Some(key) {
      var num := Tag(internalKey);
      assert num == key.sequence * 256 + key.ty.Code();
      LittleEndianOnto(internalKey[|internalKey| - 8..]);
      assert internalKey == ExtractUserKey(internalKey) + internalKey[|internalKey| - 8..];
    }
  }

  lemma EncodeParts(key: ParsedInternalKey)
    requires key.Valid()
    ensures |Encode(key)| >= 8
    ensures ExtractUserKey(Encode(key)) == key.userKey
    ensures Tag(Encode(key)) == key.sequence * 256 + key.ty.Code()
  {
    ParseInvertsAppend(Encode(key), key);
  }

  // ----- the order -----

  /** A user comparator: negative, zero or positive, and a total order over byte strings. */
  type Comparator = (Bytes, Bytes) -> int

  ghost predicate IsTotalOrder(cmp: Comparator) {
    && (forall a, b :: cmp(a, b) == 0 <==> a == b)
    && (forall a, b :: cmp(a, b) < 0 <==> cmp(b, a) > 0)
    && (forall a, b, c {:trigger Chain(cmp, a, b, c)} :: Chain(cmp, a, b, c))
  }

  /** Transitivity, instantiated only where a proof mentions it. */
  ghost predicate Chain(cmp: Comparator, a: Bytes, b: Bytes, c: Bytes) {
    cmp(a, b) < 0 && cmp(b, c) < 0 ==> cmp(a, c) < 0
  }

  function Compare(cmp: Comparator, akey: Bytes, bkey: Bytes): int
    requires |akey| >= 8 && |bkey| >= 8
  {
    var r := cmp(ExtractUserKey(akey), ExtractUserKey(bkey));
    if r == 0 then
      var anum, bnum := Tag(akey), Tag(bkey);
      if anum > bnum then -1 else if anum < bnum then 1 else 0
    else r
  }

  /** The documented order: user key ascending, then sequence number descending, then type descending. */
  predicate Precedes(cmp: Comparator, a: ParsedInternalKey, b: ParsedInternalKey) {
    || cmp(a.userKey, b.userKey) < 0
    || (a.userKey == b.userKey
        && (a.sequence > b.sequence || (a.sequence == b.sequence && a.ty.Value? && b.ty.Deletion?)))
  }

  /** Comparing encoded keys realises the documented order. */
  lemma CompareRealisesOrder(cmp: Comparator, a: ParsedInternalKey, b: ParsedInternalKey)
    requires IsTotalOrder(cmp) && a.Valid() && b.Valid()
    ensures |Encode(a)| >= 8 && |Encode(b)| >= 8
    ensures Compare(cmp, Encode(a), Encode(b)) < 0 <==> Precedes(cmp, a, b)
    ensures Compare(cmp, Encode(a), Encode(b)) == 0 <==> a == b
    ensures Compare(cmp, Encode(a), Encode(b)) > 0 <==> Precedes(cmp, b, a)
  {
    EncodeParts(a);
    EncodeParts(b);
  }

  /** The key to seek for user key k at snapshot s sorts at or before exactly those entries of k whose
      sequence number is at most s. */
  lemma SeekKeyBounds(cmp: Comparator, k: Bytes, s: nat, e: ParsedInternalKey)
    requires IsTotalOrder(cmp) && s <= MAX_SEQUENCE_NUMBER && e.Valid() && e.userKey == k
    ensures
      var seek := Encode(ParsedInternalKey(k, s, VALUE_TYPE_FOR_SEEK));
      |seek| >= 8 && |Encode(e)| >= 8 && (Compare(cmp, seek, Encode(e)) <= 0 <==> e.sequence <= s)
  {
    CompareRealisesOrder(cmp, ParsedInternalKey(k, s, VALUE_TYPE_FOR_SEEK), e);
  }

  // ----- index-key shortening -----

  /** The contract of a user comparator's FindShortestSeparator: a start below the limit moves to some
      string in [start, limit); any other start is left alone. */
  ghost predicate IsSeparator(cmp: Comparator, sep: (Bytes, Bytes) -> Bytes) {
    forall a, b :: if cmp(a, b) < 0 then cmp(a, sep(a, b)) <= 0 && cmp(sep(a, b), b) < 0 else sep(a, b) == a
  }

  /** The contract of a user comparator's FindShortSuccessor. */
  ghost predicate IsSuccessor(cmp: Comparator, succ: Bytes -> Bytes) {
    forall a :: cmp(a, succ(a)) <= 0
  }

  lemma EarliestKey(userKey: Bytes)
    ensures ParsedInternalKey(userKey, MAX_SEQUENCE_NUMBER, VALUE_TYPE_FOR_SEEK).Valid()
    ensures
      var r := userKey + LittleEndian(PackSequenceAndType(MAX_SEQUENCE_NUMBER, VALUE_TYPE_FOR_SEEK), 8);
      |r| == |userKey| + 8 && ExtractUserKey(r) == userKey && Tag(r) == 0xffff_ffff_ffff_ff01
  {
    var k := ParsedInternalKey(userKey, MAX_SEQUENCE_NUMBER, VALUE_TYPE_FOR_SEEK);
    assert Encode(k) == userKey + LittleEndian(PackSequenceAndType(MAX_SEQUENCE_NUMBER, VALUE_TYPE_FOR_SEEK), 8);
    EncodeParts(k);
  }

  /** The key at the head of all entries of its user key: nothing with that user key sorts before it. */
  ghost predicate HeadsItsUserKey(cmp: Comparator, r: Bytes) {
    && |r| >= 8
    && forall e: ParsedInternalKey | e.Valid() && e.userKey == ExtractUserKey(r) ::
         |Encode(e)| >= 8 && Compare(cmp, r, Encode(e)) <= 0
  }

  lemma EarliestKeyHeads(cmp: Comparator, r: Bytes)
    requires IsTotalOrder(cmp)
    requires |r| >= 8 && Tag(r) == 0xffff_ffff_ffff_ff01
    ensures HeadsItsUserKey(cmp, r)
  {
    forall e: ParsedInternalKey | e.Valid() && e.userKey == ExtractUserKey(r)
      ensures |Encode(e)| >= 8 && Compare(cmp, r, Encode(e)) <= 0
    {
      EncodeParts(e);
    }
  }

  /** Shortening keeps the key inside [start, limit) of the internal order. The key changes exactly when the
      user comparator offers a shorter, larger user key, and then becomes the first key of that user key. */
  method FindShortestSeparator(cmp: Comparator, sep: (Bytes, Bytes) -> Bytes, start: Bytes, limit: Bytes)
    returns (r: Bytes)
    requires IsTotalOrder(cmp) && IsSeparator(cmp, sep)
    requires |start| >= 8 && |limit| >= 8
    ensures 8 <= |r| <= |start|
    ensures
      var tmp := sep(ExtractUserKey(start), ExtractUserKey(limit));
      if |tmp| + 8 < |start| && cmp(ExtractUserKey(start), tmp) < 0
      then ExtractUserKey(r) == tmp && HeadsItsUserKey(cmp, r)
      else r == start
    ensures Compare(cmp, start, r) <= 0
    ensures Compare(cmp, start, limit) < 0 ==> Compare(cmp, r, limit) < 0
  {
    r := start;
    var userStart, userLimit := ExtractUserKey(start), ExtractUserKey(limit);
    var tmp := sep(userStart, userLimit);
    if |tmp| < |userStart| && cmp(userStart, tmp) < 0 {
      EarliestKey(tmp);
      tmp := tmp + LittleEndian(PackSequenceAndType(MAX_SEQUENCE_NUMBER, VALUE_TYPE_FOR_SEEK), 8);
      r := tmp;
      EarliestKeyHeads(cmp, r);
    }
  }

  method FindShortSuccessor(cmp: Comparator, succ: Bytes -> Bytes, key: Bytes) returns (r: Bytes)
    requires IsTotalOrder(cmp) && IsSuccessor(cmp, succ)
    requires |key| >= 8
    ensures 8 <= |r| <= |key|
    ensures
      var tmp := succ(ExtractUserKey(key));
      if |tmp| + 8 < |key| && cmp(ExtractUserKey(key), tmp) < 0
      then ExtractUserKey(r) == tmp && HeadsItsUserKey(cmp, r)
      else r == key
    ensures Compare(cmp, key, r) <= 0
  {
    r := key;
    var userKey := ExtractUserKey(key);
    var tmp := succ(userKey);
    if |tmp| < |userKey| && cmp(userKey, tmp) < 0 {
      EarliestKey(tmp);
      tmp := tmp + LittleEndian(PackSequenceAndType(MAX_SEQUENCE_NUMBER, VALUE_TYPE_FOR_SEEK), 8);
      r := tmp;
      EarliestKeyHeads(cmp, r);
    }
  }
}
