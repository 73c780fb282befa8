/** Descriptors and messages that the round trip is promised for, and what it keeps. */
module PbBounds {
  import opened Common
  import opened PbWire
  import opened PbField
  import opened PbCodec

  // ----- descriptors -----

  /** A has flag, a count, or the tag of a union's member. */
  predicate HasSize(f: Field) {
    f.rule == Repeated || f.rule == OneOf || (f.rule == Optional && f.sizeOffset != 0)
  }

  predicate HasDistinctTags(d: Descriptor) {
    forall i, j | 0 <= i < j < |d.fields| :: d.fields[i].tag != d.fields[j].tag
  }

  /** What the encoder and the decoder can be called with: statically allocated fields, no extensions, no arrays of a
      fixed count, and distinct tags. The members of a union have their sizes at the same place. */
  ghost predicate IsStatic(d: Descriptor)
    decreases d, 0
  {
    && AreTagged(d) && HasDistinctTags(d)
    && (forall i: nat | InUnion(d, i) :: d.fields[i].sizeOffset == d.fields[i - 1].sizeOffset)
    && forall i: nat | i < |d.fields| :: IsStaticField(d.fields[i])
  }

  ghost predicate IsStaticField(f: Field)
    decreases f, 0
  {
    && f.tag < U32 && f.allocation == Static && !f.kind.Extension?
    && (f.rule == Repeated || f.rule == OneOf ==> f.sizeOffset != 0)
    && (f.kind.Submessage? ==> IsStatic(f.kind.d))
  }

  lemma {:induction false} SizeIsAtOffset(d: Descriptor, i: nat)
    requires i < |d.fields| && forall j: nat | InUnion(d, j) :: d.fields[j].sizeOffset == d.fields[j - 1].sizeOffset
    ensures SizeAt(d, i) == DataAt(d, i) + d.fields[i].sizeOffset
  {
    if InUnion(d, i) {
      SizeIsAtOffset(d, i - 1);
    }
  }

  /** Tags that a key has room for, and types with the sizes they come in. A field without a has flag has no default but
      zero. */
  ghost predicate IsSoundField(f: Field)
    decreases f, 0
  {
    && IsStaticField(f) && 1 <= f.tag < 0x2000_0000 && f.dataSize <= SIZE_MAX
    && (f.kind.Int? || f.kind.UInt? || f.kind.SInt? ==> IsWidth(f.dataSize))
    && (f.rule == Optional && f.sizeOffset == 0 ==> f.initial == None)
    && (f.kind.Submessage? ==> IsSound(f.kind.d))
  }

  /** Only the members of a union share a size. */
  predicate SizesAreApart(d: Descriptor) {
    forall i: nat, j: nat | i < |d.fields| && j < |d.fields| && i != j ::
      HasSize(d.fields[i]) && HasSize(d.fields[j]) && SizeAt(d, i) == SizeAt(d, j) ==>
        d.fields[i].rule == OneOf && d.fields[j].rule == OneOf
  }

  ghost predicate IsSound(d: Descriptor)
    decreases d, 0
  {
    && IsStatic(d) && HaveSizes(d) && SizesAreApart(d)
    && forall i: nat | i < |d.fields| :: IsSoundField(d.fields[i])
  }

  // ----- what a key leads to -----

  lemma KnownKey(d: Descriptor, p: Decoded, tag: nat, wireType: nat, bytes: seq<Byte>, i: nat)
    requires HasDistinctTags(d) && IsField(d, i, tag) && wireType < 8 && |bytes| < |p.rest|
    ensures DecodeKeyed(d, p, tag * 8 + wireType, bytes) ==
            var r := DecodeField(d, p.m, i, wireType, bytes);
            if r.None? then None else Some(Decoded(r.value.0, p.seen + {i}, r.value.1))
  {
    var r := IndexOf(d, tag);
    assert r.Some? && d.fields[r.value].tag == tag;
    assert (tag * 8 + wireType) / 8 == tag && (tag * 8 + wireType) % 8 == wireType;
  }

  lemma UnknownKey(d: Descriptor, p: Decoded, tag: nat, wireType: nat, bytes: seq<Byte>)
    requires (forall i: nat :: !IsField(d, i, tag)) && !(d.fields == [] && tag == 0) && wireType < 8 && |bytes| < |p.rest|
    ensures DecodeKeyed(d, p, tag * 8 + wireType, bytes) ==
            var rest := Skipped(wireType, bytes);
            if rest.None? then None else Some(p.(rest := rest.value))
  {
    assert (tag * 8 + wireType) / 8 == tag && (tag * 8 + wireType) % 8 == wireType;
    assert IndexOf(d, tag) == None;
  }

  lemma GoesOn(d: Descriptor, p: Decoded, key: nat, bytes: seq<Byte>)
    requires Read32(p.rest) == Some((key, bytes)) && key != 0
    ensures DecodeFields(d, p) ==
            if DecodeKeyed(d, p, key, bytes).None? then None else DecodeFields(d, DecodeKeyed(d, p, key, bytes).value)
  {
  }

  lemma GoesNoFurther(d: Descriptor, p: Decoded)
    requires p.rest != []
    ensures match Read32(p.rest)
            case None => DecodeFields(d, p).None?
            case Some((key, bytes)) => key == 0 ==> DecodeFields(d, p) == Some(p.(rest := bytes))
  {
  }

  // ----- messages -----

  ghost predicate InBounds(f: Field, v: Value)
    decreases f, 0
  {
    match f.kind
    case Bool => v == Num(0) || v == Num(1)
    case Int => v.Num? && IsSigned(v.n, f.dataSize)
    case UInt => v.Num? && 0 <= v.n < Range(f.dataSize)
    case SInt => v.Num? && IsSigned(v.n, f.dataSize)
    case Fixed32 => v.Num? && 0 <= v.n < U32
    case Fixed64 => v.Num? && 0 <= v.n < U64
    case Bytes => v.Raw? && |v.bytes| + BYTES_OFFSET <= f.dataSize
    case Text => v.Raw? && 0 !in v.bytes && |v.bytes| < f.dataSize
    case FixedBytes => v.Raw? && |v.bytes| == f.dataSize
    case Submessage(d) => IsMessage(d, v)
    case Extension => false
  }

  /** Another name for the union that field i is a member of. */
  predicate ShareUnion(d: Descriptor, i: nat, j: nat)
    requires i < |d.fields| && j < |d.fields|
  {
    d.fields[i].rule == OneOf && d.fields[j].rule == OneOf && SizeAt(d, i) == SizeAt(d, j)
  }

  ghost predicate NamesMember(d: Descriptor, m: Value, i: nat)
    requires i < |d.fields|
  {
    Size(m, SizeAt(d, i)) == 0 || exists j: nat :: j < |d.fields| && ShareUnion(d, i, j) && Size(m, SizeAt(d, i)) == d.fields[j].tag
  }

  /** The values that are present are within the declared bounds. */
  ghost predicate IsMessageField(d: Descriptor, m: Value, i: nat)
    requires i < |d.fields|
    decreases d, 0
  {
    && (d.fields[i].rule == Repeated ==> Count(d, m, i) <= d.fields[i].arraySize)
    && (d.fields[i].rule == OneOf ==> NamesMember(d, m, i))
    && forall k: nat | k < Count(d, m, i) :: InBounds(d.fields[i], Slot(m, DataAt(d, i), k))
  }

  ghost predicate IsMessage(d: Descriptor, m: Value)
    decreases d, 1
  {
    forall i: nat | i < |d.fields| :: IsMessageField(d, m, i)
  }

  // ----- what is kept -----

  ghost predicate SameValue(f: Field, v: Value, w: Value)
    decreases f, 0
  {
    if f.kind.Submessage? then SameMessage(f.kind.d, v, w) else v == w
  }

  /** A field that is sent only if it is not zero, for want of a has flag. */
  predicate IsUnflagged(f: Field) {
    f.rule == Optional && f.sizeOffset == 0
  }

  /** The same number, the same bytes, the same string up to its NUL; in a submessage, the same in all fields that have no
      has flag. */
  ghost predicate SameContent(f: Field, v: Value, w: Value)
    decreases f, 0
  {
    match f.kind
    case Submessage(d) => SameUnflagged(d, v, w)
    case FixedBytes => f.dataSize == 0 || v == w
    case Bytes => BytesOf(v) == BytesOf(w)
    case Text => UpToNul(BytesOf(v)) == UpToNul(BytesOf(w))
    case _ => NumOf(v) == NumOf(w)
  }

  /** Fields without a has flag hold the same, whether or not they were sent. */
  ghost predicate SameUnflagged(d: Descriptor, m: Value, w: Value)
    decreases d, 1
  {
    forall i: nat | i < |d.fields| && IsUnflagged(d.fields[i]) ::
      SameContent(d.fields[i], Slot(m, DataAt(d, i), 0), Slot(w, DataAt(d, i), 0))
  }

  /** The same values are present: arrays are as long, has flags say the same, and a union holds the same member. */
  ghost predicate SameField(d: Descriptor, m: Value, w: Value, i: nat)
    requires i < |d.fields|
    decreases d, 0
  {
    && Count(d, m, i) == Count(d, w, i)
    && (d.fields[i].rule == Repeated ==> Size(m, SizeAt(d, i)) == Size(w, SizeAt(d, i)))
    && (d.fields[i].rule == Optional && HasSize(d.fields[i]) ==> (Size(m, SizeAt(d, i)) == 0 <==> Size(w, SizeAt(d, i)) == 0))
    && (d.fields[i].rule == OneOf ==> Size(m, SizeAt(d, i)) == Size(w, SizeAt(d, i)))
    && forall k: nat | k < Count(d, m, i) ::
         SameValue(d.fields[i], Slot(m, DataAt(d, i), k), Slot(w, DataAt(d, i), k))
  }

  ghost predicate SameMessage(d: Descriptor, m: Value, w: Value)
    decreases d, 1
  {
    forall i: nat | i < |d.fields| :: SameField(d, m, w, i)
  }

  lemma SameValueContent(f: Field, v: Value, w: Value)
    requires SameValue(f, v, w)
    ensures SameContent(f, v, w)
    decreases f, 0
  {
    if f.kind.Submessage? {
      SameIsUnflagged(f.kind.d, v, w);
    }
  }

  /** What need not be sent is the same as what is there without it. */
  lemma DefaultContent(f: Field, v: Value, w: Value)
    requires IsDefaultValue(f, v) && IsDefaultValue(f, w)
    ensures SameContent(f, v, w)
    decreases f, 0
  {
    if f.kind.Submessage? {
      var d := f.kind.d;
      forall i: nat | i < |d.fields| && IsUnflagged(d.fields[i])
        ensures SameContent(d.fields[i], Slot(v, DataAt(d, i), 0), Slot(w, DataAt(d, i), 0))
      {
        assert IsDefaultField(d, v, i) && IsDefaultField(d, w, i);
        DefaultContent(d.fields[i], Slot(v, DataAt(d, i), 0), Slot(w, DataAt(d, i), 0));
      }
    }
  }

  /** Messages with the same present values hold the same in all fields without a has flag. */
  lemma SameIsUnflagged(d: Descriptor, m: Value, w: Value)
    requires SameMessage(d, m, w)
    ensures SameUnflagged(d, m, w)
    decreases d, 1
  {
    forall i: nat | i < |d.fields| && IsUnflagged(d.fields[i])
      ensures SameContent(d.fields[i], Slot(m, DataAt(d, i), 0), Slot(w, DataAt(d, i), 0))
    {
      assert SameField(d, m, w, i);
      if Count(d, m, i) == 0 {
        DefaultContent(d.fields[i], Slot(m, DataAt(d, i), 0), Slot(w, DataAt(d, i), 0));
      } else {
        SameValueContent(d.fields[i], Slot(m, DataAt(d, i), 0), Slot(w, DataAt(d, i), 0));
      }
    }
  }

  lemma SameDefault(f: Field, v: Value, w: Value)
    requires SameValue(f, v, w)
    ensures IsDefaultValue(f, v) == IsDefaultValue(f, w)
    decreases f, 0
  {
    if f.kind.Submessage? {
      SameDefaults(f.kind.d, v, w);
    }
  }

  lemma SameDefaultField(d: Descriptor, m: Value, w: Value, i: nat)
    requires i < |d.fields| && SameField(d, m, w, i)
    ensures IsDefaultField(d, m, i) == IsDefaultField(d, w, i)
  {
  }

  lemma SameDefaults(d: Descriptor, m: Value, w: Value)
    requires SameMessage(d, m, w)
    ensures IsDefaultMessage(d, m) == IsDefaultMessage(d, w)
  {
    forall i: nat | i < |d.fields| ensures IsDefaultField(d, m, i) == IsDefaultField(d, w, i) {
      SameDefaultField(d, m, w, i);
    }
  }

  // ----- a struct that was set to defaults -----

  ghost predicate IsClearedValue(f: Field, v: Value)
    decreases f, 0
  {
    match f.kind
    case Submessage(d) => IsCleared(d, v)
    case _ => v == if f.initial.Some? then f.initial.value else ZeroValue(f)
  }

  ghost predicate IsClearedField(d: Descriptor, m: Value, i: nat)
    requires i < |d.fields|
    decreases d, 0
  {
    && (HasSize(d.fields[i]) ==> Size(m, SizeAt(d, i)) == 0)
    && (d.fields[i].rule == Required || d.fields[i].rule == Optional ==> IsClearedValue(d.fields[i], Slot(m, DataAt(d, i), 0)))
  }

  ghost predicate IsCleared(d: Descriptor, m: Value)
    decreases d, 1
  {
    forall i: nat | i < |d.fields| :: IsClearedField(d, m, i)
  }

  /** A value that need not be sent is there already. */
  lemma ClearedIsDefault(f: Field, v: Value, w: Value)
    requires IsSoundField(f) && f.rule == Optional && f.sizeOffset == 0 && IsDefaultValue(f, v) && IsClearedValue(f, w)
    ensures IsDefaultValue(f, w)
    decreases f, 0
  {
    if f.kind.Submessage? {
      ClearedAreDefault(f.kind.d, v, w);
    }
  }

  lemma ClearedAreDefault(d: Descriptor, m: Value, w: Value)
    requires IsSound(d) && IsDefaultMessage(d, m) && IsCleared(d, w)
    ensures IsDefaultMessage(d, w)
    decreases d, 1
  {
    forall i: nat | i < |d.fields| ensures IsDefaultField(d, w, i) {
      assert IsDefaultField(d, m, i) && IsClearedField(d, w, i);
      var f := d.fields[i];
      if f.rule == Optional && f.sizeOffset == 0 {
        ClearedIsDefault(f, Slot(m, DataAt(d, i), 0), Slot(w, DataAt(d, i), 0));
      }
    }
  }

  // ----- fields do not touch each other -----

  /** Nothing but the members of field i differs. */
  ghost predicate AgreeOff(d: Descriptor, m: Value, w: Value, i: nat)
    requires i < |d.fields|
  {
    && (forall at: int, k: nat | at != DataAt(d, i) :: Slot(m, at, k) == Slot(w, at, k))
    && (forall at: int | at != SizeAt(d, i) || !HasSize(d.fields[i]) :: Size(m, at) == Size(w, at))
  }

  lemma OthersUntouched(d: Descriptor, m: Value, w: Value, i: nat, j: nat)
    requires IsSound(d) && i < |d.fields| && j < |d.fields| && i != j && AgreeOff(d, m, w, i)
    requires !ShareUnion(d, i, j)
    ensures Count(d, m, j) == Count(d, w, j) && (HasSize(d.fields[j]) ==> Size(m, SizeAt(d, j)) == Size(w, SizeAt(d, j)))
    ensures forall k: nat :: Slot(m, DataAt(d, j), k) == Slot(w, DataAt(d, j), k)
  {
    if DataAt(d, i) == DataAt(d, j) {
      MembersAreApart(d, i, j);
    }
  }

  // ----- setting defaults clears -----

  lemma ClearsValue(f: Field, base: Value)
    requires IsSoundField(f)
    ensures IsClearedValue(f, DefaultValue(f, base))
    decreases f, 0
  {
    if f.kind.Submessage? {
      Clears(f.kind.d, base);
    }
  }

  lemma SetDefaultAgrees(d: Descriptor, m: Value, i: nat)
    requires IsSound(d) && i < |d.fields|
    ensures AgreeOff(d, m, SetDefault(d, m, i), i)
    ensures HasSize(d.fields[i]) ==> Size(SetDefault(d, m, i), SizeAt(d, i)) == 0
    ensures d.fields[i].rule == Required || d.fields[i].rule == Optional ==>
              Slot(SetDefault(d, m, i), DataAt(d, i), 0) == DefaultValue(d.fields[i], Slot(m, DataAt(d, i), 0))
  {
  }

  lemma ClearsOne(d: Descriptor, m: Value, w: Value, i: nat)
    requires IsSound(d) && i < |d.fields| && w == SetDefault(d, m, i)
    ensures AgreeOff(d, m, w, i) && IsClearedField(d, w, i)
    ensures HasSize(d.fields[i]) ==> Size(w, SizeAt(d, i)) == 0
    decreases d, 0, 0
  {
    SetDefaultAgrees(d, m, i);
    ClearsValue(d.fields[i], Slot(m, DataAt(d, i), 0));
  }

  lemma StaysCleared(d: Descriptor, m: Value, w: Value, i: nat, j: nat)
    requires IsSound(d) && i < |d.fields| && j < |d.fields| && i != j && AgreeOff(d, m, w, i)
    requires IsClearedField(d, m, j) && (HasSize(d.fields[i]) ==> Size(w, SizeAt(d, i)) == 0)
    ensures IsClearedField(d, w, j)
  {
    if !ShareUnion(d, i, j) {
      OthersUntouched(d, m, w, i, j);
    }
  }

  lemma {:induction false} ClearsFirst(d: Descriptor, m: Value, n: nat)
    requires IsSound(d) && n <= |d.fields|
    ensures forall i: nat | i < n :: IsClearedField(d, SetFirstDefaults(d, m, n), i)
    decreases d, 0, n
  {
    if n > 0 {
      var before, after := SetFirstDefaults(d, m, n - 1), SetFirstDefaults(d, m, n);
      ClearsFirst(d, m, n - 1);
      ClearsOne(d, before, after, n - 1);
      forall i: nat | i < n - 1 ensures IsClearedField(d, after, i) {
        StaysCleared(d, before, after, n - 1, i);
      }
    }
  }

  /** Whatever was in a struct, setting it to defaults clears it. */
  lemma Clears(d: Descriptor, m: Value)
    requires IsSound(d)
    ensures IsCleared(d, SetDefaults(d, m))
    decreases d, 1
  {
    ClearsFirst(d, m, |d.fields|);
  }
}
