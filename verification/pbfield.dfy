/** Message descriptors: where the members of a struct are, and the iterator over the fields. */
module PbField {
  import opened Common
  import opened PbWire

  /** A value in memory. A struct is kept by address: the offset of a member and an index, and the offset of its size. */
  datatype Value =
    | Num(n: int)
    | Raw(bytes: seq<Byte>)
    | Struct(data: map<(int, nat), Value>, sizes: map<int, nat>)

  datatype Rule = Required | Optional | Repeated | OneOf

  datatype Allocation = Static | Callback | Pointer

  datatype Kind =
    | Bool | Int | UInt | SInt | Fixed32 | Fixed64
    | Bytes | Text | Submessage(d: Descriptor) | Extension | FixedBytes

  /** One entry of a field list. The offset is relative to the end of the previous member, that of the size to the data. */
  datatype Field = Field(
    tag: nat, rule: Rule, allocation: Allocation, kind: Kind,
    dataOffset: nat, sizeOffset: int, dataSize: nat, arraySize: nat, initial: Option<Value>)

  /** A field list without its terminator, the entry with tag 0. */
  datatype Descriptor = Descriptor(fields: seq<Field>)

  const POINTER_SIZE: nat := 8
  const SIZE_MAX: nat := 0xFFFF_FFFF

  predicate AreTagged(d: Descriptor) {
    forall f | f in d.fields :: f.tag != 0
  }

  /** How many bytes a member takes. */
  function MemberSize(f: Field): nat {
    if f.allocation == Static && f.rule == Repeated then f.dataSize * f.arraySize
    else if f.allocation == Pointer then POINTER_SIZE
    else f.dataSize
  }

  /** A member of a union that is not its first. */
  predicate InUnion(d: Descriptor, i: nat) {
    && 0 < i < |d.fields|
    && d.fields[i - 1].rule == OneOf && d.fields[i].rule == OneOf && d.fields[i].dataOffset == SIZE_MAX
  }

  function DataAt(d: Descriptor, i: nat): nat
    requires i <= |d.fields|
  {
    if i == |d.fields| then 0
    else if i == 0 then d.fields[0].dataOffset
    else if InUnion(d, i) then DataAt(d, i - 1)
    else DataAt(d, i - 1) + MemberSize(d.fields[i - 1]) + d.fields[i].dataOffset
  }

  function SizeAt(d: Descriptor, i: nat): int
    requires i <= |d.fields|
  {
    if i == |d.fields| then 0
    else if InUnion(d, i) then SizeAt(d, i - 1)
    else DataAt(d, i) + d.fields[i].sizeOffset
  }

  function RequiredBefore(d: Descriptor, i: nat): nat
    requires i <= |d.fields|
  {
    if i == 0 then 0 else RequiredBefore(d, i - 1) + if d.fields[i - 1].rule == Required then 1 else 0
  }

  // ----- the layout of a struct -----

  /** The offsets in the list are computed from those of the members of a struct. */
  predicate IsLaidOut(d: Descriptor, members: seq<nat>) {
    && |members| == |d.fields|
    && (d.fields != [] ==> d.fields[0].dataOffset == members[0])
    && forall i | 0 < i < |d.fields| ::
         if InUnion(d, i) then members[i] == members[i - 1] && d.fields[i].sizeOffset == d.fields[i - 1].sizeOffset
         else members[i] == members[i - 1] + MemberSize(d.fields[i - 1]) + d.fields[i].dataOffset
  }

  /** Adding up the offsets leads to every member, and to its size. */
  lemma {:induction false} LeadsToMembers(d: Descriptor, members: seq<nat>, i: nat)
    requires IsLaidOut(d, members) && i < |d.fields|
    ensures DataAt(d, i) == members[i] && SizeAt(d, i) == members[i] + d.fields[i].sizeOffset
  {
    if i > 0 {
      LeadsToMembers(d, members, i - 1);
    }
  }

  predicate HaveSizes(d: Descriptor) {
    forall f | f in d.fields :: MemberSize(f) > 0
  }

  lemma {:induction false} MembersIncrease(d: Descriptor, i: nat, j: nat)
    requires HaveSizes(d) && i < j < |d.fields|
    ensures DataAt(d, i) <= DataAt(d, j)
    ensures DataAt(d, i) == DataAt(d, j) ==>
              d.fields[i].rule == OneOf && d.fields[j].rule == OneOf && SizeAt(d, i) == SizeAt(d, j)
    decreases j
  {
    assert d.fields[j - 1] in d.fields;
    if i < j - 1 {
      MembersIncrease(d, i, j - 1);
    }
  }

  /** Only members of one union share their place. */
  lemma MembersAreApart(d: Descriptor, i: nat, j: nat)
    requires HaveSizes(d) && i < |d.fields| && j < |d.fields| && i != j && DataAt(d, i) == DataAt(d, j)
    ensures d.fields[i].rule == OneOf && d.fields[j].rule == OneOf && SizeAt(d, i) == SizeAt(d, j)
  {
    if i < j {
      MembersIncrease(d, i, j);
    } else {
      MembersIncrease(d, j, i);
    }
  }

  // ----- the iterator -----

  predicate IsField(d: Descriptor, i: nat, tag: nat) {
    i < |d.fields| && d.fields[i].tag == tag && !d.fields[i].kind.Extension?
  }

  /** The k-th position from start on, around the end of the list. */
  function Around(start: nat, k: nat, n: nat): nat
    requires start < n && k <= n
  {
    if start + k < n then start + k else start + k - n
  }

  class FieldIter {
    const d: Descriptor
    var pos: nat
    var requiredIndex: nat
    var pData: int
    var pSize: int

    /** The iterator is at a field, or at the terminator of an empty list. */
    ghost predicate Valid()
      reads this
    {
      && AreTagged(d) && (pos < |d.fields| || (pos == 0 && d.fields == []))
      && requiredIndex == RequiredBefore(d, pos) && pData == DataAt(d, pos) && pSize == SizeAt(d, pos)
    }

    constructor (fields: Descriptor)
      requires AreTagged(fields)
      ensures Valid() && d == fields && pos == 0
    {
      d := fields;
      pos, requiredIndex := 0, 0;
      pData := if fields.fields == [] then 0 else fields.fields[0].dataOffset;
      pSize := if fields.fields == [] then 0 else fields.fields[0].dataOffset + fields.fields[0].sizeOffset;
    }

    method Begin() returns (some: bool)
      requires AreTagged(d)
      modifies this
      ensures Valid() && pos == 0 && some == (d.fields != [])
    {
      pos, requiredIndex := 0, 0;
      some := d.fields != [];
      pData := if some then d.fields[0].dataOffset else 0;
      pSize := pData + if some then d.fields[0].sizeOffset else 0;
    }

    /** One field on; back to the first from the last. */
    method Next() returns (more: bool)
      requires Valid()
      modifies this
      ensures Valid() && more == (old(pos) + 1 < |d.fields|) && pos == if more then old(pos) + 1 else 0
    {
      if d.fields == [] {
        return false;
      }
      var prev := d.fields[pos];
      pos := pos + 1;
      if pos == |d.fields| {
        var some := Begin();
        return false;
      }
      more := true;
      var prevSize := prev.dataSize;
      if prev.rule == OneOf && d.fields[pos].rule == OneOf && d.fields[pos].dataOffset == SIZE_MAX {
        return;
      } else if prev.allocation == Static && prev.rule == Repeated {
        prevSize := prevSize * prev.arraySize;
      } else if prev.allocation == Pointer {
        prevSize := POINTER_SIZE;
      }
      if prev.rule == Required {
        requiredIndex := requiredIndex + 1;
      }
      pData := pData + prevSize + d.fields[pos].dataOffset;
      pSize := pData + d.fields[pos].sizeOffset;
    }

    /** Whether the iterator is at a field with this tag. The terminator counts for tag 0. */
    predicate IsAt(tag: nat)
      requires pos <= |d.fields|
      reads this
    {
      if pos == |d.fields| then tag == 0 else IsField(d, pos, tag)
    }

    /** Finds a field from any position, in whatever order the fields are looked for. */
    method Find(tag: nat) returns (found: bool)
      requires Valid()
      modifies this
      ensures Valid()
      ensures found <==> (exists i: nat :: IsField(d, i, tag)) || (d.fields == [] && tag == 0)
      ensures found && d.fields != [] ==> IsField(d, pos, tag)
      ensures !found ==> pos == old(pos)
    {
      var start := pos;
      found := IsAt(tag);
      if found {
        return;
      }
      var more := Next();
      ghost var k := 1;
      while pos != start
        invariant Valid() && (d.fields != [] ==> k <= |d.fields| && pos == Around(start, k, |d.fields|))
        invariant d.fields == [] ==> pos == start
        invariant d.fields != [] ==> forall j: nat | j < k :: !IsField(d, Around(start, j, |d.fields|), tag)
        decreases |d.fields| - k
      {
        found := IsAt(tag);
        if found {
          return;
        }
        more := Next();
        k := k + 1;
      }
      assert d.fields != [] ==> k == |d.fields|;
      forall i: nat ensures !IsField(d, i, tag) {
        if i < |d.fields| {
          assert i == Around(start, if i >= start then i - start else i + |d.fields| - start, |d.fields|);
        }
      }
    }
  }
}
