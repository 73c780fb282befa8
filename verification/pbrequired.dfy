/** Which required fields the decoder insists on: the first 64. */
module PbRequired {
  import opened Common
  import opened PbWire
  import opened PbVarint
  import opened PbField
  import opened PbCodec
  import opened PbBounds
  import opened PbRoundTrip
  import opened PbProperties

  /** Every required field occurs in the input. */
  predicate AllOccur(d: Descriptor, m: Value, bytes: seq<Byte>) {
    forall i: nat | i < |d.fields| && d.fields[i].rule == Required :: d.fields[i].tag in Tags(d, Decoded(m, {}, bytes))
  }

  /** Whatever is accepted has all required fields. */
  ghost predicate InsistsOnAll(d: Descriptor) {
    forall m: Value, bytes: seq<Byte> | DecodeMessage(d, m, bytes).Some? :: AllOccur(d, m, bytes)
  }

  lemma {:induction false} RequiredGrows(d: Descriptor, i: nat, k: nat)
    requires i <= k <= |d.fields|
    ensures RequiredBefore(d, i) <= RequiredBefore(d, k)
    ensures i < k && d.fields[i].rule == Required ==> RequiredBefore(d, i) < RequiredBefore(d, k)
  {
    if i < k {
      RequiredGrows(d, i, k - 1);
    }
  }

  /** With at most 64 required fields, input whose fields can all be decoded is accepted if and only if all of the
      required ones occur in it. */
  lemma FewRequiredAllOccur(d: Descriptor, m: Value, bytes: seq<Byte>)
    requires IsStatic(d) && RequiredBefore(d, |d.fields|) <= MAX_REQUIRED && DecodeFields(d, Decoded(m, {}, bytes)).Some?
    ensures DecodeMessage(d, m, bytes).Some? <==> AllOccur(d, m, bytes)
  {
    AcceptsIfRequiredOccur(d, m, bytes);
    forall i: nat | i < |d.fields| && d.fields[i].rule == Required ensures RequiredBefore(d, i) < MAX_REQUIRED {
      RequiredGrows(d, i, |d.fields|);
    }
  }

  /** The first required field that is not tracked. */
  lemma {:induction false} FirstUntracked(d: Descriptor, n: nat) returns (k: nat)
    requires n <= |d.fields| && RequiredBefore(d, n) > MAX_REQUIRED
    ensures k < n && d.fields[k].rule == Required && RequiredBefore(d, k) == MAX_REQUIRED
  {
    if RequiredBefore(d, n - 1) == MAX_REQUIRED {
      k := n - 1;
    } else {
      k := FirstUntracked(d, n - 1);
    }
  }

  lemma {:induction false} EncodedPrefix(d: Descriptor, m: Value, k: nat, n: nat)
    requires k <= n <= |d.fields| && EncodeFields(d, m, n).Some?
    ensures EncodeFields(d, m, k).Some? && |EncodeFields(d, m, k).value| <= |EncodeFields(d, m, n).value|
  {
    if k < n {
      EncodedPrefix(d, m, k, n - 1);
    }
  }

  /** The encoding of a message that stops before field k is accepted, when 64 required fields came before. */
  lemma StoppedIsAccepted(d: Descriptor, m: Value, start: Value, k: nat)
    requires IsSound(d) && IsMessage(d, m) && IsCleared(d, start) && k < |d.fields|
    requires d.fields[k].rule == Required && RequiredBefore(d, k) == MAX_REQUIRED
    requires EncodeFields(d, m, k).Some? && |EncodeFields(d, m, k).value| < U32
    ensures DecodeMessage(d, start, EncodeFields(d, m, k).value).Some?
    ensures d.fields[k].tag !in Tags(d, Decoded(start, {}, EncodeFields(d, m, k).value))
  {
    var bytes := EncodeFields(d, m, k).value;
    assert bytes + [] == bytes;
    var p := FieldsBack(d, m, Decoded(start, {}, bytes), k, bytes, []);
    assert DecodeFields(d, p) == Some(p);
    forall i: nat | i < |d.fields| && d.fields[i].rule == Required && RequiredBefore(d, i) < MAX_REQUIRED ensures i in p.seen {
      if k <= i {
        RequiredGrows(d, k, i);
      }
      assert IsAsFar(d, m, p.m, p.seen, k, i);
    }
    assert IsSoundField(d.fields[k]);
    SeenOccurred(d, Decoded(start, {}, bytes), k);
  }

  /** The decoder insists on all required fields if and only if there are at most 64 of them. (For a message type that has
      messages at all: some message within its bounds can be sent.) */
  lemma InsistsOnAllIff(d: Descriptor, m: Value, dest: Value)
    requires IsSound(d) && IsMessage(d, m)
    requires EncodeMessage(d, m).Some? ==> |EncodeMessage(d, m).value| < U32
    ensures InsistsOnAll(d) <==> RequiredBefore(d, |d.fields|) <= MAX_REQUIRED
  {
    if RequiredBefore(d, |d.fields|) <= MAX_REQUIRED {
      forall m: Value, bytes: seq<Byte> | DecodeMessage(d, m, bytes).Some? ensures AllOccur(d, m, bytes) {
        assert DecodeNoInit(d, m, bytes).Some?;
        FewRequiredAllOccur(d, m, bytes);
      }
    } else {
      var k := FirstUntracked(d, |d.fields|);
      EncodesMessage(d, m);
      EncodedPrefix(d, m, k, |d.fields|);
      Clears(d, dest);
      StoppedIsAccepted(d, m, SetDefaults(d, dest), k);
      assert !AllOccur(d, SetDefaults(d, dest), EncodeFields(d, m, k).value);
    }
  }

  // ----- such an input -----

  function BoolField(tag: nat): Field {
    Field(tag, Required, Static, Bool, 0, 0, 1, 0, None)
  }

  /** Required booleans with the tags from 1 on. */
  predicate AreBools(d: Descriptor) {
    |d.fields| < 0x1000_0000 && forall i | 0 <= i < |d.fields| :: d.fields[i] == BoolField(i + 1)
  }

  /** The booleans from position i up to k, all true. */
  function BoolBytes(i: nat, k: nat): seq<Byte>
    requires i <= k
    decreases k - i
  {
    if i == k then [] else Key(i + 1, 0) + ([1] + BoolBytes(i + 1, k))
  }

  lemma OneValue(d: Descriptor, m: Value, i: nat, bytes: seq<Byte>, rest: seq<Byte>)
    requires i < |d.fields| && d.fields[i].rule == Required && d.fields[i].kind.Bool? && Read32(bytes) == Some((1, rest))
    ensures DecodeField(d, m, i, 0, bytes) == Some((Put(m, DataAt(d, i), 0, Num(1)), rest))
  {
  }

  lemma ReadsOne(rest: seq<Byte>)
    ensures Read32([1] + rest) == Some((1, rest))
  {
    assert ([1] + rest)[1..] == rest;
  }

  lemma OneBool(d: Descriptor, p: Decoded, i: nat, rest: seq<Byte>, q: Decoded)
    requires AreBools(d) && i < |d.fields| && p.rest == Key(i + 1, 0) + ([1] + rest)
    requires q == Decoded(Put(p.m, DataAt(d, i), 0, Num(1)), p.seen + {i}, rest)
    ensures DecodeFields(d, p) == DecodeFields(d, q)
  {
    ReadsOne(rest);
    KeyBack(i + 1, 0, [1] + rest);
    assert IsField(d, i, i + 1) && HasDistinctTags(d);
    OneValue(d, p.m, i, [1] + rest, rest);
    KnownGoesOn(d, p, i + 1, i, 0, [1] + rest, q.m, rest);
  }

  /** What the decoder has reached once it has read the booleans from position i up to k. */
  function AfterBools(d: Descriptor, p: Decoded, i: nat, k: nat): Decoded
    requires AreBools(d) && i <= k <= |d.fields|
    decreases k - i
  {
    if i == k then p else AfterBools(d, Decoded(Put(p.m, DataAt(d, i), 0, Num(1)), p.seen + {i}, BoolBytes(i + 1, k)), i + 1, k)
  }

  lemma {:induction false} AfterBoolsSeen(d: Descriptor, p: Decoded, i: nat, k: nat)
    requires AreBools(d) && i <= k <= |d.fields|
    ensures forall x :: x in AfterBools(d, p, i, k).seen <==> x in p.seen || i <= x < k
    decreases k - i
  {
    if i < k {
      AfterBoolsSeen(d, Decoded(Put(p.m, DataAt(d, i), 0, Num(1)), p.seen + {i}, BoolBytes(i + 1, k)), i + 1, k);
    }
  }

  lemma {:induction false} BoolsDecode(d: Descriptor, p: Decoded, i: nat, k: nat)
    requires AreBools(d) && i <= k <= |d.fields| && p.rest == BoolBytes(i, k)
    ensures DecodeFields(d, p) == Some(AfterBools(d, p, i, k))
    decreases k - i
  {
    if i == k {
      NothingToDecode(d, p);
    } else {
      var next := Decoded(Put(p.m, DataAt(d, i), 0, Num(1)), p.seen + {i}, BoolBytes(i + 1, k));
      FirstBool(d, p, i, k, next);
      BoolsDecode(d, next, i + 1, k);
    }
  }

  lemma NothingToDecode(d: Descriptor, p: Decoded)
    requires p.rest == []
    ensures DecodeFields(d, p) == Some(p)
  {
  }

  lemma FirstBool(d: Descriptor, p: Decoded, i: nat, k: nat, next: Decoded)
    requires AreBools(d) && i < k <= |d.fields| && p.rest == BoolBytes(i, k)
    requires next == Decoded(Put(p.m, DataAt(d, i), 0, Num(1)), p.seen + {i}, BoolBytes(i + 1, k))
    ensures DecodeFields(d, p) == DecodeFields(d, next)
  {
    OneBool(d, p, i, BoolBytes(i + 1, k), next);
  }

  lemma {:induction false} BoolsRequired(d: Descriptor, i: nat)
    requires AreBools(d) && i <= |d.fields|
    ensures RequiredBefore(d, i) == i
  {
    if i > 0 {
      BoolsRequired(d, i - 1);
    }
  }

  /** Of more than 64 required booleans the first 64 are enough. */
  lemma FirstBoolsSuffice(d: Descriptor, m: Value, k: nat)
    requires AreBools(d) && MAX_REQUIRED <= k < |d.fields|
    ensures DecodeMessage(d, m, BoolBytes(0, k)).Some?
    ensures d.fields[k].rule == Required && d.fields[k].tag !in Tags(d, Decoded(m, {}, BoolBytes(0, k)))
  {
    var p := Decoded(m, {}, BoolBytes(0, k));
    var q := AfterBools(d, p, 0, k);
    BoolsDecode(d, p, 0, k);
    AfterBoolsSeen(d, p, 0, k);
    forall i: nat | i < |d.fields| && RequiredBefore(d, i) < MAX_REQUIRED ensures i in q.seen {
      BoolsRequired(d, i);
    }
    assert HasDistinctTags(d);
    SeenOccurred(d, p, k);
  }

  function Bools(n: nat): Descriptor {
    Descriptor(seq(n, i requires 0 <= i => BoolField(i + 1)))
  }

  /** Of 65 required booleans, 64 are enough. */
  lemma SixtyFourOfSixtyFive(m: Value)
    ensures RequiredBefore(Bools(65), 65) == 65 && Bools(65).fields[64] == BoolField(65)
    ensures DecodeMessage(Bools(65), m, BoolBytes(0, 64)).Some?
    ensures 65 !in Tags(Bools(65), Decoded(m, {}, BoolBytes(0, 64)))
  {
    BoolsRequired(Bools(65), 65);
    FirstBoolsSuffice(Bools(65), m, 64);
  }
}
