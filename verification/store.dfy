/** What a set of stored entries means to a reader. */
module Store {
  import opened DbFormat

  datatype Entry = Entry(key: Bytes, sequence: nat, ty: ValueType, value: Bytes)

  function KeyOf(e: Entry): ParsedInternalKey {
    ParsedInternalKey(e.key, e.sequence, e.ty)
  }

  lemma FirstIndexOf(s: seq<Entry>, e: Entry) returns (i: nat)
    requires e in s
    ensures i < |s| && s[i] == e && forall j | 0 <= j < i :: s[j] != e
  {
    i := 0;
    while s[i] != e
      invariant i < |s| && e in s[i..] && forall j | 0 <= j < i :: s[j] != e
      decreases |s| - i
    {
      i := i + 1;
    }
  }

  ghost predicate Visible(e: Entry, key: Bytes, snapshot: nat) {
    e.key == key && e.sequence <= snapshot
  }

  /** e is the newest entry of its key that a reader at the snapshot may see. */
  ghost predicate IsNewest(entries: set<Entry>, key: Bytes, snapshot: nat, e: Entry) {
    && e in entries && Visible(e, key, snapshot)
    && forall f | f in entries && Visible(f, key, snapshot) :: f.sequence <= e.sequence
  }

  /** A reader at the snapshot finds the value: the newest visible entry holds it. When the newest
      visible entry is a deletion, or there is none, no value is found. */
  ghost predicate Reads(entries: set<Entry>, key: Bytes, snapshot: nat, value: Bytes) {
    exists e :: IsNewest(entries, key, snapshot, e) && e.ty.Value? && e.value == value
  }

  /** The two sets answer every read at the snapshot alike. */
  ghost predicate SameAt(a: set<Entry>, b: set<Entry>, snapshot: nat) {
    forall key, value :: Reads(a, key, snapshot, value) <==> Reads(b, key, snapshot, value)
  }

  ghost predicate AllNewer(newer: set<Entry>, older: set<Entry>) {
    forall e, f | e in newer && f in older :: f.sequence < e.sequence
  }

  /** No two entries of a key share a sequence number. */
  ghost predicate OneEntryPerNumber(entries: set<Entry>) {
    forall e, f | e in entries && f in entries && e.key == f.key && e.sequence == f.sequence :: e == f
  }

  lemma SameThrough(a: set<Entry>, b: set<Entry>, c: set<Entry>, snapshot: nat)
    requires SameAt(b, a, snapshot) && SameAt(b, c, snapshot)
    ensures SameAt(a, c, snapshot)
  {
  }

  /** Entries beyond a snapshot do not affect it. */
  lemma UnseenEntries(a: set<Entry>, extra: set<Entry>, snapshot: nat)
    requires forall e | e in extra :: e.sequence > snapshot
    ensures SameAt(a + extra, a, snapshot)
  {
    forall key, value ensures Reads(a + extra, key, snapshot, value) <==> Reads(a, key, snapshot, value) {
      forall e ensures IsNewest(a + extra, key, snapshot, e) <==> IsNewest(a, key, snapshot, e) {}
    }
  }

  /** A newer layer settles every key it holds and leaves the others to the older one. */
  lemma ReadsLayered(newer: set<Entry>, older: set<Entry>, key: Bytes, snapshot: nat, value: Bytes)
    requires AllNewer(newer, older)
    ensures Reads(newer + older, key, snapshot, value) <==>
            if exists e :: e in newer && Visible(e, key, snapshot)
            then Reads(newer, key, snapshot, value)
            else Reads(older, key, snapshot, value)
  {
    if w :| w in newer && Visible(w, key, snapshot) {
      forall e ensures IsNewest(newer + older, key, snapshot, e) <==> IsNewest(newer, key, snapshot, e) {
        if IsNewest(newer + older, key, snapshot, e) {
          assert w.sequence <= e.sequence;
        }
      }
    } else {
      forall e ensures IsNewest(newer + older, key, snapshot, e) <==> IsNewest(older, key, snapshot, e) {}
    }
  }

  /** Equivalent old layers stay equivalent under a common newer layer. */
  lemma SameUnderNewer(a: set<Entry>, b: set<Entry>, newer: set<Entry>, snapshot: nat)
    requires SameAt(a, b, snapshot)
    requires AllNewer(newer, a) && AllNewer(newer, b)
    ensures SameAt(newer + a, newer + b, snapshot)
  {
    forall key, value
      ensures Reads(newer + a, key, snapshot, value) <==> Reads(newer + b, key, snapshot, value)
    {
      ReadsLayered(newer, a, key, snapshot, value);
      ReadsLayered(newer, b, key, snapshot, value);
    }
  }
}
