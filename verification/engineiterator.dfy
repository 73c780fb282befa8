/** What an iterator over an open reader shows, in every state of every run. */
module EngineIterator {
  import opened Common
  import opened DbFormat
  import opened Store
  import opened CompactionWork
  import opened DbIterator
  import opened Engine
  import opened EngineTheorems

  ghost predicate Ascends(cmp: Comparator, list: seq<Pair>) {
    forall p, q | 0 <= p < q < |list| :: cmp(list[p].key, list[q].key) < 0
  }

  /** Ascending lists of the same pairs are the same list. */
  lemma {:induction false} SameList(cmp: Comparator, a: seq<Pair>, b: seq<Pair>)
    requires IsTotalOrder(cmp) && Ascends(cmp, a) && Ascends(cmp, b) && forall p :: p in a <==> p in b
    ensures a == b
  {
    assert a != [] ==> a[0] in a;
    assert b != [] ==> b[0] in b;
    if a != [] && b != [] {
      SameHead(cmp, a, b);
      SameTail(cmp, a, b);
      SameList(cmp, a[1..], b[1..]);
      assert a == [a[0]] + a[1..] && b == [b[0]] + b[1..];
    }
  }

  /** The head of an ascending list is nowhere behind a larger key. */
  lemma HeadIsFirst(cmp: Comparator, a: seq<Pair>, i: nat)
    requires IsTotalOrder(cmp) && Ascends(cmp, a) && i < |a|
    ensures cmp(a[i].key, a[0].key) >= 0 && (a[i] == a[0] <==> i == 0)
  {
    assert i > 0 ==> cmp(a[0].key, a[i].key) < 0;
    assert cmp(a[0].key, a[0].key) == 0;
  }

  lemma TailMembers(cmp: Comparator, a: seq<Pair>, p: Pair)
    requires IsTotalOrder(cmp) && Ascends(cmp, a) && a != []
    ensures p in a[1..] <==> p in a && p != a[0]
  {
    assert a == [a[0]] + a[1..];
    HeadIsFirst(cmp, a, 0);
    forall i | 0 < i < |a| ensures a[i] != a[0] {
      HeadIsFirst(cmp, a, i);
    }
  }

  lemma SameHead(cmp: Comparator, a: seq<Pair>, b: seq<Pair>)
    requires IsTotalOrder(cmp) && Ascends(cmp, a) && Ascends(cmp, b) && a != [] && b != []
    requires a[0] in b && b[0] in a
    ensures a[0] == b[0]
  {
    var i: nat :| i < |b| && b[i] == a[0];
    var j: nat :| j < |a| && a[j] == b[0];
    HeadIsFirst(cmp, b, i);
    HeadIsFirst(cmp, a, j);
  }

  lemma SameTail(cmp: Comparator, a: seq<Pair>, b: seq<Pair>)
    requires IsTotalOrder(cmp) && Ascends(cmp, a) && Ascends(cmp, b) && a != [] && b != [] && a[0] == b[0]
    requires forall p :: p in a <==> p in b
    ensures forall p :: p in a[1..] <==> p in b[1..]
  {
    forall p ensures p in a[1..] <==> p in b[1..] {
      TailMembers(cmp, a, p);
      TailMembers(cmp, b, p);
    }
  }

  /** Whatever an iterator's entries are: at a snapshot their list depends only on what reads find there. */
  lemma ListIsDetermined(cmp: Comparator, a: seq<Entry>, b: seq<Entry>, snapshot: nat)
    requires IsTotalOrder(cmp) && Sorted(cmp, a) && Sorted(cmp, b) && SameAt(SetOf(a), SetOf(b), snapshot)
    ensures LiveList(a, snapshot) == LiveList(b, snapshot)
  {
    forall p ensures p in LiveList(a, snapshot) <==> p in LiveList(b, snapshot) {
      assert p == Pair(p.key, p.value);
      LiveListIsWhatReadersFind(cmp, a, snapshot, p.key, p.value);
      LiveListIsWhatReadersFind(cmp, b, snapshot, p.key, p.value);
    }
    LiveListAscends(cmp, a, snapshot, |a|);
    LiveListAscends(cmp, b, snapshot, |b|);
    SameList(cmp, LiveList(a, snapshot), LiveList(b, snapshot));
  }

  /** In every state of every run, the list an open reader's iterator moves over holds exactly the pairs that the committed
      entries give at its snapshot, in the order of their keys, through flushes, compactions and garbage collection, and
      whatever its memtable has gained. */
  lemma IteratorShowsSnapshot(
      run: seq<State>, steps: seq<Step>, i: nat, r: Reader, gained: set<Entry>, cmp: Comparator, entries: seq<Entry>)
    requires IsRun(run, steps) && i <= |steps| && run[i].open && r in run[i].readers
    requires SetOf(entries) == r.memory + TableEntries(run[i].tables, r.tables) + gained
    requires (forall e | e in gained :: e.sequence > r.snapshot) && IsTotalOrder(cmp) && Sorted(cmp, entries)
    ensures forall key, value ::
              Pair(key, value) in LiveList(entries, r.snapshot) <==> Reads(run[i].Committed(), key, r.snapshot, value)
    ensures Ascends(cmp, LiveList(entries, r.snapshot))
  {
    ReadersStayCorrect(run, steps, i, r, gained);
    forall key, value
      ensures Pair(key, value) in LiveList(entries, r.snapshot) <==> Reads(run[i].Committed(), key, r.snapshot, value)
    {
      LiveListIsWhatReadersFind(cmp, entries, r.snapshot, key, value);
    }
    LiveListAscends(cmp, entries, r.snapshot, |entries|);
  }

  /** So two iterators at the same snapshot show the same list, whichever tables and memtables they pin. */
  lemma IteratorsAgree(
      run: seq<State>, steps: seq<Step>, i: nat, r: Reader, q: Reader, cmp: Comparator, a: seq<Entry>, b: seq<Entry>,
      gainedR: set<Entry>, gainedQ: set<Entry>)
    requires IsRun(run, steps) && i <= |steps| && run[i].open && r in run[i].readers && q in run[i].readers
    requires r.snapshot == q.snapshot && forall e | e in gainedR + gainedQ :: e.sequence > r.snapshot
    requires SetOf(a) == r.memory + TableEntries(run[i].tables, r.tables) + gainedR
    requires SetOf(b) == q.memory + TableEntries(run[i].tables, q.tables) + gainedQ
    requires IsTotalOrder(cmp) && Sorted(cmp, a) && Sorted(cmp, b)
    ensures LiveList(a, r.snapshot) == LiveList(b, r.snapshot)
  {
    ReadersStayCorrect(run, steps, i, r, gainedR);
    ReadersStayCorrect(run, steps, i, q, gainedQ);
    ListIsDetermined(cmp, a, b, r.snapshot);
  }
}
