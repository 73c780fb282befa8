/** The intrusive circular list that holds work items: a header, and the items between its next and its prev. */
module IntrusiveQueue {

  class Queue {
    var next: Queue?
    var prev: Queue?

    constructor () {
      next, prev := null, null;
    }
  }

  function After(i: nat, n: nat): (k: nat)
    requires i < n
    ensures k < n
  {
    if i + 1 == n then 0 else i + 1
  }

  /** The link from position i to the one after it holds both ways. */
  ghost predicate Linked(ring: seq<Queue>, i: nat)
    requires i < |ring|
    reads ring
  {
    ring[i].next == ring[After(i, |ring|)] && ring[After(i, |ring|)].prev == ring[i]
  }

  ghost predicate Distinct(ring: seq<Queue>) {
    forall i, j | 0 <= i < j < |ring| :: ring[i] != ring[j]
  }

  ghost predicate Ring(ring: seq<Queue>)
    reads ring
  {
    ring != [] && Distinct(ring) && forall i {:trigger Linked(ring, i)} | 0 <= i < |ring| :: Linked(ring, i)
  }

  /** The header h leads to exactly these items, in this order, and back. */
  ghost predicate IsQueue(h: Queue, items: seq<Queue>)
    reads h, items
  {
    Ring([h] + items)
  }

  method Init(q: Queue)
    modifies q
    ensures IsQueue(q, [])
  {
    q.next := q;
    q.prev := q;
    assert Linked([q], 0);
  }

  method IsEmpty(h: Queue, ghost items: seq<Queue>) returns (empty: bool)
    requires IsQueue(h, items)
    ensures empty <==> items == []
  {
    assert Linked([h] + items, 0);
    empty := h == h.next;
  }

  method Head(h: Queue, ghost items: seq<Queue>) returns (q: Queue)
    requires IsQueue(h, items)
    ensures q == if items == [] then h else items[0]
  {
    assert Linked([h] + items, 0);
    q := h.next;
  }

  method InsertTail(h: Queue, q: Queue, ghost items: seq<Queue>)
    requires IsQueue(h, items) && q != h && q !in items
    modifies h, q, items
    ensures IsQueue(h, items + [q])
  {
    ghost var ring := [h] + items;
    ghost var n := |items|;
    assert Linked(ring, n);
    q.next := h;
    q.prev := h.prev;
    h.prev.next := q;
    h.prev := q;
    ghost var ring' := [h] + (items + [q]);
    assert ring' == ring + [q] && q !in ring;
    forall i | 0 <= i < |ring'| ensures Linked(ring', i) {
      if i < n {
        assert old(Linked(ring, i));
      }
    }
  }

  method InsertHead(h: Queue, q: Queue, ghost items: seq<Queue>)
    requires IsQueue(h, items) && q != h && q !in items
    modifies h, q, items
    ensures IsQueue(h, [q] + items)
  {
    ghost var ring := [h] + items;
    assert Linked(ring, 0);
    q.next := h.next;
    q.prev := h;
    q.next.prev := q;
    h.next := q;
    ghost var ring' := [h] + ([q] + items);
    assert forall i | 1 < i < |ring'| :: ring'[i] == ring[i - 1];
    assert q !in ring;
    assert forall i | 1 < i < |ring'| :: ring'[i] != q && ring'[i] != h;
    forall i | 0 <= i < |ring'| ensures Linked(ring', i) {
      if i > 1 {
        assert old(Linked(ring, i - 1));
      }
    }
  }

  lemma Neighbours(h: Queue, q: Queue, items: seq<Queue>, k: nat)
    requires IsQueue(h, items) && k < |items| && items[k] == q
    ensures StillPoints(h, q, items[..k] + items[k + 1..], k) && q.prev != q && q.next != q
  {
    var ring := [h] + items;
    assert Linked(ring, k) && Linked(ring, k + 1);
    var rest := items[..k] + items[k + 1..];
    forall i | 0 <= i < |rest| ensures rest[i] == ring[if i < k then i + 1 else i + 2] != q {}
    assert ring[k + 1] == q && ring[0] == h;
  }

  /** The item at position k leaves; its own links stay as they were, so it does not look like an empty queue. */
  method Remove(h: Queue, q: Queue, ghost items: seq<Queue>, ghost k: nat)
    requires IsQueue(h, items) && k < |items| && items[k] == q
    modifies h, items
    ensures IsQueue(h, items[..k] + items[k + 1..])
    ensures q.next == old(q.next) != q && q.prev == old(q.prev) != q
    ensures StillPoints(h, q, items[..k] + items[k + 1..], k)
  {
    Neighbours(h, q, items, k);
    Unlink(h, q, items, k);
  }

  method Unlink(h: Queue, q: Queue, ghost items: seq<Queue>, ghost k: nat)
    requires IsQueue(h, items) && k < |items| && items[k] == q && q.prev != q && q.next != q
    modifies h, items
    ensures IsQueue(h, items[..k] + items[k + 1..]) && q.next == old(q.next) && q.prev == old(q.prev)
  {
    ghost var ring := [h] + items;
    assert Linked(ring, k) && Linked(ring, k + 1);
    q.prev.next := q.next;
    q.next.prev := q.prev;
    ghost var ring' := [h] + (items[..k] + items[k + 1..]);
    assert forall i | 0 <= i < |ring'| :: ring'[i] == ring[if i <= k then i else i + 1];
    forall i | 0 <= i < |ring'| ensures Linked(ring', i) {
      if i < k {
        assert old(Linked(ring, i));
      } else if i > k {
        assert old(Linked(ring, i + 1));
      }
    }
  }

  /** An item outside the queue points at the neighbours it would have at position k. */
  ghost predicate StillPoints(h: Queue, q: Queue, items: seq<Queue>, k: nat)
    requires k <= |items|
    reads q
  {
    && q != h && q !in items
    && q.prev == (if k == 0 then h else items[k - 1]) && q.next == (if k == |items| then h else items[k])
  }

  /** Removing an item once more changes nothing, as long as its old neighbours are still neighbours. */
  method RemoveAgain(h: Queue, q: Queue, ghost items: seq<Queue>, ghost k: nat)
    requires IsQueue(h, items) && k <= |items| && StillPoints(h, q, items, k)
    modifies h, items
    ensures IsQueue(h, items) && StillPoints(h, q, items, k)
    ensures h.next == old(h.next) && h.prev == old(h.prev)
    ensures forall i | 0 <= i < |items| :: items[i].next == old(items[i].next) && items[i].prev == old(items[i].prev)
  {
    ghost var ring := [h] + items;
    assert Linked(ring, k);
    q.prev.next := q.next;
    q.next.prev := q.prev;
    forall i | 0 <= i < |ring| ensures Linked(ring, i) {
      assert old(Linked(ring, i));
    }
  }

  /** If the neighbour left in between, removing an item once more brings the neighbour back. */
  method RemoveTooLate(h: Queue, q: Queue, a: Queue)
    requires IsQueue(h, [q, a])
    modifies h, q, a
    ensures h.next == a && a.next == h
  {
    Remove(h, q, [q, a], 0);
    assert [q, a][..0] + [q, a][1..] == [a];
    Remove(h, a, [a], 0);
    assert [a][..0] + [a][1..] == [];
    q.prev.next := q.next;
    q.next.prev := q.prev;
  }

  /** From position k on, the items go over to the header n. */
  method Split(h: Queue, q: Queue, n: Queue, ghost items: seq<Queue>, ghost k: nat)
    requires IsQueue(h, items) && k < |items| && items[k] == q && n != h && n !in items
    modifies h, n, items
    ensures IsQueue(h, items[..k]) && IsQueue(n, items[k..])
  {
    ghost var ring := [h] + items;
    assert Linked(ring, k) && Linked(ring, |items|);
    n.prev := h.prev;
    n.prev.next := n;
    n.next := q;
    h.prev := q.prev;
    h.prev.next := h;
    q.prev := n;
    ghost var front := [h] + items[..k];
    ghost var back := [n] + items[k..];
    assert forall i | 0 <= i < |front| :: front[i] == ring[i];
    assert forall i | 0 < i < |back| :: back[i] == ring[k + i] && back[i] != n;
    forall i | 0 <= i < |front| ensures Linked(front, i) {
      if i < k {
        assert old(Linked(ring, i));
      }
    }
    forall i | 0 <= i < |back| ensures Linked(back, i) {
      if 0 < i < |back| - 1 {
        assert old(Linked(ring, k + i));
      }
    }
  }

  /** All items go over to the header n. */
  method Move(h: Queue, n: Queue, ghost items: seq<Queue>)
    requires IsQueue(h, items) && n != h && n !in items
    modifies h, n, items
    ensures IsQueue(h, []) && IsQueue(n, items)
  {
    var empty := IsEmpty(h, items);
    if empty {
      assert [h] + items == [h] && Linked([h], 0);
      Init(n);
    } else {
      var q := Head(h, items);
      Split(h, q, n, items, 0);
      assert items[0..] == items && items[..0] == [];
    }
  }

  /** Two chains whose ends were joined. */
  lemma JoinedRing(h: Queue, items: seq<Queue>, n: Queue, more: seq<Queue>)
    requires Distinct([h] + (items + more))
    requires forall i | 0 <= i < |items| :: Linked([h] + items, i)
    requires forall i | 0 < i < |more| :: Linked([n] + more, i)
    requires
      var last := ([h] + items)[|items|];
      var first := (more + [h])[0];
      last.next == first && first.prev == last && (more != [] ==> more[|more| - 1].next == h && h.prev == more[|more| - 1])
    ensures IsQueue(h, items + more)
  {
    var one, two, ring := [h] + items, [n] + more, [h] + (items + more);
    forall i | 0 <= i < |ring| ensures Linked(ring, i) {
      if i < |items| {
        assert Linked(one, i);
      } else if |items| < i < |ring| - 1 {
        assert Linked(two, i - |items|);
      }
    }
  }

  lemma Apart(h: Queue, items: seq<Queue>, n: Queue, more: seq<Queue>)
    requires Distinct(([h] + items) + ([n] + more))
    ensures forall i, j | 0 <= i <= |items| && 0 <= j <= |more| :: ([h] + items)[i] != ([n] + more)[j]
    ensures Distinct([h] + (items + more))
  {
    var one, two := [h] + items, [n] + more;
    var all, ring := one + two, [h] + (items + more);
    forall i, j | 0 <= i < |one| && 0 <= j < |two| ensures one[i] != two[j] {
      assert all[i] == one[i] && all[|one| + j] == two[j];
    }
    forall i | 0 <= i < |ring| ensures ring[i] == all[if i <= |items| then i else i + 1] {}
  }

  /** The items of n follow those of h; the header n is left dangling. */
  method Add(h: Queue, n: Queue, ghost items: seq<Queue>, ghost more: seq<Queue>)
    requires IsQueue(h, items) && IsQueue(n, more)
    requires Distinct(([h] + items) + ([n] + more))
    modifies h, n, items, more
    ensures IsQueue(h, items + more)
  {
    ghost var one, two := [h] + items, [n] + more;
    Apart(h, items, n, more);
    assert Linked(one, |items|) && Linked(two, 0) && Linked(two, |more|);
    assert one[0] == h && two[0] == n;
    h.prev.next := n.next;
    n.next.prev := h.prev;
    h.prev := n.prev;
    h.prev.next := h;
    forall i | 0 <= i < |items| ensures Linked(one, i) {
      assert old(Linked(one, i));
    }
    forall i | 0 < i < |more| ensures Linked(two, i) {
      assert old(Linked(two, i));
    }
    JoinedRing(h, items, n, more);
  }
}
