/** The intrusive binary heap that orders timers. */
module BinaryHeap {

  /** A node embedded in some owner. index is its position in level order, kept for the proof only. */
  class Node<K(!new), D> {
    var left: Node?<K, D>
    var right: Node?<K, D>
    var parent: Node?<K, D>
    var key: K
    const owner: D
    ghost var index: nat

    constructor (k: K, o: D)
      ensures key == k && owner == o && left == null && right == null && parent == null
    {
      key, owner, left, right, parent, index := k, o, null, null, null, 0;
    }
  }

  // ----- the shape -----

  datatype Links<K(!new), D> = Links(left: Node?<K, D>, right: Node?<K, D>, parent: Node?<K, D>)

  ghost function At<K(!new), D>(nodes: seq<Node<K, D>>, i: nat): Node?<K, D> {
    if i < |nodes| then nodes[i] else null
  }

  function Up(i: nat): nat
    requires i > 0
  {
    (i - 1) / 2
  }

  /** The links of the node at position i of a complete tree. */
  ghost function Wires<K(!new), D>(nodes: seq<Node<K, D>>, i: nat): Links<K, D>
    requires i < |nodes|
  {
    Links(At(nodes, 2 * i + 1), At(nodes, 2 * i + 2), if i == 0 then null else nodes[Up(i)])
  }

  ghost function AllWires<K(!new), D>(nodes: seq<Node<K, D>>): seq<Links<K, D>> {
    seq(|nodes|, i requires 0 <= i < |nodes| => Wires(nodes, i))
  }

  ghost function LinksOf<K(!new), D>(node: Node<K, D>): Links<K, D>
    reads node
  {
    Links(node.left, node.right, node.parent)
  }

  /** The node at position i knows its children and its parent. */
  ghost predicate Linked<K(!new), D>(nodes: seq<Node<K, D>>, i: nat)
    requires i < |nodes|
    reads nodes
  {
    nodes[i].index == i && LinksOf(nodes[i]) == Wires(nodes, i)
  }

  /** A complete binary tree: the nodes in level order, each linked to its neighbours. */
  ghost predicate Shape<K(!new), D>(nodes: seq<Node<K, D>>)
    reads nodes
  {
    forall i {:trigger Linked(nodes, i)} | 0 <= i < |nodes| :: Linked(nodes, i)
  }

  ghost function Keys<K(!new), D>(nodes: seq<Node<K, D>>): seq<K>
    reads nodes
  {
    seq(|nodes|, i requires 0 <= i < |nodes| reads nodes => nodes[i].key)
  }

  // ----- the order -----

  /** What a comparison function must satisfy. */
  ghost predicate IsStrictWeakOrder<K(!new)>(less: (K, K) -> bool) {
    && (forall a, b :: less(a, b) ==> !less(b, a))
    && (forall a, b, c :: !less(a, b) && !less(b, c) ==> !less(a, c))
  }

  /** No node is smaller than its parent. */
  ghost predicate Above<K>(less: (K, K) -> bool, keys: seq<K>, i: nat)
    requires i < |keys|
  {
    i > 0 ==> !less(keys[i], keys[Up(i)])
  }

  ghost predicate MinHeap<K>(less: (K, K) -> bool, keys: seq<K>) {
    forall i {:trigger Above(less, keys, i)} | 0 <= i < |keys| :: Above(less, keys, i)
  }

  /** Children of c are not smaller than c's parent. */
  ghost predicate Grand<K>(less: (K, K) -> bool, keys: seq<K>, c: nat)
    requires c < |keys|
  {
    c > 0 ==> forall i | 0 < i < |keys| && Up(i) == c :: !less(keys[i], keys[Up(c)])
  }

  /** Only the edge above c may be out of order. */
  ghost predicate Rising<K>(less: (K, K) -> bool, keys: seq<K>, c: nat) {
    && c < |keys| && Grand(less, keys, c)
    && forall i {:trigger Above(less, keys, i)} | 0 <= i < |keys| && i != c :: Above(less, keys, i)
  }

  /** Only the edges around c may be out of order. */
  ghost predicate Sinking<K>(less: (K, K) -> bool, keys: seq<K>, c: nat) {
    && c < |keys| && Grand(less, keys, c)
    && forall i {:trigger Above(less, keys, i)} | 0 <= i < |keys| && i != c && (i > 0 ==> Up(i) != c) :: Above(less, keys, i)
  }

  /** No child of d is smaller than d. */
  ghost predicate Below<K>(less: (K, K) -> bool, keys: seq<K>, d: nat) {
    forall i {:trigger Above(less, keys, i)} | 0 < i < |keys| && Up(i) == d :: Above(less, keys, i)
  }

  /** A node with a smaller child is not smaller than its parent: it can only have to go down. */
  lemma OneWay<K(!new)>(less: (K, K) -> bool, keys: seq<K>, d: nat)
    requires IsStrictWeakOrder(less) && Sinking(less, keys, d) && !Below(less, keys, d)
    ensures Above(less, keys, d)
  {
    var i: nat :| 0 < i < |keys| && Up(i) == d && !Above(less, keys, i);
  }

  function Swapped<T>(s: seq<T>, i: nat, j: nat): seq<T>
    requires i < |s| && j < |s|
  {
    s[i := s[j]][j := s[i]]
  }

  lemma RiseStep<K(!new)>(less: (K, K) -> bool, keys: seq<K>, c: nat)
    requires IsStrictWeakOrder(less) && Rising(less, keys, c) && c > 0 && less(keys[c], keys[Up(c)])
    ensures Rising(less, Swapped(keys, Up(c), c), Up(c))
  {
    var p := Up(c);
    var keys' := Swapped(keys, p, c);
    forall i | 0 <= i < |keys| && i != p ensures Above(less, keys', i) {
      if i != c {
        assert Above(less, keys, i);
      }
    }
    if p > 0 {
      assert Above(less, keys, p);
      forall i | 0 < i < |keys| && Up(i) == p ensures !less(keys'[i], keys'[Up(p)]) {
        if i != c {
          assert Above(less, keys, i);
        }
      }
    }
  }

  lemma SinkStep<K(!new)>(less: (K, K) -> bool, keys: seq<K>, c: nat, s: nat)
    requires IsStrictWeakOrder(less) && Sinking(less, keys, c) && 0 < s < |keys| && Up(s) == c && less(keys[s], keys[c])
    requires forall i | 0 < i < |keys| && Up(i) == c :: !less(keys[i], keys[s])
    ensures Sinking(less, Swapped(keys, c, s), s)
    ensures Above(less, Swapped(keys, c, s), s) && Above(less, Swapped(keys, c, s), c)
  {
    var keys' := Swapped(keys, c, s);
    forall i | 0 <= i < |keys| && (i > 0 ==> Up(i) != s) ensures Above(less, keys', i) {
      if i > 0 && Up(i) != c && i != c {
        assert Above(less, keys, i);
      }
    }
    assert !less(keys[c], keys[s]);
    forall i | 0 < i < |keys| && Up(i) == s ensures !less(keys'[i], keys'[Up(s)]) {
      assert Above(less, keys, i);
    }
  }

  /** The root is the least. */
  lemma {:induction false} RootIsLeast<K(!new)>(less: (K, K) -> bool, keys: seq<K>, i: nat)
    requires IsStrictWeakOrder(less) && MinHeap(less, keys) && i < |keys|
    ensures !less(keys[i], keys[0])
    decreases i
  {
    if i > 0 {
      assert Above(less, keys, i);
      RootIsLeast(less, keys, Up(i));
    }
  }

  // ----- paths -----

  /** Where a walk that starts at node m, numbered from 1, ends when it follows the k lowest bits of path. */
  function Follow(m: nat, path: nat, k: nat): (n: nat)
    ensures m <= n && (k > 0 && m > 0 ==> m < n)
    decreases k
  {
    if k == 0 then m else Follow(2 * m + path % 2, path / 2, k - 1)
  }

  /** unit is the value of the bit the next step of the computation below will fill. */
  ghost predicate Fits(unit: nat, rest: nat, n: nat) {
    unit * rest <= n
  }

  lemma FitsHalved(unit: nat, rest: nat, n: nat)
    requires Fits(unit, rest, n)
    ensures Fits(2 * unit, rest / 2, n)
    ensures rest >= 1 ==> unit <= n
  {
    assert unit * (2 * (rest / 2)) <= unit * rest;
  }

  lemma FollowBack(rest: nat, path: nat, k: nat)
    ensures Follow(rest / 2, 2 * path + rest % 2, k + 1) == Follow(rest, path, k)
  {
  }

  /** The walk from the root to node n, as the bits below the leading one of n, the first step lowest. Being below
      n, the path fits in the machine word that holds n. */
  method PathTo(n: nat) returns (path: nat, k: nat)
    requires n >= 1
    ensures Follow(1, path, k) == n && path < n
  {
    path, k := 0, 0;
    var rest := n;
    ghost var unit: nat := 1;
    while rest >= 2
      invariant 1 <= rest && Follow(rest, path, k) == n
      invariant path < unit && Fits(unit, rest, n)
    {
      FollowBack(rest, path, k);
      FitsHalved(unit, rest, n);
      path, unit := 2 * path + rest % 2, 2 * unit;
      k := k + 1;
      rest := rest / 2;
    }
    FitsHalved(unit, rest, n);
  }

  /** One more node at the end changes the links of its parent alone. */
  lemma GrownWires<K(!new), D>(nodes: seq<Node<K, D>>, node: Node<K, D>, i: nat)
    requires i <= |nodes|
    ensures Wires(nodes + [node], i) ==
            if i == |nodes| then Links(null, null, if i == 0 then null else nodes[Up(i)])
            else if 2 * i + 1 == |nodes| then Wires(nodes, i).(left := node)
            else if 2 * i + 2 == |nodes| then Wires(nodes, i).(right := node)
            else Wires(nodes, i)
  {
  }

  /** Another node at position d changes the links of the nodes around it. */
  ghost function Replaced<K(!new), D>(nodes: seq<Node<K, D>>, was: seq<Links<K, D>>, d: nat, node: Node<K, D>): (links: seq<Links<K, D>>)
    requires d < |nodes| == |was|
    ensures |links| == |was|
  {
    var adopted := Adopted(Adopted(was, 2 * d + 1, node), 2 * d + 2, node);
    if d == 0 then adopted
    else
      var up := adopted[Up(d)];
      adopted[Up(d) := if d == 2 * Up(d) + 1 then up.(left := node) else up.(right := node)]
  }

  lemma ReplacedWires<K(!new), D>(nodes: seq<Node<K, D>>, was: seq<Links<K, D>>, d: nat, node: Node<K, D>, i: nat)
    requires d < |nodes| == |was| && i < |nodes| && was[i] == Wires(nodes, i)
    ensures Replaced(nodes, was, d, node)[i] == Wires(nodes[d := node], i)
  {
  }

  lemma ReplacedKeeps<K(!new), D>(nodes: seq<Node<K, D>>, was: seq<Links<K, D>>, d: nat, node: Node<K, D>)
    requires d < |nodes| == |was|
    ensures var two := Adopted(Adopted(was, 2 * d + 1, node), 2 * d + 2, node);
            two[d] == was[d] && (d > 0 ==> two[Up(d)].left == was[Up(d)].left)
    ensures Replaced(nodes, was, d, node)[d] == was[d]
  {
  }

  lemma ReplacedIsWired<K(!new), D>(nodes: seq<Node<K, D>>, d: nat, node: Node<K, D>)
    requires d < |nodes|
    ensures Replaced(nodes, AllWires(nodes), d, node) == AllWires(nodes[d := node])
  {
    forall i | 0 <= i < |nodes|
      ensures Replaced(nodes, AllWires(nodes), d, node)[i] == AllWires(nodes[d := node])[i]
    {
      ReplacedWires(nodes, AllWires(nodes), d, node, i);
    }
  }

  // ----- trading places, on the links alone -----

  ghost function Adopted<K(!new), D>(links: seq<Links<K, D>>, i: nat, parent: Node<K, D>): (links': seq<Links<K, D>>)
    ensures |links'| == |links|
  {
    if i < |links| then links[i := links[i].(parent := parent)] else links
  }

  lemma AdoptionKeeps<K(!new), D>(links: seq<Links<K, D>>, i: nat, parent: Node<K, D>, k: nat)
    requires k < |links|
    ensures Adopted(links, i, parent)[k].left == links[k].left && Adopted(links, i, parent)[k].right == links[k].right
    ensures k != i ==> Adopted(links, i, parent)[k] == links[k]
  {
  }

  function Sibling(c: nat): nat
    requires c > 0
  {
    if c == 2 * Up(c) + 1 then c + 1 else c - 1
  }

  /** The links after the nodes at c and above it have changed places, still listed by the old positions: what
      Swap does, one assignment after the other. */
  ghost function Rewired<K(!new), D>(nodes: seq<Node<K, D>>, was: seq<Links<K, D>>, c: nat): seq<Links<K, D>>
    requires 0 < c < |nodes| == |was|
  {
    var p := Up(c);
    var adopted := ChildrenAdopted(nodes, was, c);
    if p == 0 then adopted
    else
      var up := adopted[Up(p)];
      adopted[Up(p) := if p == 2 * Up(p) + 1 then up.(left := nodes[c]) else up.(right := nodes[c])]
  }

  ghost function ChildrenAdopted<K(!new), D>(nodes: seq<Node<K, D>>, was: seq<Links<K, D>>, c: nat): (links: seq<Links<K, D>>)
    requires 0 < c < |nodes| == |was|
    ensures |links| == |was|
  {
    var traded := Traded(nodes, was, c);
    Adopted(Adopted(Adopted(traded, Sibling(c), nodes[c]), 2 * c + 1, nodes[Up(c)]), 2 * c + 2, nodes[Up(c)])
  }

  ghost function Traded<K(!new), D>(nodes: seq<Node<K, D>>, was: seq<Links<K, D>>, c: nat): seq<Links<K, D>>
    requires 0 < c < |nodes| == |was|
  {
    var p := Up(c);
    was[p := was[c].(parent := nodes[c])]
       [c := if c == 2 * p + 1 then was[p].(left := nodes[p]) else was[p].(right := nodes[p])]
  }

  /** The same, position by position. */
  ghost function Moved<K(!new), D>(nodes: seq<Node<K, D>>, was: seq<Links<K, D>>, c: nat, i: nat): Links<K, D>
    requires 0 < c < |nodes| == |was| && i < |nodes|
  {
    var p := Up(c);
    if i == c then
      if c == 2 * p + 1 then was[p].(left := nodes[p]) else was[p].(right := nodes[p])
    else if i == p then was[c].(parent := nodes[c])
    else if i > 0 && Up(i) == p then was[i].(parent := nodes[c])
    else if i > 0 && Up(i) == c then was[i].(parent := nodes[p])
    else if p > 0 && i == Up(p) then if p == 2 * i + 1 then was[i].(left := nodes[c]) else was[i].(right := nodes[c])
    else was[i]
  }

  lemma RewiredAt<K(!new), D>(nodes: seq<Node<K, D>>, was: seq<Links<K, D>>, c: nat, i: nat)
    requires 0 < c < |nodes| == |was| && i < |nodes|
    ensures |Rewired(nodes, was, c)| == |nodes| && Rewired(nodes, was, c)[i] == Moved(nodes, was, c, i)
  {
  }

  lemma MovedIsWired<K(!new), D>(nodes: seq<Node<K, D>>, was: seq<Links<K, D>>, c: nat, i: nat)
    requires 0 < c < |nodes| == |was| && i < |nodes|
    requires was[i] == Wires(nodes, i) && was[c] == Wires(nodes, c) && was[Up(c)] == Wires(nodes, Up(c))
    ensures var p := Up(c);
            Moved(nodes, was, c, if i == p then c else if i == c then p else i) == Wires(Swapped(nodes, p, c), i)
  {
  }

  lemma RewiredIsWired<K(!new), D>(nodes: seq<Node<K, D>>, c: nat)
    requires 0 < c < |nodes|
    ensures |Rewired(nodes, AllWires(nodes), c)| == |nodes|
    ensures Swapped(Rewired(nodes, AllWires(nodes), c), Up(c), c) == AllWires(Swapped(nodes, Up(c), c))
  {
    var p := Up(c);
    var was := AllWires(nodes);
    RewiredAt(nodes, was, c, 0);
    var links := Swapped(Rewired(nodes, was, c), p, c);
    var nodes' := Swapped(nodes, p, c);
    forall i | 0 <= i < |nodes| ensures links[i] == AllWires(nodes')[i] {
      RewiredAt(nodes, was, c, if i == p then c else if i == c then p else i);
      MovedIsWired(nodes, was, c, i);
    }
  }

  class Heap<K(!new), D> {
    var min: Node?<K, D>
    var nelts: nat
    ghost var nodes: seq<Node<K, D>>
    ghost var members: set<Node<K, D>>

    ghost predicate Valid()
      reads this, nodes, members
    {
      && Shape(nodes) && nelts == |nodes| && min == At(nodes, 0)
      && (forall i | 0 <= i < |nodes| :: nodes[i] in members)
      && (forall n | n in members :: Holds(n))
    }

    constructor ()
      ensures Valid() && members == {}
    {
      min, nelts, nodes, members := null, 0, [], {};
    }

    /** The least of the members, or none. */
    method Min(less: (K, K) -> bool) returns (node: Node?<K, D>)
      requires Valid() && Ordered(less) && IsStrictWeakOrder(less)
      ensures node == null <==> members == {}
      ensures node != null ==> node in members && forall n | n in members :: !less(n.key, node.key)
    {
      node := min;
      if node == null {
        assert members == {};
      } else {
        forall n | n in members ensures !less(n.key, node.key) {
          assert Holds(n);
          RootIsLeast(less, Keys(nodes), n.index);
        }
      }
    }

    ghost predicate Holds(node: Node<K, D>)
      reads this, node
    {
      node.index < |nodes| && nodes[node.index] == node
    }

    ghost predicate PlacedAt(links: seq<Links<K, D>>, i: nat)
      requires i < |nodes| == |links|
      reads this, nodes
    {
      nodes[i].index == i && LinksOf(nodes[i]) == links[i]
    }

    /** The nodes stand at their positions, with these links. */
    ghost predicate Placed(links: seq<Links<K, D>>)
      reads this, nodes
    {
      && |links| == |nodes|
      && forall i {:trigger PlacedAt(links, i)} | 0 <= i < |nodes| :: PlacedAt(links, i)
    }

    /** Parent and child trade their link fields, and child takes parent as the child it was itself. */
    method Exchange(parent: Node<K, D>, child: Node<K, D>, ghost links: seq<Links<K, D>>)
      returns (sibling: Node?<K, D>)
      requires Placed(links) && Holds(parent) && Holds(child) && parent != child
      requires parent.left == child || parent.right == child
      modifies nodes`left, nodes`right, nodes`parent
      ensures var p, c := parent.index, child.index;
              Placed(links[p := links[c].(parent := child)]
                          [c := if links[p].left == child then links[p].(left := parent) else links[p].(right := parent)])
      ensures sibling == var was := links[parent.index]; if was.left == child then was.right else was.left
    {
      assert PlacedAt(links, parent.index) && PlacedAt(links, child.index);
      var left, right, up := parent.left, parent.right, parent.parent;
      parent.left, parent.right := child.left, child.right;
      child.left, child.right, child.parent := left, right, up;
      parent.parent := child;
      if child.left == child {
        child.left := parent;
        sibling := child.right;
      } else {
        child.right := parent;
        sibling := child.left;
      }
      ghost var p, c := parent.index, child.index;
      ghost var was := links[p];
      ghost var links' := links[p := links[c].(parent := child)]
                               [c := if was.left == child then was.(left := parent) else was.(right := parent)];
      forall i | 0 <= i < |nodes| ensures PlacedAt(links', i) {
        assert old(PlacedAt(links, i));
      }
    }

    /** If there is a node at position i, it gets a new parent. */
    method Adopt(node: Node?<K, D>, parent: Node<K, D>, ghost links: seq<Links<K, D>>, ghost i: nat)
      requires Placed(links) && node == At(nodes, i)
      modifies nodes`parent
      ensures Placed(Adopted(links, i, parent))
    {
      if node != null {
        node.parent := parent;
      }
      forall k | 0 <= k < |nodes| ensures PlacedAt(Adopted(links, i, parent), k) {
        assert old(PlacedAt(links, k)) && (node != null ==> old(PlacedAt(links, i)));
      }
    }

    /** What pointed down to one node now points to another. */
    method Redirect(up: Node?<K, D>, from: Node<K, D>, to: Node<K, D>, ghost links: seq<Links<K, D>>)
      requires Placed(links) && (up != null ==> Holds(up))
      modifies this`min, nodes`left, nodes`right
      ensures if up == null then min == to && Placed(links)
              else min == old(min) && var was := links[up.index];
                   Placed(links[up.index := if was.left == from then was.(left := to) else was.(right := to)])
    {
      if up == null {
        min := to;
        assert forall k | 0 <= k < |nodes| :: old(PlacedAt(links, k)) ==> PlacedAt(links, k);
      } else {
        assert PlacedAt(links, up.index);
        if up.left == from {
          up.left := to;
        } else {
          up.right := to;
        }
        ghost var was := links[up.index];
        ghost var links' := links[up.index := if was.left == from then was.(left := to) else was.(right := to)];
        forall k | 0 <= k < |nodes| ensures PlacedAt(links', k) {
          assert old(PlacedAt(links, k));
        }
      }
    }

    lemma ShapeIsPlaced()
      ensures Shape(nodes) <==> Placed(AllWires(nodes))
    {
      if Shape(nodes) {
        forall i | 0 <= i < |nodes| ensures PlacedAt(AllWires(nodes), i) {
          assert Linked(nodes, i);
        }
      }
      if Placed(AllWires(nodes)) {
        forall i | 0 <= i < |nodes| ensures Linked(nodes, i) {
          assert PlacedAt(AllWires(nodes), i);
        }
      }
    }

    /** What the links around c say, in terms of the nodes. */
    static ghost predicate Near(nodes: seq<Node<K, D>>, was: seq<Links<K, D>>, c: nat)
      requires 0 < c < |nodes| == |was|
    {
      var p := Up(c);
      && (if c == 2 * p + 1 then was[p].left == nodes[c] && was[p].right == At(nodes, Sibling(c))
          else was[p].right == nodes[c] && was[p].left == At(nodes, Sibling(c)) && was[p].left != nodes[c])
      && was[c].left == At(nodes, 2 * c + 1) && was[c].right == At(nodes, 2 * c + 2)
      && was[p].parent == (if p == 0 then null else nodes[Up(p)])
      && (p > 0 ==> (was[Up(p)].left == nodes[p] <==> p == 2 * Up(p) + 1))
    }

    method TradeLinks(parent: Node<K, D>, child: Node<K, D>, ghost was: seq<Links<K, D>>)
      requires Placed(was) && Holds(child) && child.index > 0 && parent == nodes[Up(child.index)]
      requires Near(nodes, was, child.index)
      modifies nodes`left, nodes`right, nodes`parent
      ensures Placed(ChildrenAdopted(nodes, was, child.index))
    {
      ghost var c := child.index;
      ghost var p := Up(c);
      assert PlacedAt(was, c) && PlacedAt(was, p);
      ghost var traded := Traded(nodes, was, c);
      ghost var one := Adopted(traded, Sibling(c), child);
      ghost var two := Adopted(one, 2 * c + 1, parent);
      assert Adopted(two, 2 * c + 2, parent) == ChildrenAdopted(nodes, was, c);
      AdoptionKeeps(traded, Sibling(c), child, p);
      AdoptionKeeps(one, 2 * c + 1, parent, p);
      var sibling := Exchange(parent, child, was);
      assert Placed(traded);
      Adopt(sibling, child, traded, Sibling(c));
      assert PlacedAt(one, p);
      Adopt(parent.left, parent, one, 2 * c + 1);
      assert PlacedAt(two, p);
      Adopt(parent.right, parent, two, 2 * c + 2);
    }

    static lemma {:induction false} AdoptedNear(nodes: seq<Node<K, D>>, was: seq<Links<K, D>>, c: nat)
      requires 0 < c < |nodes| == |was|
      ensures ChildrenAdopted(nodes, was, c)[c].parent == was[Up(c)].parent
      ensures Up(c) > 0 ==> ChildrenAdopted(nodes, was, c)[Up(Up(c))].left == was[Up(Up(c))].left
    {
    }

    method Relink(parent: Node<K, D>, child: Node<K, D>, ghost was: seq<Links<K, D>>)
      requires Placed(was) && Holds(child) && child.index > 0 && parent == nodes[Up(child.index)]
      requires Near(nodes, was, child.index)
      modifies this`min, nodes`left, nodes`right, nodes`parent
      ensures Placed(Rewired(nodes, was, child.index))
      ensures min == if Up(child.index) == 0 then child else old(min)
    {
      ghost var c := child.index;
      assert Up(c) > 0 ==> PlacedAt(was, Up(Up(c)));
      TradeLinks(parent, child, was);
      ghost var adopted := ChildrenAdopted(nodes, was, c);
      assert PlacedAt(adopted, c);
      AdoptedNear(nodes, was, c);
      Redirect(child.parent, parent, child, adopted);
    }

    lemma WiresAreNear(c: nat)
      requires Shape(nodes) && 0 < c < |nodes|
      ensures Placed(AllWires(nodes)) && Near(nodes, AllWires(nodes), c)
    {
      ShapeIsPlaced();
      var p := Up(c);
      assert Linked(nodes, c) && Linked(nodes, p);
      if Sibling(c) < |nodes| {
        assert Linked(nodes, Sibling(c));
      }
      if p > 0 && p + 1 < |nodes| {
        assert Linked(nodes, p + 1) && Linked(nodes, p - 1);
      }
    }

    method SwapNodes(parent: Node<K, D>, child: Node<K, D>)
      requires Valid() && Holds(child) && child.index > 0 && parent == nodes[Up(child.index)]
      modifies this`min, this`nodes, nodes`left, nodes`right, nodes`parent, nodes`index
      ensures |nodes| == |old(nodes)| && old(child.index) < |nodes|
      ensures nodes == Swapped(old(nodes), Up(old(child.index)), old(child.index))
      ensures Shape(nodes) && min == At(nodes, 0)
      ensures child.index == Up(old(child.index)) && parent.index == old(child.index)
    {
      ghost var c := child.index;
      ghost var p := Up(c);
      WiresAreNear(c);
      ghost var was := AllWires(nodes);
      assert PlacedAt(was, p);
      Relink(parent, child, was);
      ghost var links := Rewired(nodes, was, c);
      RewiredIsWired(nodes, c);
      Renumber(parent, child, links);
      ShapeIsPlaced();
    }

    /** Parent and child change places; both sit inside the nodes they link, so the links of up to six nodes change. */
    method Swap(parent: Node<K, D>, child: Node<K, D>)
      requires Valid() && Holds(child) && child.index > 0 && parent == nodes[Up(child.index)]
      modifies this`min, this`nodes, members`left, members`right, members`parent, members`index
      ensures Valid() && |nodes| == |old(nodes)| && old(child.index) < |nodes|
      ensures Keys(nodes) == Swapped(old(Keys(nodes)), Up(old(child.index)), old(child.index))
      ensures child.index == Up(old(child.index)) && nodes[child.index] == child
      ensures parent.index == old(child.index) && nodes[parent.index] == parent
    {
      ghost var c := child.index;
      ghost var p := Up(c);
      SwapNodes(parent, child);
      forall n | n in members ensures Holds(n) {
        assert old(Holds(n));
        ghost var k := old(n.index);
        assert Linked(nodes, if k == p then c else if k == c then p else k);
      }
      assert nodes == Swapped(old(nodes), p, c) && Linked(nodes, c) && Linked(nodes, p);
    }

    ghost method Renumber(parent: Node<K, D>, child: Node<K, D>, links: seq<Links<K, D>>)
      requires Placed(links) && Holds(child) && child.index > 0 && parent == nodes[Up(child.index)]
      modifies this`nodes, nodes`index
      ensures var c := old(child.index);
              |nodes| == |old(nodes)| == |links| && 0 < c < |nodes| && nodes == Swapped(old(nodes), Up(c), c)
              && child.index == Up(c) && parent.index == c && Placed(Swapped(links, Up(c), c))
    {
      var c := child.index;
      var p := Up(c);
      assert PlacedAt(links, p) && PlacedAt(links, c);
      child.index, parent.index := p, c;
      nodes := Swapped(nodes, p, c);
      forall i | 0 <= i < |nodes| ensures PlacedAt(Swapped(links, p, c), i) {
        assert old(PlacedAt(links, if i == p then c else if i == c then p else i));
      }
    }

    // ----- restoring the order -----

    ghost predicate Ordered(less: (K, K) -> bool)
      reads this, nodes
    {
      MinHeap(less, Keys(nodes))
    }

    /** The walk up: the node moves towards the root while it is smaller than its parent. */
    method Rise(node: Node<K, D>, less: (K, K) -> bool) returns (ghost moved: bool)
      requires Valid() && Holds(node) && IsStrictWeakOrder(less) && Rising(less, Keys(nodes), node.index)
      modifies this`min, this`nodes, members`left, members`right, members`parent, members`index
      ensures Valid() && Ordered(less)
      ensures moved <==> !old(Above(less, Keys(nodes), node.index))
      ensures !moved ==> nodes == old(nodes)
    {
      moved := false;
      assert Linked(nodes, node.index);
      while node.parent != null && less(node.key, node.parent.key)
        invariant Valid() && Holds(node) && Rising(less, Keys(nodes), node.index)
        invariant |nodes| == |old(nodes)|
        invariant moved ==> !old(Above(less, Keys(nodes), node.index))
        invariant !moved ==> nodes == old(nodes) && node.index == old(node.index)
        decreases node.index
      {
        assert Linked(nodes, node.index);
        RiseStep(less, Keys(nodes), node.index);
        Swap(node.parent, node);
        moved := true;
      }
      assert Linked(nodes, node.index);
      assert Above(less, Keys(nodes), node.index);
    }

    /** The node itself, or the smallest of its children that are smaller. */
    method Smallest(node: Node<K, D>, less: (K, K) -> bool) returns (smallest: Node<K, D>)
      requires Valid() && Holds(node) && IsStrictWeakOrder(less)
      ensures smallest == node ==> forall i | 0 < i < |nodes| && Up(i) == node.index :: Above(less, Keys(nodes), i)
      ensures smallest != node ==>
                && Holds(smallest) && smallest.index > 0 && Up(smallest.index) == node.index
                && less(smallest.key, node.key)
                && forall i | 0 < i < |nodes| && Up(i) == node.index :: !less(Keys(nodes)[i], smallest.key)
    {
      ghost var c := node.index;
      assert Linked(nodes, c);
      assert 2 * c + 1 < |nodes| ==> Linked(nodes, 2 * c + 1);
      assert 2 * c + 2 < |nodes| ==> Linked(nodes, 2 * c + 2);
      smallest := node;
      if node.left != null && less(node.left.key, smallest.key) {
        smallest := node.left;
      }
      if node.right != null && less(node.right.key, smallest.key) {
        smallest := node.right;
      }
      forall i | 0 < i < |nodes| && Up(i) == c ensures !less(Keys(nodes)[i], smallest.key) {
        assert i == 2 * c + 1 || i == 2 * c + 2;
      }
    }

    /** The walk down: the node trades places with its smallest child while that child is smaller. */
    method Sink(node: Node<K, D>, less: (K, K) -> bool) returns (ghost moved: bool)
      requires Valid() && Holds(node) && IsStrictWeakOrder(less) && Sinking(less, Keys(nodes), node.index)
      modifies this`min, this`nodes, members`left, members`right, members`parent, members`index
      ensures Valid() && Holds(node) && Rising(less, Keys(nodes), node.index) && |nodes| == |old(nodes)|
      ensures moved ==> Above(less, Keys(nodes), node.index)
      ensures moved <==> !old(Below(less, Keys(nodes), node.index))
      ensures !moved ==> nodes == old(nodes) && node.index == old(node.index)
    {
      moved := false;
      ghost var inOrder := Below(less, Keys(nodes), node.index);
      while true
        invariant Valid() && Holds(node) && Sinking(less, Keys(nodes), node.index) && |nodes| == |old(nodes)|
        invariant if moved then !inOrder && Above(less, Keys(nodes), node.index)
                  else inOrder == Below(less, Keys(nodes), node.index) && nodes == old(nodes) && node.index == old(node.index)
        decreases |nodes| - node.index
      {
        var smallest := Smallest(node, less);
        if smallest == node {
          break;
        }
        assert !Above(less, Keys(nodes), smallest.index);
        SinkBelow(node, smallest, less);
        moved := true;
      }
    }

    method SinkBelow(node: Node<K, D>, smallest: Node<K, D>, less: (K, K) -> bool)
      requires Valid() && Holds(node) && IsStrictWeakOrder(less) && Sinking(less, Keys(nodes), node.index)
      requires Holds(smallest) && smallest.index > 0 && Up(smallest.index) == node.index && less(smallest.key, node.key)
      requires forall i | 0 < i < |nodes| && Up(i) == node.index :: !less(Keys(nodes)[i], smallest.key)
      modifies this`min, this`nodes, members`left, members`right, members`parent, members`index
      ensures Valid() && Holds(node) && Sinking(less, Keys(nodes), node.index) && Above(less, Keys(nodes), node.index)
      ensures |nodes| == |old(nodes)| && node.index > old(node.index)
    {
      SinkStep(less, Keys(nodes), node.index, smallest.index);
      Swap(node, smallest);
    }

    // ----- inserting and removing -----

    /** Walks the path to node n, numbered from 1, which may be the next free place. */
    method Walk(n: nat) returns (parent: Node?<K, D>, right: bool, at: Node?<K, D>)
      requires Valid() && 1 <= n <= nelts + 1
      ensures at == At(nodes, n - 1)
      ensures n == 1 ==> parent == null
      ensures n > 1 ==> parent == nodes[Up(n - 1)] && (right <==> n - 1 == 2 * Up(n - 1) + 2)
    {
      var path, k := PathTo(n);
      parent, right, at := null, false, min;
      ghost var m := 1;
      while k > 0
        invariant 1 <= m <= n && Follow(m, path, k) == n && at == At(nodes, m - 1)
        invariant m == 1 ==> parent == null
        invariant m > 1 ==> parent == nodes[Up(m - 1)] && (right <==> m - 1 == 2 * Up(m - 1) + 2)
      {
        assert m < n && Linked(nodes, m - 1);
        parent := at;
        if path % 2 == 1 {
          at, right := at.right, true;
        } else {
          at, right := at.left, false;
        }
        m := 2 * m + path % 2;
        path, k := path / 2, k - 1;
      }
    }

    static ghost function Pointed(links: seq<Links<K, D>>, i: nat, right: bool, to: Node?<K, D>): (links': seq<Links<K, D>>)
      requires i < |links|
      ensures |links'| == |links|
    {
      links[i := if right then links[i].(right := to) else links[i].(left := to)]
    }

    /** Assigns through the pointer that the walk ended at. */
    method Assign(parent: Node?<K, D>, right: bool, to: Node?<K, D>, ghost links: seq<Links<K, D>>)
      requires Placed(links) && (parent != null ==> Holds(parent))
      modifies this`min, nodes`left, nodes`right
      ensures if parent == null then min == to && Placed(links)
              else min == old(min) && Placed(Pointed(links, parent.index, right, to))
    {
      if parent == null {
        min := to;
        assert forall k | 0 <= k < |nodes| :: old(PlacedAt(links, k)) ==> PlacedAt(links, k);
      } else {
        assert PlacedAt(links, parent.index);
        if right {
          parent.right := to;
        } else {
          parent.left := to;
        }
        forall k | 0 <= k < |nodes| ensures PlacedAt(Pointed(links, parent.index, right, to), k) {
          assert old(PlacedAt(links, k));
        }
      }
    }

    method SetLinks(node: Node<K, D>, links: Links<K, D>, ghost was: seq<Links<K, D>>)
      requires Placed(was) && forall i | 0 <= i < |nodes| :: nodes[i] != node
      modifies node`left, node`right, node`parent
      ensures LinksOf(node) == links && Placed(was)
    {
      node.left, node.right, node.parent := links.left, links.right, links.parent;
      forall i | 0 <= i < |nodes| ensures PlacedAt(was, i) {
        assert old(PlacedAt(was, i));
      }
    }

    ghost predicate Membership()
      reads this, members
    {
      (forall i | 0 <= i < |nodes| :: nodes[i] in members) && (forall n | n in members :: Holds(n))
    }

    /** The node is now one of the heap's: for the proof only. */
    ghost method Register(node: Node<K, D>, links: seq<Links<K, D>>)
      requires Placed(links) && node !in members && Membership()
      modifies this`nodes, this`members, node`index
      ensures Placed(links + [LinksOf(node)]) && Membership()
      ensures nodes == old(nodes) + [node] && members == old(members) + {node}
    {
      ghost var links' := links + [LinksOf(node)];
      node.index := |nodes|;
      nodes := nodes + [node];
      members := members + {node};
      forall i | 0 <= i < |nodes| ensures PlacedAt(links', i) && nodes[i] in members {
        if i < |nodes| - 1 {
          assert old(PlacedAt(links, i));
        }
      }
    }

    /** The links of the old nodes once a new one hangs below them. */
    static ghost function Hung(was: seq<Links<K, D>>, right: bool, node: Node<K, D>): (links: seq<Links<K, D>>)
      ensures |links| == |was|
    {
      if was == [] then was else Pointed(was, Up(|was|), right, node)
    }

    /** Hangs the node where the walk to the free place ended. */
    method HangAt(parent: Node?<K, D>, right: bool, node: Node<K, D>, ghost was: seq<Links<K, D>>)
      requires Placed(was) && Membership() && node !in members
      requires parent == if nodes == [] then null else nodes[Up(|nodes|)]
      modifies this`min, this`nodes, this`members, node`left, node`right, node`parent, node`index, members`left, members`right
      ensures Placed(Hung(was, right, node) + [Links(null, null, parent)]) && Membership()
      ensures nodes == old(nodes) + [node] && members == old(members) + {node}
      ensures min == if parent == null then node else old(min)
    {
      if parent != null {
        assert PlacedAt(was, Up(|nodes|));
      }
      SetLinks(node, Links(null, null, parent), was);
      Assign(parent, right, node, was);
      Register(node, Hung(was, right, node));
    }

    static lemma {:induction false} HungWires(nodes: seq<Node<K, D>>, node: Node<K, D>, right: bool)
      requires nodes != [] ==> (right <==> |nodes| == 2 * Up(|nodes|) + 2)
      ensures Hung(AllWires(nodes), right, node) + [Links(null, null, if nodes == [] then null else nodes[Up(|nodes|)])] ==
              AllWires(nodes + [node])
    {
      forall i | 0 <= i <= |nodes|
        ensures (Hung(AllWires(nodes), right, node) + [Links(null, null, if nodes == [] then null else nodes[Up(|nodes|)])])[i] ==
                AllWires(nodes + [node])[i]
      {
        GrownWires(nodes, node, i);
      }
    }

    /** The new node takes the left-most free place of the bottom row. */
    method Hang(node: Node<K, D>)
      requires Valid() && node !in members
      modifies this, node`left, node`right, node`parent, node`index, members`left, members`right
      ensures Valid() && nodes == old(nodes) + [node] && members == old(members) + {node}
    {
      var parent, right, at := Walk(nelts + 1);
      ghost var was := AllWires(nodes);
      HungWires(nodes, node, right);
      ShapeIsPlaced();
      HangAt(parent, right, node, was);
      ShapeIsPlaced();
      nelts := nelts + 1;
    }

    /** The node joins the heap, which stays ordered. */
    method Insert(node: Node<K, D>, less: (K, K) -> bool)
      requires Valid() && Ordered(less) && IsStrictWeakOrder(less) && node !in members
      modifies this, node`left, node`right, node`parent, node`index
      modifies members`left, members`right, members`parent, members`index
      ensures Valid() && Ordered(less) && members == old(members) + {node}
    {
      Hang(node);
      assert Linked(nodes, node.index);
      assert forall i | 0 <= i < |nodes| - 1 :: Keys(nodes)[i] == old(Keys(nodes))[i];
      forall i | 0 <= i < |nodes| && i != node.index ensures Above(less, Keys(nodes), i) {
        assert old(Above(less, Keys(nodes), i));
      }
      var moved := Rise(node, less);
    }

    /** The links once the last node is cut off. */
    static ghost function Unhung(was: seq<Links<K, D>>, right: bool): (links: seq<Links<K, D>>)
      requires was != []
      ensures |links| == |was|
    {
      if |was| == 1 then was else Pointed(was, Up(|was| - 1), right, null)
    }

    static lemma {:induction false} UnhungWires(nodes: seq<Node<K, D>>, right: bool)
      requires nodes != [] && (|nodes| > 1 ==> (right <==> |nodes| - 1 == 2 * Up(|nodes| - 1) + 2))
      ensures Unhung(AllWires(nodes), right)[..|nodes| - 1] == AllWires(nodes[..|nodes| - 1])
    {
      var less, last := nodes[..|nodes| - 1], nodes[|nodes| - 1];
      assert nodes == less + [last];
      forall i | 0 <= i < |nodes| - 1 ensures Unhung(AllWires(nodes), right)[i] == AllWires(less)[i] {
        GrownWires(less, last, i);
      }
    }

    ghost method Unregister(last: Node<K, D>, links: seq<Links<K, D>>)
      requires Placed(links) && nodes != [] && last == nodes[|nodes| - 1] && Membership()
      modifies this`nodes, this`members
      ensures Placed(links[..|links| - 1]) && Membership()
      ensures nodes == old(nodes)[..|old(nodes)| - 1] && members == old(members) - {last}
    {
      ghost var links' := links[..|nodes| - 1];
      assert PlacedAt(links, |nodes| - 1);
      nodes := nodes[..|nodes| - 1];
      members := members - {last};
      forall i | 0 <= i < |nodes| ensures PlacedAt(links', i) && nodes[i] in members {
        assert old(PlacedAt(links, i));
      }
    }

    /** Cuts the last node off, given where the walk to it ended. */
    method CutOff(parent: Node?<K, D>, right: bool, last: Node<K, D>, ghost was: seq<Links<K, D>>)
      requires Placed(was) && Membership() && nodes != [] && last == nodes[|nodes| - 1]
      requires parent == if |nodes| == 1 then null else nodes[Up(|nodes| - 1)]
      requires Unhung(was, right)[..|was| - 1] == AllWires(nodes[..|nodes| - 1])
      modifies this`min, this`nodes, this`members, members`left, members`right
      ensures Placed(AllWires(nodes)) && Membership()
      ensures nodes == old(nodes)[..|old(nodes)| - 1] && members == old(members) - {last}
      ensures min == if parent == null then null else old(min)
    {
      assert parent != null ==> PlacedAt(was, Up(|nodes| - 1));
      Assign(parent, right, null, was);
      Unregister(last, Unhung(was, right));
    }

    /** Takes the last node of the bottom row out of the tree. */
    method Unlink() returns (last: Node<K, D>)
      requires Valid() && nelts > 0
      modifies this, members`left, members`right
      ensures Valid() && nodes == old(nodes)[..|old(nodes)| - 1] && members == old(members) - {last}
      ensures last == old(nodes)[|old(nodes)| - 1] && last in old(members)
    {
      var parent, right, at := Walk(nelts);
      last := at;
      UnlinkAt(parent, right, last);
      nelts := nelts - 1;
    }

    method UnlinkAt(parent: Node?<K, D>, right: bool, last: Node<K, D>)
      requires Shape(nodes) && Membership() && nodes != [] && last == nodes[|nodes| - 1]
      requires parent == if |nodes| == 1 then null else nodes[Up(|nodes| - 1)]
      requires |nodes| > 1 ==> (right <==> |nodes| - 1 == 2 * Up(|nodes| - 1) + 2)
      modifies this`min, this`nodes, this`members, members`left, members`right
      ensures Shape(nodes) && Membership()
      ensures nodes == old(nodes)[..|old(nodes)| - 1] && members == old(members) - {last}
      ensures min == if parent == null then null else old(min)
    {
      UnhungWires(nodes, right);
      ShapeIsPlaced();
      CutOff(parent, right, last, AllWires(nodes));
      ShapeIsPlaced();
    }

    /** The pointer changes when another node takes over the place of one that leaves. */
    method Relieve(node: Node<K, D>, child: Node<K, D>, ghost was: seq<Links<K, D>>)
      requires Placed(was) && Holds(node) && forall i | 0 <= i < |nodes| :: nodes[i] != child
      requires was[node.index].left == At(nodes, 2 * node.index + 1) && was[node.index].right == At(nodes, 2 * node.index + 2)
      requires was[node.index].parent == if node.index == 0 then null else nodes[Up(node.index)]
      requires node.index > 0 ==> (was[Up(node.index)].left == node <==> node.index == 2 * Up(node.index) + 1)
      modifies this`min, child`left, child`right, child`parent, nodes`left, nodes`right, nodes`parent
      ensures Placed(Replaced(nodes, was, node.index, child)) && LinksOf(child) == was[node.index]
      ensures min == if node.index == 0 then child else old(min)
    {
      ghost var d := node.index;
      assert PlacedAt(was, d) && (d > 0 ==> PlacedAt(was, Up(d)));
      ghost var one := Adopted(was, 2 * d + 1, child);
      ghost var two := Adopted(one, 2 * d + 2, child);
      ReplacedKeeps(nodes, was, d, child);
      ghost var links := Replaced(nodes, was, d, child);
      assert links == if d == 0 then two
                      else two[Up(d) := if d == 2 * Up(d) + 1 then two[Up(d)].(left := child) else two[Up(d)].(right := child)];
      SetLinks(child, Links(node.left, node.right, node.parent), was);
      Adopt(child.left, child, was, 2 * d + 1);
      Adopt(child.right, child, one, 2 * d + 2);
      assert PlacedAt(two, d) && (d > 0 ==> PlacedAt(two, Up(d)));
      Redirect(node.parent, node, child, two);
    }

    lemma WiresAround(d: nat)
      requires Shape(nodes) && d < |nodes|
      ensures Placed(AllWires(nodes)) && AllWires(nodes)[d] == Wires(nodes, d)
      ensures d > 0 ==> (AllWires(nodes)[Up(d)].left == nodes[d] <==> d == 2 * Up(d) + 1)
    {
      ShapeIsPlaced();
      if d > 0 {
        assert Linked(nodes, d) && Linked(nodes, d - 1) && Linked(nodes, Up(d));
      }
    }

    /** Another node takes over the place of one that leaves. */
    method Replace(node: Node<K, D>, child: Node<K, D>)
      requires Valid() && Holds(node) && child !in members
      modifies this`min, this`nodes, this`members, child`left, child`right, child`parent, child`index
      modifies members`left, members`right, members`parent
      ensures Valid() && old(node.index) < |old(nodes)| && nodes == old(nodes)[old(node.index) := child]
      ensures members == old(members) - {node} + {child}
    {
      ghost var d := node.index;
      ghost var was := AllWires(nodes);
      WiresAround(d);
      Relieve(node, child, was);
      ReplacedIsWired(nodes, d, child);
      ReplacedKeeps(nodes, was, d, child);
      TakeOver(node, child, Replaced(nodes, was, d, child));
    }

    ghost method TakeOver(node: Node<K, D>, child: Node<K, D>, links: seq<Links<K, D>>)
      requires Placed(links) && Holds(node) && child !in members && Membership()
      requires LinksOf(child) == links[node.index] && links == AllWires(nodes[node.index := child])
      modifies this`nodes, this`members, child`index
      ensures Shape(nodes) && Membership()
      ensures old(node.index) < |old(nodes)| && nodes == old(nodes)[old(node.index) := child]
      ensures members == old(members) - {node} + {child}
    {
      ghost var d := node.index;
      assert PlacedAt(links, d);
      child.index := d;
      nodes := nodes[d := child];
      members := members - {node} + {child};
      forall i | 0 <= i < |nodes| ensures PlacedAt(links, i) && nodes[i] in members {
        assert old(PlacedAt(links, i));
      }
      ShapeIsPlaced();
    }

    /** Putting the last key in place of another leaves only the edges around it in doubt. */
    static lemma {:induction false} ReplacedSinks(less: (K, K) -> bool, keys: seq<K>, d: nat, key: K)
      requires IsStrictWeakOrder(less) && MinHeap(less, keys) && d < |keys|
      ensures Sinking(less, keys[d := key], d)
    {
      var keys' := keys[d := key];
      forall i | 0 <= i < |keys'| && i != d && (i > 0 ==> Up(i) != d) ensures Above(less, keys', i) {
        assert Above(less, keys, i);
      }
      forall i | d > 0 && 0 < i < |keys'| && Up(i) == d ensures !less(keys'[i], keys'[Up(d)]) {
        assert Above(less, keys, i) && Above(less, keys, d);
      }
    }

    static lemma {:induction false} PrefixOrdered(less: (K, K) -> bool, keys: seq<K>)
      requires MinHeap(less, keys) && keys != []
      ensures MinHeap(less, keys[..|keys| - 1])
    {
      var shorter := keys[..|keys| - 1];
      forall i | 0 <= i < |shorter| ensures Above(less, shorter, i) {
        assert Above(less, keys, i);
      }
    }

    /** Unlinks the last node of the bottom row; what remains is still ordered. */
    method TakeLast(less: (K, K) -> bool) returns (last: Node<K, D>)
      requires Valid() && Ordered(less) && nelts > 0
      modifies this, members`left, members`right
      ensures Valid() && Ordered(less) && members == old(members) - {last} && last in old(members)
      ensures last == old(nodes)[|old(nodes)| - 1] && nodes == old(nodes)[..|old(nodes)| - 1]
    {
      PrefixOrdered(less, Keys(nodes));
      last := Unlink();
      assert Keys(nodes) == old(Keys(nodes))[..|old(nodes)| - 1];
    }

    /** A node outside the heap takes the place of a member and walks to where it belongs. */
    method PutInPlace(node: Node<K, D>, child: Node<K, D>, less: (K, K) -> bool) returns (ghost sank: bool, ghost rose: bool)
      requires Valid() && Ordered(less) && IsStrictWeakOrder(less) && Holds(node) && child !in members
      modifies this, child`left, child`right, child`parent, child`index
      modifies members`left, members`right, members`parent, members`index
      ensures Valid() && Ordered(less) && members == old(members) - {node} + {child}
      ensures
        var d := old(node.index);
        && d < |old(nodes)|
        && var keys := old(Keys(nodes))[d := child.key];
           && (sank <==> !Below(less, keys, d)) && (rose <==> !Above(less, keys, d)) && !(sank && rose)
           && (!sank && !rose ==> nodes == old(nodes)[d := child])
    {
      ghost var d := node.index;
      ghost var keys := Keys(nodes);
      ReplacedSinks(less, keys, d, child.key);
      Replace(node, child);
      assert Keys(nodes) == keys[d := child.key] && Linked(nodes, d);
      if !Below(less, Keys(nodes), d) {
        OneWay(less, Keys(nodes), d);
      }
      sank := Sink(child, less);
      rose := Rise(child, less);
    }

    /** The nodes once one has left, and the last one has taken its place. */
    static ghost function Left(nodes: seq<Node<K, D>>, d: nat): seq<Node<K, D>> {
      if nodes == [] then []
      else
        var rest := nodes[..|nodes| - 1];
        if d < |rest| then rest[d := nodes[|nodes| - 1]] else rest
    }

    /** The node leaves the heap, which stays ordered; at most one of the two walks moves anything. */
    method Remove(node: Node<K, D>, less: (K, K) -> bool) returns (ghost sank: bool, ghost rose: bool)
      requires Valid() && Ordered(less) && IsStrictWeakOrder(less) && (nelts > 0 ==> node in members)
      modifies this, members`left, members`right, members`parent, members`index
      ensures Valid() && Ordered(less) && members == old(members) - {node}
      ensures !(sank && rose) && (nodes == Left(old(nodes), old(node.index)) || sank || rose)
    {
      sank, rose := false, false;
      if nelts == 0 {
        assert members == {};
        return;
      }
      var child := TakeLast(less);
      if child != node {
        sank, rose := PutInPlace(node, child, less);
      }
    }

    /** The least member leaves the heap. */
    method Dequeue(less: (K, K) -> bool)
      requires Valid() && Ordered(less) && IsStrictWeakOrder(less)
      modifies this, members`left, members`right, members`parent, members`index
      ensures Valid() && Ordered(less)
      ensures old(members) == {} ==> members == {}
      ensures old(members) != {} ==>
                exists n :: n in old(members) && members == old(members) - {n} && forall m | m in old(members) :: !less(m.key, n.key)
    {
      var least := Min(less);
      if least != null {
        var sank, rose := Remove(least, less);
      }
    }
  }
}
