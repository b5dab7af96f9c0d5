/** B+-tree nodes: the data kept in one pool slot and the operations on it.

A node is a value: an inner node with `n` keys and `n + 1` sub-trees, a leaf with
as many keys as values, or a slot on the free list. The sequences hold the used
part of the fixed arrays. `Expand` is the common view of both node kinds: the
slots of a node from left to right, each with its critical key. Every operation
is specified by what it does to that view.
*/
module BforestNode {
  import opened Options


  /** Maximum branching factor of an inner node. */
  const INNER_SIZE: nat := 8

  type Node = nat
  type Key = int
  type Value = nat

  datatype NodeData =
    | Inner(keys: seq<Key>, tree: seq<Node>)
    | Leaf(keys: seq<Key>, vals: seq<Value>)
    | Free(next: Option<Node>)

  /** A slot of a node: the critical key and the sub-tree, or the key and value of a leaf. */
  datatype Item = Item(crit: Key, node: nat)

  /** The result of removing an entry from a node. */
  datatype Removed = Healthy | Rightmost | Underflow | Empty

  /** Leaves of a map hold 7 entries, those of a set 15. */
  predicate LeafCapacity(cap: nat) {
    cap == 7 || cap == 15
  }

  function Slots(d: NodeData): nat {
    match d
    case Inner(_, tree) => |tree|
    case Leaf(_, vals) => |vals|
    case Free(_) => 0
  }

  function Capacity(d: NodeData, cap: nat): nat {
    if d.Leaf? then cap else INNER_SIZE
  }

  /** Array lengths fit, and an inner node has one key less than sub-trees. */
  predicate WellFormed(d: NodeData, cap: nat) {
    match d
    case Inner(keys, tree) => |tree| <= INNER_SIZE && |keys| == if |tree| == 0 then 0 else |tree| - 1
    case Leaf(keys, vals) => |keys| == |vals| <= cap
    case Free(_) => false
  }

  predicate HalfFull(d: NodeData, cap: nat) {
    2 * Slots(d) >= Capacity(d, cap)
  }

  /** The slots of `d`, given the critical key `c` of the whole node. The first sub-tree of
  an inner node inherits `c`; the others are introduced by a key of the node. */
  function Expand(d: NodeData, c: Key): (r: seq<Item>)
    ensures |r| <= Slots(d)
  {
    match d
    case Inner(keys, tree) =>
      seq(if |tree| <= |keys| + 1 then |tree| else 0,
          i requires 0 <= i < |tree| && |tree| <= |keys| + 1 => Item(if i == 0 then c else keys[i - 1], tree[i]))
    case Leaf(keys, vals) =>
      seq(if |vals| <= |keys| then |vals| else 0,
          i requires 0 <= i < |vals| && |vals| <= |keys| => Item(keys[i], vals[i]))
    case Free(_) => []
  }

  function InsertAt<T>(s: seq<T>, i: nat, x: T): seq<T>
    requires i <= |s|
  {
    s[..i] + [x] + s[i..]
  }

  function RemoveAt<T>(s: seq<T>, i: nat): seq<T>
    requires i < |s|
  {
    s[..i] + s[i + 1..]
  }

  /** Shift the elements to the left by `n` positions; the last `n` stay where they are. */
  function SliceShift<T>(s: seq<T>, n: nat): seq<T>
    requires n <= |s|
  {
    s[n..] + s[|s| - n..]
  }

  /** Insert `x` at position `i`, pushing out the last element. */
  function SliceInsert<T>(s: seq<T>, i: nat, x: T): seq<T>
    requires i < |s|
  {
    s[..i] + [x] + s[i..|s| - 1]
  }

  /** Drop slot `i` of a row. When the dropped slot is followed by another one, that one
  takes over its critical key. */
  function DropSlot(s: seq<Item>, i: nat): seq<Item>
    requires i < |s|
  {
    if i + 1 < |s| then s[..i] + [Item(s[i].crit, s[i + 1].node)] + s[i + 2..] else s[..i]
  }

  /** Insert `(key, node)` after sub-tree `index`; `None` when the node is full. */
  function TryInnerInsert(d: NodeData, index: nat, key: Key, node: Node): (r: Option<NodeData>)
    requires d.Inner? && 0 < |d.tree| == |d.keys| + 1 <= INNER_SIZE && index < |d.tree|
    ensures r.None? <==> |d.tree| == INNER_SIZE
    ensures r.Some? ==> r.value.Inner? && WellFormed(r.value, 7)
    ensures r.Some? ==> forall c :: Expand(r.value, c) == InsertAt(Expand(d, c), index + 1, Item(key, node))
  {
    if |d.keys| < INNER_SIZE - 1 then
      var r := Inner(InsertAt(d.keys, index, key), InsertAt(d.tree, index + 1, node));
      assert forall c :: Expand(r, c) == InsertAt(Expand(d, c), index + 1, Item(key, node));
      Some(r)
    else
      None
  }

  /** Insert `(key, value)` at `index`; `None` when the leaf is full. */
  function TryLeafInsert(d: NodeData, cap: nat, index: nat, key: Key, value: Value): (r: Option<NodeData>)
    requires d.Leaf? && WellFormed(d, cap) && index <= |d.vals|
    ensures r.None? <==> |d.vals| == cap
    ensures r.Some? ==> r.value.Leaf? && WellFormed(r.value, cap)
    ensures r.Some? ==> forall c :: Expand(r.value, c) == InsertAt(Expand(d, c), index, Item(key, value))
  {
    if |d.keys| < cap then
      var r := Leaf(InsertAt(d.keys, index, key), InsertAt(d.vals, index, value));
      assert forall c :: Expand(r, c) == InsertAt(Expand(d, c), index, Item(key, value));
      Some(r)
    else
      None
  }

  /** Where to halve a full node of `len` entries after a failed insertion at `ins`. */
  function SplitPos(len: nat, ins: nat): nat {
    if ins <= len / 2 then len / 2 else (len + 1) / 2
  }

  datatype SplitOff = SplitOff(lhsEntries: nat, rhsEntries: nat, critKey: Key, lhs: NodeData, rhs: NodeData)

  /** Split off the second half of a full node. */
  function Split(d: NodeData, cap: nat, insertIndex: nat): (r: SplitOff)
    requires LeafCapacity(cap) && WellFormed(d, cap) && Slots(d) == Capacity(d, cap)
    ensures r.lhs.Inner? == r.rhs.Inner? == d.Inner? && r.lhs.Leaf? == r.rhs.Leaf? == d.Leaf?
    ensures WellFormed(r.lhs, cap) && WellFormed(r.rhs, cap)
    ensures Slots(r.lhs) == r.lhsEntries && Slots(r.rhs) == r.rhsEntries
    ensures r.lhsEntries + r.rhsEntries == Capacity(d, cap) && r.lhsEntries > 0 && r.rhsEntries > 0
    ensures d.Leaf? ==> r.rhsEntries > 0 && r.critKey == r.rhs.keys[0]
  {
    if d.Inner? then
      var l := SplitPos(|d.tree|, insertIndex + 1);
      SplitOff(l, |d.tree| - l, d.keys[l - 1],
               Inner(d.keys[..l - 1], d.tree[..l]), Inner(d.keys[l..], d.tree[l..]))
    else
      var l := SplitPos(|d.keys|, insertIndex);
      SplitOff(l, |d.keys| - l, d.keys[l],
               Leaf(d.keys[..l], d.vals[..l]), Leaf(d.keys[l..], d.vals[l..]))
  }

  lemma InnerHalves(keys: seq<Key>, tree: seq<Node>, l: nat, c: Key)
    requires |tree| == |keys| + 1 && 0 < l < |tree|
    ensures Expand(Inner(keys, tree), c) ==
            Expand(Inner(keys[..l - 1], tree[..l]), c) + Expand(Inner(keys[l..], tree[l..]), keys[l - 1])
  {
    var e := Expand(Inner(keys, tree), c);
    assert Expand(Inner(keys[..l - 1], tree[..l]), c) == e[..l];
    assert Expand(Inner(keys[l..], tree[l..]), keys[l - 1]) == e[l..];
  }

  lemma LeafHalves(keys: seq<Key>, vals: seq<Value>, l: nat, c: Key, k: Key)
    requires |keys| == |vals| && l <= |vals|
    ensures Expand(Leaf(keys, vals), c) == Expand(Leaf(keys[..l], vals[..l]), c) + Expand(Leaf(keys[l..], vals[l..]), k)
  {
    var e := Expand(Leaf(keys, vals), c);
    assert Expand(Leaf(keys[..l], vals[..l]), c) == e[..l];
    assert Expand(Leaf(keys[l..], vals[l..]), k) == e[l..];
  }

  /** The two halves, read one after the other with the critical key between them, are the
  original node. */
  lemma SplitHalves(d: NodeData, cap: nat, insertIndex: nat, c: Key)
    requires LeafCapacity(cap) && WellFormed(d, cap) && Slots(d) == Capacity(d, cap)
    ensures var r := Split(d, cap, insertIndex);
            Expand(d, c) == Expand(r.lhs, c) + Expand(r.rhs, r.critKey)
  {
    hide Expand;
    if d.Inner? {
      InnerHalves(d.keys, d.tree, SplitPos(|d.tree|, insertIndex + 1), c);
    } else {
      var l := SplitPos(|d.keys|, insertIndex);
      LeafHalves(d.keys, d.vals, l, c, d.keys[l]);
    }
  }

  /** Health of a node of `newSize` entries after removing entry `removed`. */
  function RemovedStatus(removed: nat, newSize: nat, capacity: nat): Removed {
    if 2 * newSize >= capacity then
      if removed == newSize then Rightmost else Healthy
    else if newSize > 0 then Underflow
    else Empty
  }

  /** Remove sub-tree `index`, and the key to its left (to its right when it is the first). */
  function InnerRemove(d: NodeData, index: nat): (r: NodeData)
    requires d.Inner? && WellFormed(d, 7) && index < |d.tree|
    ensures r.Inner? && WellFormed(r, 7) && Slots(r) == Slots(d) - 1
    ensures index > 0 ==> forall c :: Expand(r, c) == RemoveAt(Expand(d, c), index)
    ensures index == 0 ==> forall c :: Expand(r, c) == DropSlot(Expand(d, c), 0)
  {
    var keys := if |d.tree| > 1 then RemoveAt(d.keys, if index == 0 then 0 else index - 1) else d.keys;
    var r := Inner(keys, RemoveAt(d.tree, index));
    assert index > 0 ==> forall c :: Expand(r, c) == RemoveAt(Expand(d, c), index);
    assert index == 0 ==> forall c :: Expand(r, c) == DropSlot(Expand(d, c), 0);
    r
  }

  /** Remove entry `index` of a leaf. */
  function LeafRemove(d: NodeData, cap: nat, index: nat): (r: NodeData)
    requires d.Leaf? && WellFormed(d, cap) && index < |d.vals|
    ensures r.Leaf? && WellFormed(r, cap) && Slots(r) == Slots(d) - 1
    ensures forall c :: Expand(r, c) == RemoveAt(Expand(d, c), index)
  {
    var r := Leaf(RemoveAt(d.keys, index), RemoveAt(d.vals, index));
    assert forall c :: Expand(r, c) == RemoveAt(Expand(d, c), index);
    r
  }

  datatype Balanced = Balanced(lhs: NodeData, rhs: NodeData, critKey: Option<Key>)

  /** Two adjacent nodes of the same kind, the left one below half capacity but not empty. */
  predicate Unbalanced(lhs: NodeData, rhs: NodeData, cap: nat) {
    && LeafCapacity(cap) && WellFormed(lhs, cap) && WellFormed(rhs, cap)
    && lhs.Inner? == rhs.Inner? && Slots(lhs) > 0 && Slots(rhs) > 0 && !HalfFull(lhs, cap)
  }

  /** Balance an underflowed node with its right sibling, whose critical key is `crit`.

  Either everything moves to the right node (`critKey` is `None`), or the entries are spread
  evenly and `critKey` is the new critical key of the right node. */
  function Balance(lhs: NodeData, crit: Key, rhs: NodeData, cap: nat): (r: Balanced)
    requires Unbalanced(lhs, rhs, cap)
    ensures r.critKey.None? <==> Slots(lhs) + Slots(rhs) <= Capacity(rhs, cap)
    ensures !r.lhs.Free? && !r.rhs.Free?
  {
    var l := Slots(lhs);
    var n := l + Slots(rhs);
    if n <= Capacity(rhs, cap) then
      // Everything fits in the right node. The left one is left with a meaningless entry.
      if lhs.Inner? then
        Balanced(Inner([], lhs.tree[..1]), Inner(lhs.keys + [crit] + rhs.keys, lhs.tree + rhs.tree), None)
      else
        Balanced(Leaf([], []), Leaf(lhs.keys + rhs.keys, lhs.vals + rhs.vals), None)
    else
      // Move some entries from right to left, the odd one going to the left.
      var m := n - n / 2 - l;
      if lhs.Inner? then
        Balanced(Inner(lhs.keys + [crit] + rhs.keys[..m - 1], lhs.tree + rhs.tree[..m]),
                 Inner(rhs.keys[m..], rhs.tree[m..]), Some(rhs.keys[m - 1]))
      else
        Balanced(Leaf(lhs.keys + rhs.keys[..m], lhs.vals + rhs.vals[..m]),
                 Leaf(rhs.keys[m..], rhs.vals[m..]), Some(rhs.keys[m]))
  }

  /** When both nodes fit in the right one, it ends up with the entries of both, in order. */
  lemma BalanceMerges(lhs: NodeData, crit: Key, rhs: NodeData, cap: nat, c: Key)
    requires Unbalanced(lhs, rhs, cap) && Balance(lhs, crit, rhs, cap).critKey.None?
    ensures var r := Balance(lhs, crit, rhs, cap).rhs;
            && r.Inner? == rhs.Inner? && r.Leaf? == rhs.Leaf? && WellFormed(r, cap)
            && Slots(r) == Slots(lhs) + Slots(rhs)
            && Expand(r, c) == Expand(lhs, c) + Expand(rhs, crit)
  {
    hide Expand;
    if lhs.Inner? {
      InnerJoin(lhs, crit, rhs, c);
    } else {
      LeafJoin(lhs, crit, rhs, c);
    }
  }

  lemma InnerJoin(lhs: NodeData, crit: Key, rhs: NodeData, c: Key)
    requires lhs.Inner? && rhs.Inner? && |lhs.tree| == |lhs.keys| + 1 && |rhs.tree| == |rhs.keys| + 1
    ensures Expand(Inner(lhs.keys + [crit] + rhs.keys, lhs.tree + rhs.tree), c) == Expand(lhs, c) + Expand(rhs, crit)
  {
    var l := |lhs.tree|;
    var e := Expand(Inner(lhs.keys + [crit] + rhs.keys, lhs.tree + rhs.tree), c);
    assert e[..l] == Expand(lhs, c);
    assert e[l..] == Expand(rhs, crit);
  }

  lemma LeafJoin(lhs: NodeData, crit: Key, rhs: NodeData, c: Key)
    requires lhs.Leaf? && rhs.Leaf? && |lhs.vals| == |lhs.keys| && |rhs.vals| == |rhs.keys|
    ensures Expand(Leaf(lhs.keys + rhs.keys, lhs.vals + rhs.vals), c) == Expand(lhs, c) + Expand(rhs, crit)
  {
    var l := |lhs.vals|;
    var e := Expand(Leaf(lhs.keys + rhs.keys, lhs.vals + rhs.vals), c);
    assert e[..l] == Expand(lhs, c);
    assert e[l..] == Expand(rhs, crit);
  }

  /** Spreading the entries keeps them in the same order: moving the first `m` sub-trees. */
  lemma InnerMove(lhs: NodeData, crit: Key, rhs: NodeData, m: nat, c: Key)
    requires lhs.Inner? && rhs.Inner? && |lhs.tree| == |lhs.keys| + 1 && |rhs.tree| == |rhs.keys| + 1
    requires 0 < m < |rhs.tree|
    ensures Expand(Inner(lhs.keys + [crit] + rhs.keys[..m - 1], lhs.tree + rhs.tree[..m]), c) +
            Expand(Inner(rhs.keys[m..], rhs.tree[m..]), rhs.keys[m - 1]) ==
            Expand(lhs, c) + Expand(rhs, crit)
  {
    var a := Expand(Inner(lhs.keys + [crit] + rhs.keys[..m - 1], lhs.tree + rhs.tree[..m]), c);
    var b := Expand(Inner(rhs.keys[m..], rhs.tree[m..]), rhs.keys[m - 1]);
    assert a == Expand(lhs, c) + Expand(rhs, crit)[..m];
    assert b == Expand(rhs, crit)[m..];
  }

  lemma LeafMove(lhs: NodeData, rhs: NodeData, m: nat, c: Key, crit: Key, k: Key)
    requires lhs.Leaf? && rhs.Leaf? && |lhs.vals| == |lhs.keys| && |rhs.vals| == |rhs.keys|
    requires m <= |rhs.vals|
    ensures Expand(Leaf(lhs.keys + rhs.keys[..m], lhs.vals + rhs.vals[..m]), c) +
            Expand(Leaf(rhs.keys[m..], rhs.vals[m..]), k) ==
            Expand(lhs, c) + Expand(rhs, crit)
  {
    var a := Expand(Leaf(lhs.keys + rhs.keys[..m], lhs.vals + rhs.vals[..m]), c);
    var b := Expand(Leaf(rhs.keys[m..], rhs.vals[m..]), k);
    assert a == Expand(lhs, c) + Expand(rhs, crit)[..m];
    assert b == Expand(rhs, crit)[m..];
  }

  /** Otherwise both nodes end up at least half full, and the entries read from left to right
  stay the same. */
  lemma BalanceSpreads(lhs: NodeData, crit: Key, rhs: NodeData, cap: nat, c: Key)
    requires Unbalanced(lhs, rhs, cap) && Balance(lhs, crit, rhs, cap).critKey.Some?
    ensures var r := Balance(lhs, crit, rhs, cap);
            && r.lhs.Inner? == r.rhs.Inner? == rhs.Inner? && r.lhs.Leaf? == r.rhs.Leaf? == rhs.Leaf?
            && WellFormed(r.lhs, cap) && WellFormed(r.rhs, cap)
            && HalfFull(r.lhs, cap) && HalfFull(r.rhs, cap) && Slots(r.lhs) > Slots(lhs)
            && Expand(r.lhs, c) + Expand(r.rhs, r.critKey.value) == Expand(lhs, c) + Expand(rhs, crit)
            && (rhs.Leaf? ==> Slots(r.rhs) > 0 && r.critKey.value == r.rhs.keys[0])
  {
    hide Expand;
    var l := Slots(lhs);
    var n := l + Slots(rhs);
    var m := n - n / 2 - l;
    if lhs.Inner? {
      InnerMove(lhs, crit, rhs, m, c);
    } else {
      LeafMove(lhs, rhs, m, c, crit, rhs.keys[m]);
    }
  }
}
