/** Inserting an entry: the split of a full node and the rows it grows. */
module BforestSplit {
  import opened BforestNode
  import opened BforestShape
  import opened BforestPos
  import opened BforestBalance

  // ----- one node -----

  /** Where an item inserted at `index` ends up: a leaf inserts at the entry, an inner node after it. */
  function SlotFor(d: NodeData, index: nat): nat {
    if d.Leaf? then index else index + 1
  }

  /** Does the insertion go to the right half? */
  predicate GoesRight(s: SplitOff, index: nat) {
    index > s.lhsEntries || (index == s.lhsEntries && (s.lhsEntries > s.rhsEntries || s.lhs.Inner?))
  }

  predicate FullNode(d: NodeData, cap: nat, index: nat) {
    && LeafCapacity(cap) && WellFormed(d, cap) && Slots(d) == Capacity(d, cap)
    && (if d.Leaf? then index <= Slots(d) else index < Slots(d))
  }

  /** Insert an item in a node that is not full. */
  function Inserted(d: NodeData, cap: nat, index: nat, it: Item): (r: NodeData)
    requires LeafCapacity(cap) && WellFormed(d, cap) && Slots(d) < Capacity(d, cap)
    requires if d.Leaf? then index <= Slots(d) else index < Slots(d)
    ensures r.Leaf? == d.Leaf? && r.Inner? == d.Inner? && WellFormed(r, cap) && Slots(r) == Slots(d) + 1
    ensures forall c :: Expand(r, c) == InsertAt(Expand(d, c), SlotFor(d, index), it)
  {
    if d.Leaf? then TryLeafInsert(d, cap, index, it.crit, it.node).value
    else TryInnerInsert(d, index, it.crit, it.node).value
  }

  datatype Halves = Halves(lhs: NodeData, rhs: NodeData, crit: Key, right: bool, at: nat)

  /** Split a full node and retry the insertion in the proper half. The new front key of a right
  leaf becomes the critical key. `at` is the entry in the half that got the item. */
  function SplitInsert(d: NodeData, cap: nat, index: nat, it: Item): (r: Halves)
    requires FullNode(d, cap, index)
    ensures r.right <==> GoesRight(Split(d, cap, index), index)
    ensures r.at == if r.right then index - Split(d, cap, index).lhsEntries else index
    ensures r.lhs.Leaf? == r.rhs.Leaf? == d.Leaf? && r.lhs.Inner? == r.rhs.Inner? == d.Inner?
    ensures WellFormed(r.lhs, cap) && WellFormed(r.rhs, cap) && HalfFull(r.lhs, cap) && HalfFull(r.rhs, cap)
    ensures Slots(r.lhs) > 0 && Slots(r.rhs) > 0
    ensures r.right ==> Slots(r.lhs) + r.at == index
    ensures r.at < Slots(if r.right then r.rhs else r.lhs)
    ensures d.Inner? ==> r.at + 1 < Slots(if r.right then r.rhs else r.lhs)
  {
    var s := Split(d, cap, index);
    if GoesRight(s, index) then
      var at := index - s.lhsEntries;
      Halves(s.lhs, Inserted(s.rhs, cap, at, it), if d.Leaf? && at == 0 then it.crit else s.critKey, true, at)
    else
      Halves(Inserted(s.lhs, cap, index, it), s.rhs, s.critKey, false, index)
  }

  lemma InsertLeft(a: Row, b: Row, i: nat, x: Item)
    requires i <= |a|
    ensures InsertAt(a, i, x) + b == InsertAt(a + b, i, x)
  {
    assert (a + b)[..i] == a[..i] && (a + b)[i..] == a[i..] + b;
  }

  lemma InsertRight(a: Row, b: Row, i: nat, x: Item)
    requires i <= |b|
    ensures a + InsertAt(b, i, x) == InsertAt(a + b, |a| + i, x)
  {
    assert (a + b)[..|a| + i] == a + b[..i] && (a + b)[|a| + i..] == b[i..];
  }

  /** The two halves read one after the other are the full node with the item inserted. */
  lemma SplitInsertExpand(d: NodeData, cap: nat, index: nat, it: Item, c: Key)
    requires FullNode(d, cap, index)
    ensures |Expand(d, c)| == Slots(d)
    ensures var r := SplitInsert(d, cap, index, it);
            Expand(r.lhs, c) + Expand(r.rhs, r.crit) == InsertAt(Expand(d, c), SlotFor(d, index), it)
  {
    hide Expand, InsertAt, Split;
    var s, r := Split(d, cap, index), SplitInsert(d, cap, index, it);
    SplitHalves(d, cap, index, c);
    FullExpand(s.lhs, cap, c);
    FullExpand(s.rhs, cap, s.critKey);
    FullExpand(d, cap, c);
    if r.right {
      CritOfHalf(r.rhs, r.crit, s.critKey);
      InsertRight(Expand(s.lhs, c), Expand(s.rhs, s.critKey), SlotFor(s.rhs, r.at), it);
    } else {
      InsertLeft(Expand(s.lhs, c), Expand(s.rhs, s.critKey), SlotFor(s.lhs, index), it);
    }
  }

  lemma FullExpand(d: NodeData, cap: nat, c: Key)
    requires WellFormed(d, cap)
    ensures |Expand(d, c)| == Slots(d)
  {
  }

  /** A leaf shows the same entries whatever its critical key. */
  lemma CritOfHalf(d: NodeData, a: Key, b: Key)
    requires d.Leaf? || a == b
    ensures Expand(d, a) == Expand(d, b)
  {
  }

  /** A right leaf starts with its critical key, and a left leaf keeps its first key unless the
  item goes to the very front. */
  lemma SplitInsertCrit(d: NodeData, cap: nat, index: nat, it: Item)
    requires FullNode(d, cap, index) && d.Leaf?
    ensures var r := SplitInsert(d, cap, index, it);
            r.rhs.keys != [] && r.lhs.keys != [] && r.crit == r.rhs.keys[0]
                && (index > 0 ==> r.lhs.keys[0] == d.keys[0])
  {
  }

  // ----- one row -----

  /** Item `p` of a complete row is about to get `it` at `index`. */
  ghost predicate Receiving(nodes: seq<NodeData>, cap: nat, leaf: bool, row: Row, p: nat, index: nat) {
    && LeafCapacity(cap) && p < |row| && RowOK(nodes, cap, leaf, row, -1) && row[p].node < |nodes|
    && (forall i | 0 <= i < |row| && i != p :: row[i].node != row[p].node)
    && (leaf && index == 0 ==> p == 0)
    && var d := nodes[row[p].node];
    && d.Leaf? == leaf && WellFormed(d, cap) && (if leaf then index <= Slots(d) else index < Slots(d))
  }

  lemma InsertMiddle(a: Row, b: Row, c: Row, i: nat, x: Item)
    requires i <= |b|
    ensures a + InsertAt(b, i, x) + c == InsertAt(a + b + c, |a| + i, x)
  {
    hide InsertAt;
    InsertRight(a, b, i, x);
    InsertLeft(a + b, c, |a| + i, x);
  }

  /** The row after its node `p` took the item. */
  ghost predicate Grown(nodes: seq<NodeData>, nodes': seq<NodeData>, cap: nat, leaf: bool, row: Row, p: nat,
      index: nat, it: Item) {
    && Receiving(nodes, cap, leaf, row, p, index) && |nodes| <= |nodes'|
    && var n := row[p].node;
    && Slots(nodes[n]) < Capacity(nodes[n], cap) && nodes'[n] == Inserted(nodes[n], cap, index, it)
    && (forall i | 0 <= i < |row| && i != p :: Kept(nodes, nodes', row[i].node))
  }

  lemma GrownRow(nodes: seq<NodeData>, nodes': seq<NodeData>, cap: nat, leaf: bool, row: Row, p: nat, index: nat,
      it: Item)
    requires Grown(nodes, nodes', cap, leaf, row, p, index, it)
    ensures RowOK(nodes', cap, leaf, row, -1)
    ensures Off(nodes', row, p) == Off(nodes, row, p) && |Exp(nodes', row[p])| == |Exp(nodes, row[p])| + 1
    ensures |Exp(nodes, row[p])| == Slots(nodes[row[p].node])
  {
    hide Flat, Expand;
    assert ItemOK(nodes, cap, leaf, row, p) && Occupied(nodes, cap, row, p);
    forall i | 0 <= i < |row| ensures ItemOK(nodes', cap, leaf, row, i) && Occupied(nodes', cap, row, i) {
      assert ItemOK(nodes, cap, leaf, row, i) && Occupied(nodes, cap, row, i);
      if i != p {
        assert Kept(nodes, nodes', row[i].node);
      }
    }
    assert ItemOK(nodes', cap, leaf, row, p);
    ExpSize(nodes, cap, leaf, row, p);
    ExpSize(nodes', cap, leaf, row, p);
    var s := row[..p];
    forall i | 0 <= i < |s| ensures Kept(nodes, nodes', s[i].node) {
      assert Kept(nodes, nodes', row[i].node);
    }
    FlatUnchanged(nodes, nodes', s);
  }

  lemma GrownFlat(nodes: seq<NodeData>, nodes': seq<NodeData>, cap: nat, leaf: bool, row: Row, p: nat, index: nat,
      it: Item)
    requires Grown(nodes, nodes', cap, leaf, row, p, index, it)
    ensures Off(nodes, row, p) + SlotFor(nodes[row[p].node], index) <= |Flat(nodes, row)|
    ensures Flat(nodes', row) == InsertAt(Flat(nodes, row), Off(nodes, row, p) + SlotFor(nodes[row[p].node], index), it)
  {
    hide Flat, RowOK, InsertAt, Expand, Inserted;
    var d := nodes[row[p].node];
    forall i | 0 <= i < |row| && i != p ensures Exp(nodes, row[i]) == Exp(nodes', row[i]) {
      assert Kept(nodes, nodes', row[i].node);
    }
    FlatSplit(nodes, row, p);
    FlatReplace(nodes, nodes', row, row, p);
    FullExpand(d, cap, row[p].crit);
    assert Exp(nodes', row[p]) == InsertAt(Exp(nodes, row[p]), SlotFor(d, index), it);
    InsertMiddle(Flat(nodes, row[..p]), Exp(nodes, row[p]), Flat(nodes, row[p + 1..]), SlotFor(d, index), it);
  }

  /** The row after its full node `p` was split, the right half going to node `rhs`. */
  ghost predicate SplitUp(nodes: seq<NodeData>, nodes': seq<NodeData>, cap: nat, leaf: bool, row: Row, row': Row,
      p: nat, index: nat, it: Item, rhs: Node) {
    && Receiving(nodes, cap, leaf, row, p, index) && |nodes| <= |nodes'| && rhs < |nodes'|
    && var n := row[p].node;
    && FullNode(nodes[n], cap, index)
    && var h := SplitInsert(nodes[n], cap, index, it);
    && nodes'[n] == h.lhs && nodes'[rhs] == h.rhs
    && row' == InsertAt(row, p + 1, Item(h.crit, rhs))
    && (forall i | 0 <= i < |row| && i != p :: Kept(nodes, nodes', row[i].node))
  }

  lemma SplitUpAt(row: Row, row': Row, p: nat, x: Item)
    requires p < |row| && row' == InsertAt(row, p + 1, x)
    ensures |row'| == |row| + 1 && row'[p] == row[p] && row'[p + 1] == x
    ensures row'[..p] == row[..p] && row'[p + 2..] == row[p + 1..]
    ensures forall i | 0 <= i <= p :: row'[i] == row[i]
    ensures forall i | p + 1 < i < |row'| :: row'[i] == row[i - 1]
  {
  }

  lemma SplitUpFlat(nodes: seq<NodeData>, nodes': seq<NodeData>, cap: nat, leaf: bool, row: Row, row': Row, p: nat,
      index: nat, it: Item, rhs: Node)
    requires SplitUp(nodes, nodes', cap, leaf, row, row', p, index, it, rhs)
    ensures Off(nodes, row, p) + SlotFor(nodes[row[p].node], index) <= |Flat(nodes, row)|
    ensures Flat(nodes', row') == InsertAt(Flat(nodes, row), Off(nodes, row, p) + SlotFor(nodes[row[p].node], index),
            it)
    ensures p + 1 < |row'| && Off(nodes', row', p) == Off(nodes, row, p)
  {
    hide Flat, RowOK, InsertAt, Expand, SplitInsert;
    var d := nodes[row[p].node];
    var h := SplitInsert(d, cap, index, it);
    SplitUpAt(row, row', p, Item(h.crit, rhs));
    SplitInsertExpand(d, cap, index, it, row[p].crit);
    FlatSplit(nodes, row, p);
    FlatPair(nodes', row', p);
    KeptPart(nodes, nodes', row, p, row[..p], 0);
    KeptPart(nodes, nodes', row, p, row[p + 1..], p + 1);
    InsertMiddle(Flat(nodes, row[..p]), Exp(nodes, row[p]), Flat(nodes, row[p + 1..]), SlotFor(d, index), it);
  }

  /** A stretch of the row that leaves out item `p`. */
  lemma KeptPart(nodes: seq<NodeData>, nodes': seq<NodeData>, row: Row, p: nat, part: Row, from: nat)
    requires forall i | 0 <= i < |row| && i != p :: Kept(nodes, nodes', row[i].node)
    requires from + |part| <= |row| && part == row[from..from + |part|] && (p < from || from + |part| <= p)
    ensures Flat(nodes', part) == Flat(nodes, part)
  {
    hide Flat;
    forall i | 0 <= i < |part| ensures Kept(nodes, nodes', part[i].node) {
      assert Kept(nodes, nodes', row[from + i].node);
    }
    FlatUnchanged(nodes, nodes', part);
  }

  lemma SplitUpRow(nodes: seq<NodeData>, nodes': seq<NodeData>, cap: nat, leaf: bool, row: Row, row': Row, p: nat,
      index: nat, it: Item, rhs: Node)
    requires SplitUp(nodes, nodes', cap, leaf, row, row', p, index, it, rhs)
    ensures RowOK(nodes', cap, leaf, row', -1)
    ensures |row'| == |row| + 1 && row'[p] == row[p] && row'[p + 1].node == rhs
    ensures var h := SplitInsert(nodes[row[p].node], cap, index, it);
            && |Exp(nodes', row'[p])| == Slots(h.lhs) && |Exp(nodes', row'[p + 1])| == Slots(h.rhs)
            && Off(nodes', row', p + 1) == Off(nodes', row', p) + Slots(h.lhs)
  {
    hide Flat, Expand, SplitInsert, InsertAt, Off;
    var d := nodes[row[p].node];
    var h := SplitInsert(d, cap, index, it);
    SplitUpAt(row, row', p, Item(h.crit, rhs));
    if leaf {
      SplitInsertCrit(d, cap, index, it);
    }
    assert ItemOK(nodes, cap, leaf, row, p) && Occupied(nodes, cap, row, p);
    forall i | 0 <= i < |row'| ensures ItemOK(nodes', cap, leaf, row', i) && Occupied(nodes', cap, row', i) {
      if i != p && i != p + 1 {
        var j := if i < p then i else i - 1;
        assert ItemOK(nodes, cap, leaf, row, j) && Occupied(nodes, cap, row, j) && Kept(nodes, nodes', row[j].node);
      }
    }
    assert ItemOK(nodes', cap, leaf, row', p) && ItemOK(nodes', cap, leaf, row', p + 1);
    ExpSize(nodes', cap, leaf, row', p);
    ExpSize(nodes', cap, leaf, row', p + 1);
    FlatSplit(nodes', row', p);
  }
}
