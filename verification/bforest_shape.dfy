/** The shape of a B+-tree, level by level.

A level of a tree is the row of its nodes from left to right, each with its critical key.
Row `l + 1` is what the nodes of row `l` expand to, and the leaves expand to the entries of
the tree. In this view the right sibling of a node is the next item of its row, whichever
parent it hangs under.
*/
module BforestShape {
  import opened BforestNode

  type Row = seq<Item>

  function Exp(nodes: seq<NodeData>, it: Item): (r: Row)
    ensures it.node < |nodes| ==> |r| <= Slots(nodes[it.node])
  {
    if it.node < |nodes| then Expand(nodes[it.node], it.crit) else []
  }

  /** The next row: what the items of `row` expand to. */
  function Flat(nodes: seq<NodeData>, row: Row): Row {
    if row == [] then [] else Flat(nodes, row[..|row| - 1]) + Exp(nodes, row[|row| - 1])
  }

  /** Where the expansion of item `p` starts in the next row. */
  function Off(nodes: seq<NodeData>, row: Row, p: nat): nat
    requires p <= |row|
  {
    |Flat(nodes, row[..p])|
  }

  lemma {:induction false} FlatAppend(nodes: seq<NodeData>, a: Row, b: Row)
    ensures Flat(nodes, a + b) == Flat(nodes, a) + Flat(nodes, b)
  {
    if b == [] {
      assert a + b == a;
    } else {
      var b' := b[..|b| - 1];
      var z := Exp(nodes, b[|b| - 1]);
      assert (a + b)[..|a + b| - 1] == a + b';
      assert (a + b)[|a + b| - 1] == b[|b| - 1];
      FlatAppend(nodes, a, b');
      assert Flat(nodes, a) + Flat(nodes, b') + z == Flat(nodes, a) + (Flat(nodes, b') + z);
    }
  }

  lemma FlatSingle(nodes: seq<NodeData>, it: Item)
    ensures Flat(nodes, [it]) == Exp(nodes, it)
  {
    assert [it][..0] == [];
  }

  /** The next row falls into what is left of item `p`, item `p` and what is right of it. */
  lemma FlatSplit(nodes: seq<NodeData>, row: Row, p: nat)
    requires p < |row|
    ensures Flat(nodes, row) == Flat(nodes, row[..p]) + Exp(nodes, row[p]) + Flat(nodes, row[p + 1..])
    ensures Off(nodes, row, p + 1) == Off(nodes, row, p) + |Exp(nodes, row[p])|
    ensures Off(nodes, row, p + 1) <= |Flat(nodes, row)|
  {
    assert row[..p + 1][..p] == row[..p];
    assert row == row[..p + 1] + row[p + 1..];
    FlatAppend(nodes, row[..p + 1], row[p + 1..]);
  }

  /** Slot `e` of item `p` in the next row. */
  lemma FlatAt(nodes: seq<NodeData>, row: Row, p: nat, e: nat)
    requires p < |row| && e < |Exp(nodes, row[p])|
    ensures Off(nodes, row, p) + e < |Flat(nodes, row)|
    ensures Flat(nodes, row)[Off(nodes, row, p) + e] == Exp(nodes, row[p])[e]
  {
    hide Flat;
    FlatSplit(nodes, row, p);
  }

  lemma {:induction false} OffMonotone(nodes: seq<NodeData>, row: Row, p: nat, q: nat)
    requires p <= q <= |row|
    ensures Off(nodes, row, p) <= Off(nodes, row, q) <= |Flat(nodes, row)|
  {
    hide Flat;
    assert row[..q] == row[..p] + row[p..q];
    FlatAppend(nodes, row[..p], row[p..q]);
    assert row == row[..q] + row[q..];
    FlatAppend(nodes, row[..q], row[q..]);
  }

  lemma OffEnd(nodes: seq<NodeData>, row: Row, p: nat)
    requires p == |row|
    ensures Off(nodes, row, p) == |Flat(nodes, row)|
  {
    assert row[..p] == row;
  }

  /** The next row depends only on the expansions. */
  lemma {:induction false} FlatFrame(nodes: seq<NodeData>, nodes': seq<NodeData>, row: Row)
    requires forall i | 0 <= i < |row| :: Exp(nodes, row[i]) == Exp(nodes', row[i])
    ensures Flat(nodes, row) == Flat(nodes', row)
  {
    if row != [] {
      FlatFrame(nodes, nodes', row[..|row| - 1]);
    }
  }

  /** Replacing one item, or its node, replaces its stretch of the next row. */
  lemma FlatReplace(nodes: seq<NodeData>, nodes': seq<NodeData>, row: Row, row': Row, p: nat)
    requires p < |row| == |row'|
    requires forall i | 0 <= i < |row| && i != p :: Exp(nodes, row[i]) == Exp(nodes', row'[i])
    ensures Flat(nodes', row') == Flat(nodes, row[..p]) + Exp(nodes', row'[p]) + Flat(nodes, row[p + 1..])
    ensures Off(nodes', row', p) == Off(nodes, row, p)
  {
    FlatSplit(nodes', row', p);
    FlatSame(nodes, nodes', row[..p], row'[..p]);
    FlatSame(nodes, nodes', row[p + 1..], row'[p + 1..]);
  }

  lemma {:induction false} FlatSame(nodes: seq<NodeData>, nodes': seq<NodeData>, row: Row, row': Row)
    requires |row| == |row'|
    requires forall i | 0 <= i < |row| :: Exp(nodes, row[i]) == Exp(nodes', row'[i])
    ensures Flat(nodes, row) == Flat(nodes', row')
  {
    if row != [] {
      FlatSame(nodes, nodes', row[..|row| - 1], row'[..|row| - 1]);
    }
  }

  /** Changing one element in the middle of three pieces. */
  lemma UpdateMiddle(a: Row, b: Row, c: Row, i: nat, x: Item)
    requires i < |b|
    ensures a + b[i := x] + c == (a + b + c)[|a| + i := x]
  {
  }

  // ----- rows -----

  /** Node `n` is as before. */
  predicate Kept(nodes: seq<NodeData>, nodes': seq<NodeData>, n: Node) {
    n < |nodes| <= |nodes'| && nodes'[n] == nodes[n]
  }

  /** Item `i` of `row` is a node of the right kind whose arrays fit. */
  predicate ItemOK(nodes: seq<NodeData>, cap: nat, leaf: bool, row: Row, i: nat)
    requires i < |row|
  {
    && row[i].node < |nodes|
    && (if leaf then nodes[row[i].node].Leaf? else nodes[row[i].node].Inner?)
    && WellFormed(nodes[row[i].node], cap)
    && (leaf && i > 0 && Slots(nodes[row[i].node]) > 0 ==> row[i].crit == nodes[row[i].node].keys[0])
  }

  /** Item `i` is not empty, and at least half full unless it is the right-most one. */
  predicate Occupied(nodes: seq<NodeData>, cap: nat, row: Row, i: nat)
    requires i < |row|
  {
    && row[i].node < |nodes|
    && Slots(nodes[row[i].node]) > 0
    && (i < |row| - 1 ==> HalfFull(nodes[row[i].node], cap))
  }

  /** All items but `skip` are in order; `skip` may be under-occupied. */
  ghost predicate RowOK(nodes: seq<NodeData>, cap: nat, leaf: bool, row: Row, skip: int) {
    && (forall i | 0 <= i < |row| :: ItemOK(nodes, cap, leaf, row, i))
    && (forall i | 0 <= i < |row| :: i != skip ==> Occupied(nodes, cap, row, i))
  }

  predicate Allocated(nodes: seq<NodeData>, row: Row) {
    forall i | 0 <= i < |row| :: row[i].node < |nodes|
  }

  function NodeAt(rows: seq<Row>, l: nat, i: nat): Node
    requires l < |rows| && i < |rows[l]|
  {
    rows[l][i].node
  }

  /** No node appears twice. */
  ghost predicate Distinct(rows: seq<Row>) {
    forall l, i, m, j | 0 <= l < |rows| && 0 <= i < |rows[l]| && 0 <= m < |rows| && 0 <= j < |rows[m]| ::
      NodeAt(rows, l, i) == NodeAt(rows, m, j) ==> l == m && i == j
  }

  /** Row `l` is a complete row of inner nodes that expands to row `l + 1`. */
  ghost predicate Linked(nodes: seq<NodeData>, cap: nat, rows: seq<Row>, l: nat)
    requires l + 1 < |rows|
  {
    RowOK(nodes, cap, false, rows[l], -1) && rows[l + 1] == Flat(nodes, rows[l])
  }

  /** The rows above the last one are complete and each expands to the next one. */
  ghost predicate TopOK(nodes: seq<NodeData>, cap: nat, rows: seq<Row>) {
    && LeafCapacity(cap)
    && |rows| >= 1 && |rows[0]| == 1
    && (forall l | 0 <= l < |rows| - 1 :: Linked(nodes, cap, rows, l))
    && Allocated(nodes, rows[|rows| - 1])
    && Distinct(rows)
  }

  /** Entries are in strictly ascending key order. */
  ghost predicate Ascending(s: Row) {
    forall i, j | 0 <= i < j < |s| :: s[i].crit < s[j].crit
  }

  function Last(rows: seq<Row>): Row
    requires rows != []
  {
    rows[|rows| - 1]
  }

  /** The entries of a tree in key order. */
  function Content(nodes: seq<NodeData>, rows: seq<Row>): Row
    requires rows != []
  {
    Flat(nodes, Last(rows))
  }

  /** The invariant of a tree: all rows complete, separators equal to the first key of the
  sub-tree to their right, nodes half full except on the right edge, no sharing, an inner
  root with at least two sub-trees, and entries in strict order. */
  ghost predicate TreeOK(nodes: seq<NodeData>, cap: nat, rows: seq<Row>) {
    && TopOK(nodes, cap, rows)
    && RowOK(nodes, cap, true, Last(rows), -1)
    && (|rows| > 1 ==> |rows[1]| >= 2)
    && Ascending(Content(nodes, rows))
  }
}
