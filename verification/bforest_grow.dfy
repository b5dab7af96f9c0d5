/** Inserting an entry, level by level.

While an insertion moves up, the rows from level `l` down are already complete in their new
form (`low`, whose last element is the row of entries), the rows above are still the old ones,
and one item waits to be inserted in the node at level `l - 1`.
*/
module BforestGrow {
  import opened BforestNode
  import opened BforestShape
  import opened BforestPos
  import opened BforestHeal
  import opened BforestBalance
  import opened BforestSteps
  import opened BforestRemove
  import opened BforestSplit

  ghost predicate LowLinked(nodes: seq<NodeData>, cap: nat, low: seq<Row>, j: nat)
    requires j + 1 < |low|
  {
    RowOK(nodes, cap, j == |low| - 2, low[j], -1) && low[j + 1] == Flat(nodes, low[j])
  }

  ghost predicate LowOK(nodes: seq<NodeData>, cap: nat, low: seq<Row>) {
    |low| >= 1 && forall j | 0 <= j < |low| - 1 :: LowLinked(nodes, cap, low, j)
  }

  /** The rows of nodes: old ones above `l`, new ones from there on. */
  ghost function Whole(rows: seq<Row>, l: nat, low: seq<Row>): (r: seq<Row>)
    requires l <= |rows| && low != []
    ensures |r| == l + |low| - 1
    ensures forall j | 0 <= j < l :: r[j] == rows[j]
    ensures forall j | 0 <= j < |low| - 1 :: r[l + j] == low[j]
  {
    rows[..l] + low[..|low| - 1]
  }

  /** What row `l` was before the insertion. */
  ghost function Base(nodes: seq<NodeData>, rows: seq<Row>, l: nat): Row
    requires rows != [] && l <= |rows|
  {
    if l == 0 then rows[0] else Flat(nodes, rows[l - 1])
  }

  /** Item `it` waits to be inserted above the new rows `low`, where it is item `idx`. */
  ghost predicate Pending(nodes: seq<NodeData>, cap: nat, rows: seq<Row>, l: nat, low: seq<Row>, idx: nat, it: Item) {
    && LeafCapacity(cap) && rows != [] && |rows[0]| == 1 && l <= |rows| && |low| == |rows| - l + 1
    && LowOK(nodes, cap, low) && Distinct(Whole(rows, l, low))
    && (l > 0 ==> TopOK(nodes, cap, rows[..l]))
    && idx <= |Base(nodes, rows, l)| && low[0] == InsertAt(Base(nodes, rows, l), idx, it)
  }

  ghost predicate LowStep(nodes: seq<NodeData>, low: seq<Row>, node: seq<Node>, entry: seq<nat>, posl: seq<nat>,
      l: nat, j: nat)
    requires j + 1 < |low| == |posl| && l + j < |node| == |entry|
  {
    && posl[j] < |low[j]| && low[j][posl[j]].node == node[l + j]
    && entry[l + j] < |Exp(nodes, low[j][posl[j]])|
    && posl[j + 1] == Off(nodes, low[j], posl[j]) + entry[l + j]
  }

  /** Below `l` the path runs to entry `target` of the new rows. */
  ghost predicate LowPath(nodes: seq<NodeData>, low: seq<Row>, node: seq<Node>, entry: seq<nat>, posl: seq<nat>,
      l: nat, target: nat) {
    && low != [] && |posl| == |low| && l + |low| - 1 <= |node| == |entry|
    && (forall j | 0 <= j < |low| - 1 :: LowStep(nodes, low, node, entry, posl, l, j))
    && posl[|low| - 1] == target
  }

  /** Above `l` the path is the old one. It meets the lower part at the item that waits, or just
  left of it. */
  ghost predicate PendingPath(nodes: seq<NodeData>, cap: nat, rows: seq<Row>, l: nat, low: seq<Row>, node: seq<Node>,
      entry: seq<nat>, pos: seq<nat>, posl: seq<nat>, idx: nat, it: Item, target: nat) {
    && LowPath(nodes, low, node, entry, posl, l, target) && l <= |rows| && |low| == |rows| - l + 1
    && (l > 0 ==>
          && OnPath(nodes, rows[..l], node, entry, pos, l - 1)
          && Receiving(nodes, cap, l == |rows|, rows[l - 1], pos[l - 1], entry[l - 1])
          && idx == Off(nodes, rows[l - 1], pos[l - 1]) + entry[l - 1] + if l == |rows| then 0 else 1)
    && (l == 0 ==> idx == 1)
    && posl[0] == idx - if l < |rows| && node[l] != it.node then 1 else 0
  }

  // ----- what a change at level l - 1 leaves alone -----

  ghost predicate LowKept(nodes: seq<NodeData>, nodes': seq<NodeData>, low: seq<Row>) {
    forall j, i | 0 <= j < |low| - 1 && 0 <= i < |low[j]| :: Kept(nodes, nodes', low[j][i].node)
  }

  lemma LowSame(nodes: seq<NodeData>, nodes': seq<NodeData>, cap: nat, low: seq<Row>)
    requires LowOK(nodes, cap, low) && LowKept(nodes, nodes', low)
    ensures LowOK(nodes', cap, low)
  {
    hide Flat, RowOK;
    forall j | 0 <= j < |low| - 1 ensures LowLinked(nodes', cap, low, j) {
      assert LowLinked(nodes, cap, low, j);
      forall i | 0 <= i < |low[j]| ensures Kept(nodes, nodes', low[j][i].node) {}
      FlatUnchanged(nodes, nodes', low[j]);
      RowUnchanged(nodes, nodes', cap, j == |low| - 2, low[j], -1);
    }
  }

  lemma LowPathSame(nodes: seq<NodeData>, nodes': seq<NodeData>, low: seq<Row>, node: seq<Node>, entry: seq<nat>,
      node': seq<Node>, entry': seq<nat>, posl: seq<nat>, l: nat, target: nat)
    requires LowPath(nodes, low, node, entry, posl, l, target) && LowKept(nodes, nodes', low)
    requires |node'| == |node| && |entry'| == |entry|
             && forall j | l <= j < |node| :: node'[j] == node[j] && entry'[j] == entry[j]
    ensures LowPath(nodes', low, node', entry', posl, l, target)
  {
    hide Flat, Off, Exp;
    forall j | 0 <= j < |low| - 1 ensures LowStep(nodes', low, node', entry', posl, l, j) {
      assert LowStep(nodes, low, node, entry, posl, l, j);
      OffUnchanged(nodes, nodes', low[j], posl[j]);
    }
  }

  /** Only node `p` of row `l - 1` and nodes outside the tree change. */
  ghost predicate ChangedAt(nodes: seq<NodeData>, nodes': seq<NodeData>, rows: seq<Row>, l: nat, low: seq<Row>, p: nat)
    requires 0 < l <= |rows| && low != []
  {
    && p < |rows[l - 1]| && |nodes| <= |nodes'|
    && forall n | n in AllIds(Whole(rows, l, low)) && n != rows[l - 1][p].node :: Kept(nodes, nodes', n)
  }

  lemma ChangedRow(nodes: seq<NodeData>, nodes': seq<NodeData>, rows: seq<Row>, l: nat, low: seq<Row>, p: nat, j: nat,
      i: nat)
    requires 0 < l <= |rows| && low != [] && ChangedAt(nodes, nodes', rows, l, low, p) && Distinct(Whole(rows, l, low))
    requires j < |Whole(rows, l, low)| && i < |Whole(rows, l, low)[j]| && !(j == l - 1 && i == p)
    ensures Kept(nodes, nodes', Whole(rows, l, low)[j][i].node)
  {
    hide Distinct, AllIds;
    Apart(Whole(rows, l, low), j, i, l - 1, p);
    InAllIds(Whole(rows, l, low), j, i);
  }

  lemma ChangedParts(nodes: seq<NodeData>, nodes': seq<NodeData>, rows: seq<Row>, l: nat, low: seq<Row>, p: nat)
    requires 0 < l <= |rows| && low != [] && ChangedAt(nodes, nodes', rows, l, low, p) && Distinct(Whole(rows, l, low))
    ensures LowKept(nodes, nodes', low) && KeptAbove(nodes, nodes', rows[..l])
    ensures var row := rows[l - 1]; forall i | 0 <= i < |row| && i != p :: Kept(nodes, nodes', row[i].node)
  {
    hide Distinct, AllIds, ChangedAt;
    var w := Whole(rows, l, low);
    forall j, i | 0 <= j < |low| - 1 && 0 <= i < |low[j]| ensures Kept(nodes, nodes', low[j][i].node) {
      assert w[l + j] == low[j];
      ChangedRow(nodes, nodes', rows, l, low, p, l + j, i);
    }
    var up: seq<Row> := rows[..l];
    forall j, i | 0 <= j < |up| - 1 && 0 <= i < |up[j]| ensures Kept(nodes, nodes', up[j][i].node) {
      ChangedRow(nodes, nodes', rows, l, low, p, j, i);
    }
    var row := rows[l - 1];
    forall i | 0 <= i < |row| && i != p ensures Kept(nodes, nodes', row[i].node) {
      ChangedRow(nodes, nodes', rows, l, low, p, l - 1, i);
    }
  }

  // ----- the node at level l - 1 takes the item -----

  lemma GrownTop(nodes: seq<NodeData>, nodes': seq<NodeData>, cap: nat, rows: seq<Row>, l: nat, low: seq<Row>,
      idx: nat, it: Item, node: seq<Node>, entry: seq<nat>, pos: seq<nat>, posl: seq<nat>, target: nat)
    requires l > 0 && Pending(nodes, cap, rows, l, low, idx, it)
             && PendingPath(nodes, cap, rows, l, low, node, entry, pos, posl, idx, it, target)
    requires var n := node[l - 1];
             && n < |nodes| == |nodes'| && Slots(nodes[n]) < Capacity(nodes[n], cap)
             && nodes' == nodes[n := Inserted(nodes[n], cap, entry[l - 1], it)]
    ensures TopOK(nodes', cap, Whole(rows, l, low)) && RowOK(nodes', cap, true, Last(Whole(rows, l, low)), -1)
    ensures Content(nodes', Whole(rows, l, low)) == low[|low| - 1]
  {
    hide Flat, Off, Exp, RowOK, TopOK, Distinct, AllIds, InsertAt, Inserted, StepDown, LowOK, LowPath, Allocated;
    var w, p := Whole(rows, l, low), pos[l - 1];
    WholeAllocated(nodes, cap, rows, l, low);
    ChangedParts(nodes, nodes', rows, l, low, p);
    LowSame(nodes, nodes', cap, low);
    LastRowChange(nodes, nodes', cap, rows[..l], node, entry, pos);
    assert Grown(nodes, nodes', cap, l == |rows|, rows[l - 1], p, entry[l - 1], it);
    GrownRow(nodes, nodes', cap, l == |rows|, rows[l - 1], p, entry[l - 1], it);
    GrownFlat(nodes, nodes', cap, l == |rows|, rows[l - 1], p, entry[l - 1], it);
    JoinLow(nodes', cap, rows, l, low);
  }

  lemma WholeAllocated(nodes: seq<NodeData>, cap: nat, rows: seq<Row>, l: nat, low: seq<Row>)
    requires 0 < l <= |rows| && |low| == |rows| - l + 1 && LowOK(nodes, cap, low) && TopOK(nodes, cap, rows[..l])
    ensures forall n | n in AllIds(Whole(rows, l, low)) :: n < |nodes|
  {
    hide Flat, Distinct, AllIds;
    var w := Whole(rows, l, low);
    forall n | n in AllIds(w) ensures n < |nodes| {
      var j, i := FromAllIds(w, n);
      if j >= l {
        assert LowLinked(nodes, cap, low, j - l);
        assert ItemOK(nodes, cap, j - l == |low| - 2, low[j - l], i);
      } else if j < l - 1 {
        InnerSlots(nodes, cap, rows[..l], j, i);
      } else {
        TopDistinct(nodes, cap, rows[..l]);
      }
    }
  }

  /** Old rows above and new rows below, linked, make up a tree. */
  lemma JoinLow(nodes: seq<NodeData>, cap: nat, rows: seq<Row>, l: nat, low: seq<Row>)
    requires 0 < l <= |rows| && |low| == |rows| - l + 1 && LowOK(nodes, cap, low) && TopOK(nodes, cap, rows[..l])
             && Distinct(Whole(rows, l, low))
    requires RowOK(nodes, cap, l == |rows|, rows[l - 1], -1) && low[0] == Flat(nodes, rows[l - 1])
    ensures TopOK(nodes, cap, Whole(rows, l, low)) && RowOK(nodes, cap, true, Last(Whole(rows, l, low)), -1)
    ensures Content(nodes, Whole(rows, l, low)) == low[|low| - 1]
  {
    hide Flat, RowOK, Distinct;
    var w := Whole(rows, l, low);
    forall j | 0 <= j < |w| - 1 ensures Linked(nodes, cap, w, j) {
      if j < l - 1 {
        assert Linked(nodes, cap, rows[..l], j);
      } else if j >= l {
        assert LowLinked(nodes, cap, low, j - l);
      }
    }
    if l < |rows| {
      assert LowLinked(nodes, cap, low, |low| - 2);
      assert w[|w| - 1] == low[|low| - 2];
      RowAllocated(nodes, cap, true, w[|w| - 1]);
    } else {
      assert w == rows[..l];
    }
  }

  lemma RowAllocated(nodes: seq<NodeData>, cap: nat, leaf: bool, row: Row)
    requires RowOK(nodes, cap, leaf, row, -1)
    ensures Allocated(nodes, row)
  {
    forall i | 0 <= i < |row| ensures row[i].node < |nodes| {
      assert ItemOK(nodes, cap, leaf, row, i);
    }
  }

  /** The positions of the joined path. */
  ghost function JoinPos(pos: seq<nat>, l: nat, posl: seq<nat>): (r: seq<nat>)
    requires l <= |pos| && posl != []
    ensures |r| == l + |posl| - 1
    ensures forall j | 0 <= j < l :: r[j] == pos[j]
    ensures forall j | 0 <= j < |posl| - 1 :: r[l + j] == posl[j]
  {
    pos[..l] + posl[..|posl| - 1]
  }

  lemma GrownPath(nodes: seq<NodeData>, nodes': seq<NodeData>, cap: nat, rows: seq<Row>, l: nat, low: seq<Row>,
      idx: nat, it: Item,
      node: seq<Node>, entry: seq<nat>, pos: seq<nat>, posl: seq<nat>, target: nat, entry': seq<nat>)
    requires l > 0 && Pending(nodes, cap, rows, l, low, idx, it)
             && PendingPath(nodes, cap, rows, l, low, node, entry, pos, posl, idx, it, target)
    requires var n := node[l - 1];
             && n < |nodes| == |nodes'| && Slots(nodes[n]) < Capacity(nodes[n], cap)
             && nodes' == nodes[n := Inserted(nodes[n], cap, entry[l - 1], it)]
    requires entry' == entry[l - 1 := entry[l - 1] + if l < |rows| && node[l] == it.node then 1 else 0]
    ensures var w, pos' := Whole(rows, l, low), JoinPos(pos, l, posl);
            && OnPath(nodes', w, node, entry', pos', |rows| - 1)
            && entry'[|rows| - 1] < |Exp(nodes', w[|rows| - 1][pos'[|rows| - 1]])|
            && Target(nodes', w, entry', pos', |rows| - 1) == target
  {
    hide Flat, Off, Exp, RowOK, TopOK, Distinct, AllIds, InsertAt, Inserted, StepDown, LowOK, LowStep, Allocated;
    var w, p, pos' := Whole(rows, l, low), pos[l - 1], JoinPos(pos, l, posl);
    WholeAllocated(nodes, cap, rows, l, low);
    ChangedParts(nodes, nodes', rows, l, low, p);
    LastRowChange(nodes, nodes', cap, rows[..l], node, entry, pos);
    LowPathSame(nodes, nodes', low, node, entry, node, entry', posl, l, target);
    assert Grown(nodes, nodes', cap, l == |rows|, rows[l - 1], p, entry[l - 1], it);
    GrownRow(nodes, nodes', cap, l == |rows|, rows[l - 1], p, entry[l - 1], it);
    JoinLowPath(nodes', rows, l, low, node, entry, entry', pos, posl, target);
  }

  /** A path in the old rows that steps to the lower part makes up a path to the target. */
  lemma JoinLowPath(nodes: seq<NodeData>, rows: seq<Row>, l: nat, low: seq<Row>, node: seq<Node>, entry: seq<nat>,
      entry': seq<nat>, pos: seq<nat>, posl: seq<nat>, target: nat)
    requires 0 < l <= |rows| && |low| == |rows| - l + 1 && OnPath(nodes, rows[..l], node, entry, pos, l - 1)
    requires |entry'| == |entry| && forall j | 0 <= j < l - 1 :: entry'[j] == entry[j]
    requires LowPath(nodes, low, node, entry', posl, l, target)
    requires entry'[l - 1] < |Exp(nodes, rows[l - 1][pos[l - 1]])| && posl[0] ==
             Off(nodes, rows[l - 1], pos[l - 1]) + entry'[l - 1]
    ensures var w, pos' := Whole(rows, l, low), JoinPos(pos, l, posl);
            && OnPath(nodes, w, node, entry', pos', |rows| - 1)
            && entry'[|rows| - 1] < |Exp(nodes, w[|rows| - 1][pos'[|rows| - 1]])|
            && Target(nodes, w, entry', pos', |rows| - 1) == target
  {
    hide Flat, Off, Exp;
    var w: seq<Row> := Whole(rows, l, low);
    var pos' := JoinPos(pos, l, posl);
    var ext := pos' + [target];
    forall j | 0 <= j < |rows| ensures StepTo(nodes, w, node, entry', ext, j) {
      if j < l - 1 {
        assert StepDown(nodes, rows[..l], entry, pos, j);
      } else if j >= l {
        assert LowStep(nodes, low, node, entry', posl, l, j - l);
        assert w[j] == low[j - l] && pos'[j] == posl[j - l];
      }
    }
    forall j | 0 <= j < |rows| - 1 ensures StepDown(nodes, w, entry', pos', j) {
      assert StepTo(nodes, w, node, entry', ext, j) && ext[j] == pos'[j] && ext[j + 1] == pos'[j + 1];
    }
    forall j | 0 <= j < |rows| ensures pos'[j] < |w[j]| && w[j][pos'[j]].node == node[j] {
      assert StepTo(nodes, w, node, entry', ext, j) && ext[j] == pos'[j];
    }
    assert StepTo(nodes, w, node, entry', ext, |rows| - 1);
  }

  ghost predicate StepTo(nodes: seq<NodeData>, rows: seq<Row>, node: seq<Node>, entry: seq<nat>, pos: seq<nat>, j: nat)
    requires j < |rows| && j < |node| && j < |entry| && j + 1 < |pos|
  {
    && pos[j] < |rows[j]| && rows[j][pos[j]].node == node[j]
    && entry[j] < |Exp(nodes, rows[j][pos[j]])| && Off(nodes, rows[j], pos[j]) + entry[j] == pos[j + 1]
  }

  // ----- the full node at level l - 1 is split -----

  /** The pool after the full node at level `l - 1` was split, the right half going to the new node `rhs`. */
  ghost predicate SplitAt(nodes: seq<NodeData>, nodes': seq<NodeData>, cap: nat, rows: seq<Row>, l: nat, low: seq<Row>,
      n: Node, index: nat, it: Item, rhs: Node)
    requires 0 < l <= |rows| && low != []
  {
    && n < |nodes| <= |nodes'| && rhs < |nodes'| && FullNode(nodes[n], cap, index)
    && rhs !in AllIds(Whole(rows, l, low)) && rhs != n
    && var h := SplitInsert(nodes[n], cap, index, it);
    && nodes'[n] == h.lhs && nodes'[rhs] == h.rhs
    && forall m | 0 <= m < |nodes| && m != n && m != rhs :: nodes'[m] == nodes[m]
  }

  ghost function SplitLow(nodes: seq<NodeData>, cap: nat, rows: seq<Row>, l: nat, low: seq<Row>, p: nat, index: nat,
      it: Item, rhs: Node): seq<Row>
    requires 0 < l <= |rows| && p < |rows[l - 1]| && rows[l - 1][p].node < |nodes|
             && FullNode(nodes[rows[l - 1][p].node], cap, index)
  {
    [InsertAt(rows[l - 1], p + 1, Item(SplitInsert(nodes[rows[l - 1][p].node], cap, index, it).crit, rhs))] + low
  }

  /** Inserting a fresh item keeps nodes distinct. */
  lemma InsertDistinct(rows: seq<Row>, rows': seq<Row>, l: nat, p: nat, it: Item)
    requires Distinct(rows) && it.node !in AllIds(rows) && l < |rows| && p <= |rows[l]|
    requires rows' == rows[l := InsertAt(rows[l], p, it)]
    ensures Distinct(rows')
  {
    hide AllIds;
    forall a, i, b, j | 0 <= a < |rows'| && 0 <= i < |rows'[a]| && 0 <= b < |rows'| && 0 <= j < |rows'[b]|
        && NodeAt(rows', a, i) == NodeAt(rows', b, j)
      ensures a == b && i == j
    {
      InsertIndex(rows, rows', l, p, it, a, i);
      InsertIndex(rows, rows', l, p, it, b, j);
    }
  }

  function OldIndex(l: nat, p: nat, a: nat, i: nat): nat {
    if a == l && i > p then i - 1 else i
  }

  lemma InsertIndex(rows: seq<Row>, rows': seq<Row>, l: nat, p: nat, it: Item, a: nat, i: nat)
    requires it.node !in AllIds(rows) && l < |rows| && p <= |rows[l]| && rows' == rows[l := InsertAt(rows[l], p, it)]
    requires a < |rows'| && i < |rows'[a]|
    ensures a == l && i == p ==> NodeAt(rows', a, i) == it.node
    ensures !(a == l && i == p) ==>
              && OldIndex(l, p, a, i) < |rows[a]| && NodeAt(rows', a, i) == NodeAt(rows, a, OldIndex(l, p, a, i))
              && NodeAt(rows', a, i) != it.node
  {
    hide AllIds;
    if !(a == l && i == p) {
      InAllIds(rows, a, OldIndex(l, p, a, i));
    }
  }

  lemma {:induction false} InsertIds(rows: seq<Row>, rows': seq<Row>, l: nat, p: nat, it: Item)
    requires l < |rows| && p <= |rows[l]| && rows' == rows[l := InsertAt(rows[l], p, it)]
    ensures AllIds(rows') == AllIds(rows) + {it.node}
  {
    var n := |rows| - 1;
    if l < n {
      assert rows'[..n] == rows[..n][l := InsertAt(rows[l], p, it)];
      InsertIds(rows[..n], rows'[..n], l, p, it);
    } else {
      assert rows'[..n] == rows[..n];
      InsertRowIds(rows[n], p, it);
    }
  }

  lemma InsertRowIds(row: Row, p: nat, it: Item)
    requires p <= |row|
    ensures Ids(InsertAt(row, p, it)) == Ids(row) + {it.node}
  {
    var row' := InsertAt(row, p, it);
    forall i | 0 <= i < |row| ensures row[i].node in Ids(row') {
      assert row'[if i < p then i else i + 1].node == row[i].node;
    }
    assert row'[p] == it;
    forall i | 0 <= i < |row'| ensures row'[i].node in Ids(row) + {it.node} {
      assert i < p ==> row'[i] == row[i];
      assert i > p ==> row'[i] == row[i - 1];
    }
    assert forall n | n in Ids(row) :: n in Ids(row');
    assert it.node in Ids(row');
  }

  lemma SplitWhole(nodes: seq<NodeData>, cap: nat, rows: seq<Row>, l: nat, low: seq<Row>, p: nat, index: nat, it: Item,
      rhs: Node)
    requires 0 < l <= |rows| && low != [] && p < |rows[l - 1]| && rows[l - 1][p].node < |nodes|
             && FullNode(nodes[rows[l - 1][p].node], cap, index)
    requires Distinct(Whole(rows, l, low)) && rhs !in AllIds(Whole(rows, l, low))
    ensures var low' := SplitLow(nodes, cap, rows, l, low, p, index, it, rhs);
            && Distinct(Whole(rows, l - 1, low'))
            && AllIds(Whole(rows, l - 1, low')) == AllIds(Whole(rows, l, low)) + {rhs}
  {
    hide Distinct, AllIds, SplitInsert;
    var low' := SplitLow(nodes, cap, rows, l, low, p, index, it, rhs);
    var w, w' := Whole(rows, l, low), Whole(rows, l - 1, low');
    var x := Item(SplitInsert(nodes[rows[l - 1][p].node], cap, index, it).crit, rhs);
    assert w' == w[l - 1 := InsertAt(w[l - 1], p + 1, x)];
    InsertDistinct(w, w', l - 1, p + 1, x);
    InsertIds(w, w', l - 1, p + 1, x);
  }

  lemma SplitPending(nodes: seq<NodeData>, nodes': seq<NodeData>, cap: nat, rows: seq<Row>, l: nat, low: seq<Row>,
      idx: nat, it: Item, node: seq<Node>, entry: seq<nat>, pos: seq<nat>, posl: seq<nat>, target: nat, rhs: Node)
    requires l > 0 && Pending(nodes, cap, rows, l, low, idx, it)
             && PendingPath(nodes, cap, rows, l, low, node, entry, pos, posl, idx, it, target)
    requires SplitAt(nodes, nodes', cap, rows, l, low, node[l - 1], entry[l - 1], it, rhs)
    ensures var low' := SplitLow(nodes, cap, rows, l, low, pos[l - 1], entry[l - 1], it, rhs);
            Pending(nodes', cap, rows, l - 1, low', pos[l - 1] + 1, low'[0][pos[l - 1] + 1])
                && low'[0][pos[l - 1] + 1].node == rhs
  {
    hide Flat, Off, Exp, RowOK, Distinct, AllIds, SplitInsert, StepDown, LowPath, Allocated, InsertAt;
    var p, row := pos[l - 1], rows[l - 1];
    var low' := SplitLow(nodes, cap, rows, l, low, p, entry[l - 1], it, rhs);
    var x := Item(SplitInsert(nodes[row[p].node], cap, entry[l - 1], it).crit, rhs);
    SplitUpAt(row, low'[0], p, x);
    WholeAllocated(nodes, cap, rows, l, low);
    ChangedParts(nodes, nodes', rows, l, low, p);
    assert SplitUp(nodes, nodes', cap, l == |rows|, row, low'[0], p, entry[l - 1], it, rhs);
    SplitUpRow(nodes, nodes', cap, l == |rows|, row, low'[0], p, entry[l - 1], it, rhs);
    SplitUpFlat(nodes, nodes', cap, l == |rows|, row, low'[0], p, entry[l - 1], it, rhs);
    LowSame(nodes, nodes', cap, low);
    SplitWhole(nodes, cap, rows, l, low, p, entry[l - 1], it, rhs);
    forall j | 0 <= j < |low'| - 1 ensures LowLinked(nodes', cap, low', j) {
      if j > 0 {
        assert LowLinked(nodes', cap, low, j - 1);
      }
    }
    if l > 1 {
      LastRowChange(nodes, nodes', cap, rows[..l], node, entry, pos);
      PrefixTop(nodes', cap, rows[..l], l - 1);
      assert rows[..l][..l - 1] == rows[..l - 1];
      assert Linked(nodes', cap, rows[..l], l - 2);
    }
  }

  lemma PrefixTop(nodes: seq<NodeData>, cap: nat, rows: seq<Row>, k: nat)
    requires TopOK(nodes, cap, rows) && 0 < k < |rows|
    ensures TopOK(nodes, cap, rows[..k])
  {
    hide Flat, RowOK, Distinct;
    var up := rows[..k];
    forall l | 0 <= l < k - 1 ensures Linked(nodes, cap, up, l) {
      assert Linked(nodes, cap, rows, l);
    }
    assert Linked(nodes, cap, rows, k - 1);
    RowAllocated(nodes, cap, false, rows[k - 1]);
    DistinctPrefix(rows, k);
  }

  /** The path after a split: in the half that got the item, one entry further if the level below
  moved to its own right half. */
  ghost predicate SplitMove(cap: nat, rows: seq<Row>, l: nat, d: NodeData, it: Item, rhs: Node, node: seq<Node>,
      entry: seq<nat>, node': seq<Node>, entry': seq<nat>)
    requires 0 < l <= |rows| <= |node| == |entry| && FullNode(d, cap, entry[l - 1])
  {
    var h := SplitInsert(d, cap, entry[l - 1], it);
    && node' == (if h.right then node[l - 1 := rhs] else node)
    && entry' == entry[l - 1 := h.at + if l < |rows| && node[l] == it.node then 1 else 0]
  }

  ghost function SplitPositions(nodes: seq<NodeData>, cap: nat, n: Node, p: nat, index: nat, it: Item,
      posl: seq<nat>): seq<nat>
    requires n < |nodes| && FullNode(nodes[n], cap, index)
  {
    [if SplitInsert(nodes[n], cap, index, it).right then p + 1 else p] + posl
  }

  lemma SplitLowPath(nodes: seq<NodeData>, nodes': seq<NodeData>, cap: nat, rows: seq<Row>, l: nat, low: seq<Row>,
      low': seq<Row>, idx: nat, it: Item,
      node: seq<Node>, entry: seq<nat>, p: nat, posl: seq<nat>, target: nat, rhs: Node,
      node': seq<Node>, entry': seq<nat>)
    requires 0 < l <= |rows| <= |node| == |entry| && |low| == |rows| - l + 1 && low' != [] && low'[1..] == low
    requires SplitUp(nodes, nodes', cap, l == |rows|, rows[l - 1], low'[0], p, entry[l - 1], it, rhs)
             && rows[l - 1][p].node == node[l - 1]
    requires SplitMove(cap, rows, l, nodes[node[l - 1]], it, rhs, node, entry, node', entry')
    requires LowPath(nodes', low, node', entry', posl, l, target)
    requires idx == Off(nodes, rows[l - 1], p) + entry[l - 1] + if l == |rows| then 0 else 1
    requires posl[0] == idx - if l < |rows| && node[l] != it.node then 1 else 0
    ensures LowPath(nodes', low', node', entry', SplitPositions(nodes, cap, node[l - 1], p, entry[l - 1], it, posl),
            l - 1, target)
  {
    hide Flat, Off, Exp, RowOK, SplitInsert, InsertAt;
    var row, m := rows[l - 1], l - 1;
    var h := SplitInsert(nodes[row[p].node], cap, entry[l - 1], it);
    var posl' := SplitPositions(nodes, cap, node[l - 1], p, entry[l - 1], it, posl);
    SplitUpAt(row, low'[0], p, Item(h.crit, rhs));
    SplitUpRow(nodes, nodes', cap, l == |rows|, row, low'[0], p, entry[l - 1], it, rhs);
    SplitUpFlat(nodes, nodes', cap, l == |rows|, row, low'[0], p, entry[l - 1], it, rhs);
    ReceivingKind(nodes, cap, l == |rows|, row, p, entry[l - 1]);
    assert LowStep(nodes', low', node', entry', posl', m, 0);
    forall j | 0 <= j < |low'| - 1 ensures LowStep(nodes', low', node', entry', posl', m, j) {
      if j > 0 {
        assert LowStep(nodes', low, node', entry', posl, l, j - 1);
        assert low'[j] == low[j - 1] && posl'[j] == posl[j - 1] && posl'[j + 1] == posl[j];
      }
    }
  }

  lemma SplitPath(nodes: seq<NodeData>, nodes': seq<NodeData>, cap: nat, rows: seq<Row>, l: nat, low: seq<Row>,
      idx: nat, it: Item, node: seq<Node>, entry: seq<nat>, pos: seq<nat>, posl: seq<nat>, target: nat, rhs: Node,
      node': seq<Node>, entry': seq<nat>)
    requires l > 0 && Pending(nodes, cap, rows, l, low, idx, it)
             && PendingPath(nodes, cap, rows, l, low, node, entry, pos, posl, idx, it, target)
    requires SplitAt(nodes, nodes', cap, rows, l, low, node[l - 1], entry[l - 1], it, rhs)
    requires |rows| <= |node| && SplitMove(cap, rows, l, nodes[node[l - 1]], it, rhs, node, entry, node', entry')
    ensures var low' := SplitLow(nodes, cap, rows, l, low, pos[l - 1], entry[l - 1], it, rhs);
            var p := pos[l - 1];
            && p + 1 < |low'[0]|
            && PendingPath(nodes', cap, rows, l - 1, low', node', entry', pos,
                SplitPositions(nodes, cap, node[l - 1], p, entry[l - 1], it, posl), p + 1, low'[0][p + 1], target)
  {
    hide Flat, Off, Exp, RowOK, TopOK, Distinct, AllIds, SplitInsert, StepDown, Allocated, InsertAt, LowOK, Receiving,
        LowPath;
    var p, row := pos[l - 1], rows[l - 1];
    var h := SplitInsert(nodes[row[p].node], cap, entry[l - 1], it);
    var low' := SplitLow(nodes, cap, rows, l, low, p, entry[l - 1], it, rhs);
    SplitUpAt(row, low'[0], p, Item(h.crit, rhs));
    WholeAllocated(nodes, cap, rows, l, low);
    ChangedParts(nodes, nodes', rows, l, low, p);
    LowPathSame(nodes, nodes', low, node, entry, node', entry', posl, l, target);
    SplitLowPath(nodes, nodes', cap, rows, l, low, low', idx, it, node, entry, p, posl, target, rhs, node', entry');
    if l > 1 {
      SplitUpper(nodes, nodes', cap, rows, l, node, entry, pos, node', entry');
    }
  }

  lemma ReceivingKind(nodes: seq<NodeData>, cap: nat, leaf: bool, row: Row, p: nat, index: nat)
    requires Receiving(nodes, cap, leaf, row, p, index)
    ensures nodes[row[p].node].Leaf? == leaf && (!leaf ==> nodes[row[p].node].Inner?)
  {
    assert ItemOK(nodes, cap, leaf, row, p);
  }

  /** The path above a split is unchanged. */
  lemma SplitUpper(nodes: seq<NodeData>, nodes': seq<NodeData>, cap: nat, rows: seq<Row>, l: nat, node: seq<Node>,
      entry: seq<nat>, pos: seq<nat>, node': seq<Node>, entry': seq<nat>)
    requires 1 < l <= |rows| && TopOK(nodes, cap, rows[..l]) && OnPath(nodes, rows[..l], node, entry, pos, l - 1)
    requires |nodes| <= |nodes'| && KeptAbove(nodes, nodes', rows[..l])
    requires |node'| == |node| && |entry'| == |entry|
             && forall j | 0 <= j < l - 1 :: node'[j] == node[j] && entry'[j] == entry[j]
    ensures OnPath(nodes', rows[..l - 1], node', entry', pos, l - 2)
    ensures Receiving(nodes', cap, false, rows[l - 2], pos[l - 2], entry'[l - 2])
    ensures pos[l - 1] == Off(nodes', rows[l - 2], pos[l - 2]) + entry'[l - 2]
  {
    hide Flat, Off, Exp, Distinct, Allocated, RowOK;
    var up := rows[..l];
    LastRowChange(nodes, nodes', cap, up, node, entry, pos);
    assert StepDown(nodes', up, entry, pos, l - 2);
    InnerSlots(nodes', cap, up, l - 2, pos[l - 2]);
    assert Linked(nodes', cap, up, l - 2);
    var row := rows[l - 2];
    forall i | 0 <= i < |row| && i != pos[l - 2] ensures row[i].node != row[pos[l - 2]].node {
      Apart(up, l - 2, i, l - 2, pos[l - 2]);
    }
    var up' := rows[..l - 1];
    forall j | 0 <= j < l - 2 ensures StepDown(nodes', up', entry', pos, j) {
      assert StepDown(nodes', up, entry, pos, j);
    }
  }

  // ----- the start, and a new root -----

  /** Before anything is inserted, the whole path is the old one. */
  lemma StartPending(nodes: seq<NodeData>, cap: nat, rows: seq<Row>, node: seq<Node>, entry: seq<nat>, pos: seq<nat>,
      it: Item)
    requires TreeOK(nodes, cap, rows) && OnPath(nodes, rows, node, entry, pos, |rows| - 1)
    requires node[|rows| - 1] < |nodes| && entry[|rows| - 1] <= Slots(nodes[node[|rows| - 1]])
    requires entry[|rows| - 1] == 0 ==> pos[|rows| - 1] == 0
    ensures var l := |rows|; var t := Target(nodes, rows, entry, pos, l - 1);
            && t <= |Content(nodes, rows)|
            && var low := [InsertAt(Content(nodes, rows), t, it)];
            && Whole(rows, l, low) == rows
            && Pending(nodes, cap, rows, l, low, t, it)
            && PendingPath(nodes, cap, rows, l, low, node, entry, pos, [t], t, it, t)
  {
    hide Flat, Off, Exp, RowOK, TopOK, Distinct, Ascending, InsertAt, StepDown;
    TreeParts(nodes, cap, rows);
    var l, row, p := |rows|, Last(rows), pos[|rows| - 1];
    TopDistinct(nodes, cap, rows);
    assert rows[..l] == rows;
    LeafAt(nodes, cap, rows, p);
    FlatSplit(nodes, row, p);
    forall i | 0 <= i < |row| && i != p ensures row[i].node != row[p].node {
      Apart(rows, l - 1, i, l - 1, p);
    }
    assert Whole(rows, l, [InsertAt(Content(nodes, rows), Target(nodes, rows, entry, pos, l - 1), it)]) == rows;
  }

  /** The rows under a new root `r`. */
  ghost function Rooted(rows: seq<Row>, r: Node): seq<Row>
    requires rows != [] && rows[0] != []
  {
    [[Item(rows[0][0].crit, r)]] + rows
  }

  lemma RootFlat(nodes: seq<NodeData>, cap: nat, c: Key, r: Node, a: Item, it: Item)
    requires r < |nodes| && nodes[r] == Inner([it.crit], [a.node, it.node]) && a.crit == c
    ensures Flat(nodes, [Item(c, r)]) == [a, it]
    ensures RowOK(nodes, cap, false, [Item(c, r)], -1)
  {
    FlatSingle(nodes, Item(c, r));
    assert Exp(nodes, Item(c, r)) == [a, it];
    var row := [Item(c, r)];
    assert ItemOK(nodes, cap, false, row, 0) && Occupied(nodes, cap, row, 0);
  }

  /** A root over the two halves of the old root completes the tree. */
  lemma RootTop(nodes: seq<NodeData>, nodes': seq<NodeData>, cap: nat, rows: seq<Row>, low: seq<Row>, it: Item, r: Node)
    requires Pending(nodes, cap, rows, 0, low, 1, it)
    requires forall n | n in AllIds(Whole(rows, 0, low)) :: Kept(nodes, nodes', n)
    requires r < |nodes'| && nodes'[r] == Inner([it.crit], [rows[0][0].node, it.node])
             && r !in AllIds(Whole(rows, 0, low))
    ensures var w := Whole(Rooted(rows, r), 1, low);
            && TopOK(nodes', cap, w) && RowOK(nodes', cap, true, Last(w), -1) && Content(nodes', w) == low[|low| - 1]
            && |w[1]| == 2 && AllIds(w) == AllIds(Whole(rows, 0, low)) + {r}
    ensures LowKept(nodes, nodes', low) && Flat(nodes', Rooted(rows, r)[0]) == low[0]
  {
    hide Flat, RowOK, Distinct, AllIds, Allocated;
    var rx, w0: seq<Row> := Rooted(rows, r), Whole(rows, 0, low);
    var w: seq<Row> := Whole(rx, 1, low);
    forall j, i | 0 <= j < |low| - 1 && 0 <= i < |low[j]| ensures Kept(nodes, nodes', low[j][i].node) {
      assert w0[j] == low[j];
      InAllIds(w0, j, i);
    }
    LowSame(nodes, nodes', cap, low);
    assert low[0] == [rows[0][0], it];
    RootFlat(nodes', cap, rows[0][0].crit, r, rows[0][0], it);
    assert w == [rx[0]] + w0;
    ConsDistinct(w0, rx[0][0]);
    var top: seq<Row> := rx[..1];
    assert top == [rx[0]];
    OneDistinct(top);
    assert Allocated(nodes', top[0]) by { RowAllocated(nodes', cap, false, top[0]); }
    JoinLow(nodes', cap, rx, 1, low);
  }

  lemma OneDistinct(rows: seq<Row>)
    requires |rows| == 1 && |rows[0]| == 1
    ensures Distinct(rows)
  {
  }

  lemma ConsDistinct(rows: seq<Row>, it: Item)
    requires Distinct(rows) && it.node !in AllIds(rows)
    ensures Distinct([[it]] + rows) && AllIds([[it]] + rows) == AllIds(rows) + {it.node}
  {
    hide AllIds;
    var rows' := [[it]] + rows;
    forall a, i, b, j | 0 <= a < |rows'| && 0 <= i < |rows'[a]| && 0 <= b < |rows'| && 0 <= j < |rows'[b]|
        && NodeAt(rows', a, i) == NodeAt(rows', b, j)
      ensures a == b && i == j
    {
      if a > 0 {
        InAllIds(rows, a - 1, i);
        assert NodeAt(rows', a, i) == NodeAt(rows, a - 1, i);
      }
      if b > 0 {
        InAllIds(rows, b - 1, j);
        assert NodeAt(rows', b, j) == NodeAt(rows, b - 1, j);
      }
    }
    ConsIds(rows, it);
  }

  lemma {:induction false} ConsIds(rows: seq<Row>, it: Item)
    ensures AllIds([[it]] + rows) == AllIds(rows) + {it.node}
  {
    var rows' := [[it]] + rows;
    if rows == [] {
      assert rows'[..0] == [];
      assert Ids([it]) == {it.node} by { assert [it][0].node == it.node; }
    } else {
      var n := |rows| - 1;
      ConsIds(rows[..n], it);
      assert rows'[..n + 1] == [[it]] + rows[..n];
    }
  }

  lemma RootPath(nodes: seq<NodeData>, nodes': seq<NodeData>, cap: nat, rows: seq<Row>, low: seq<Row>, it: Item,
      r: Node, node: seq<Node>, entry: seq<nat>, pos: seq<nat>, posl: seq<nat>, target: nat, node': seq<Node>,
      entry': seq<nat>)
    requires Pending(nodes, cap, rows, 0, low, 1, it) && PendingPath(nodes, cap, rows, 0, low, node, entry, pos, posl,
             1, it, target)
    requires LowKept(nodes, nodes', low) && Flat(nodes', Rooted(rows, r)[0]) == low[0]
    requires |node'| == |node| == |entry'| && |rows| < |node|
    requires node'[0] == r && entry'[0] == (if node[0] == it.node then 1 else 0)
    requires forall j | 0 <= j < |rows| :: node'[j + 1] == node[j] && entry'[j + 1] == entry[j]
    ensures var w, pos' := Whole(Rooted(rows, r), 1, low), [0] + posl[..|posl| - 1];
            && OnPath(nodes', w, node', entry', pos', |rows|)
            && entry'[|rows|] < |Exp(nodes', w[|rows|][pos'[|rows|]])|
            && Target(nodes', w, entry', pos', |rows|) == target
  {
    hide Flat, Off, Exp, Distinct, Allocated, LowOK;
    var rx, w := Rooted(rows, r), Whole(Rooted(rows, r), 1, low);
    LowPathShift(nodes, nodes', low, node, entry, posl, target, node', entry');
    assert rx[0] == [rx[0][0]];
    FlatSingle(nodes', rx[0][0]);
    FlatNil(nodes', rx[0][..0]);
    OffIs(nodes', rx[0], 0);
    assert rx[..1] == [rx[0]];
    JoinLowPath(nodes', rx, 1, low, node', entry', entry', [0], posl, target);
    assert JoinPos([0], 1, posl) == [0] + posl[..|posl| - 1];
  }

  lemma LowPathShift(nodes: seq<NodeData>, nodes': seq<NodeData>, low: seq<Row>, node: seq<Node>, entry: seq<nat>,
      posl: seq<nat>, target: nat, node': seq<Node>, entry': seq<nat>)
    requires LowPath(nodes, low, node, entry, posl, 0, target) && LowKept(nodes, nodes', low)
    requires |node'| == |node| == |entry'| && |low| <= |node|
    requires forall j | 0 <= j < |low| - 1 :: node'[j + 1] == node[j] && entry'[j + 1] == entry[j]
    ensures LowPath(nodes', low, node', entry', posl, 1, target)
  {
    hide Flat, Off, Exp;
    forall j | 0 <= j < |low| - 1 ensures LowStep(nodes', low, node', entry', posl, 1, j) {
      assert LowStep(nodes, low, node, entry, posl, 0, j);
      OffUnchanged(nodes, nodes', low[j], posl[j]);
    }
  }

  /** The pool after a node of the tree changed and a new one joined it. */
  lemma OwnedGrow(n0: seq<NodeData>, n: seq<NodeData>, n': seq<NodeData>, ids0: set<Node>, ids: set<Node>, rhs: Node)
    requires Owned(n0, n, ids0, ids) && |n| <= |n'| <= |n| + 1 && rhs < |n'| && (rhs < |n| ==> n[rhs].Free?)
             && (|n'| > |n| ==> rhs == |n|)
    requires forall m | m in ids :: m < |n| && !n[m].Free?
    requires forall m | 0 <= m < |n| && m !in ids && m != rhs :: n'[m] == n[m]
    requires forall m | m in ids + {rhs} :: !n'[m].Free?
    ensures Owned(n0, n', ids0, ids + {rhs})
  {
    var ids' := ids + {rhs};
    forall m | 0 <= m < |n'|
      ensures !n'[m].Free? <==> m in ids' || (m < |n0| && !n0[m].Free? && m !in ids0)
    {
      if m < |n| && m != rhs {
        assert !n[m].Free? <==> m in ids || (m < |n0| && !n0[m].Free? && m !in ids0);
      }
    }
  }

  // ----- depth -----

  function Pow4(n: nat): nat {
    if n == 0 then 1 else 4 * Pow4(n - 1)
  }

  lemma {:induction false} HalfFullFlat(nodes: seq<NodeData>, cap: nat, leaf: bool, row: Row)
    requires LeafCapacity(cap)
    requires forall i | 0 <= i < |row| :: ItemOK(nodes, cap, leaf, row, i) && HalfFull(nodes[row[i].node], cap)
    ensures |Flat(nodes, row)| >= 4 * |row|
  {
    if row != [] {
      var n := |row| - 1;
      forall i | 0 <= i < n ensures ItemOK(nodes, cap, leaf, row[..n], i) && HalfFull(nodes[row[..n][i].node], cap) {
        assert ItemOK(nodes, cap, leaf, row, i);
      }
      HalfFullFlat(nodes, cap, leaf, row[..n]);
      assert ItemOK(nodes, cap, leaf, row, n);
      ExpSize(nodes, cap, leaf, row, n);
    }
  }

  /** Every node of a row but the last one contributes at least four items to the next row. */
  lemma RowFanout(nodes: seq<NodeData>, cap: nat, leaf: bool, row: Row)
    requires LeafCapacity(cap) && row != [] && RowOK(nodes, cap, leaf, row, -1)
    ensures |Flat(nodes, row)| >= 4 * (|row| - 1) + 1
  {
    var n := |row| - 1;
    forall i | 0 <= i < n ensures ItemOK(nodes, cap, leaf, row[..n], i) && HalfFull(nodes[row[..n][i].node], cap) {
      assert ItemOK(nodes, cap, leaf, row, i) && Occupied(nodes, cap, row, i);
    }
    HalfFullFlat(nodes, cap, leaf, row[..n]);
    RowFirst(nodes, cap, leaf, row, n);
  }

  lemma {:induction false} LowDepth(nodes: seq<NodeData>, cap: nat, low: seq<Row>, j: nat)
    requires LeafCapacity(cap) && LowOK(nodes, cap, low) && |low[0]| >= 2 && j < |low|
    ensures |low[j]| >= Pow4(j) + 1
  {
    hide Flat, RowOK;
    if j > 0 {
      LowDepth(nodes, cap, low, j - 1);
      assert LowLinked(nodes, cap, low, j - 1);
      RowFanout(nodes, cap, j - 1 == |low| - 2, low[j - 1]);
    }
  }

  lemma {:induction false} Pow4Grows(m: nat, n: nat)
    requires m <= n
    ensures Pow4(m) <= Pow4(n)
  {
    if m < n {
      Pow4Grows(m, n - 1);
    }
  }

  lemma Pow4Of16()
    ensures Pow4(16) == 0x1_0000_0000
  {
    assert Pow4(4) == 256;
    assert Pow4(8) == 0x1_0000;
    assert Pow4(12) == 0x100_0000;
  }

  /** A tree of `d >= 2` levels has at least `4^(d-1) + 1` entries. */
  lemma TreeDepth(nodes: seq<NodeData>, cap: nat, rows: seq<Row>)
    requires TreeOK(nodes, cap, rows) && |rows| >= 2
    ensures |Content(nodes, rows)| >= Pow4(|rows| - 1) + 1
  {
    hide Flat, RowOK, Distinct, Ascending;
    var low := rows[1..] + [Content(nodes, rows)];
    forall j | 0 <= j < |low| - 1 ensures LowLinked(nodes, cap, low, j) {
      if j < |rows| - 2 {
        assert Linked(nodes, cap, rows, j + 1);
      }
    }
    LowDepth(nodes, cap, low, |low| - 1);
  }

  /** With at most 2^32 entries no path is longer than `MAX_PATH`. */
  lemma MaxPathSuffices(nodes: seq<NodeData>, cap: nat, rows: seq<Row>)
    requires TreeOK(nodes, cap, rows) && |Content(nodes, rows)| <= 0x1_0000_0000
    ensures |rows| <= MAX_PATH
  {
    hide TreeOK, Content;
    if |rows| > MAX_PATH {
      TreeDepth(nodes, cap, rows);
      Pow4Grows(16, |rows| - 1);
      Pow4Of16();
    }
  }

  // ----- the state of an insertion -----

  ghost predicate Live(nodes: seq<NodeData>, ids: set<Node>) {
    forall n | n in ids :: n < |nodes| && !nodes[n].Free?
  }

  /** The whole state while an item waits to be inserted at level `l - 1`. */
  ghost predicate Growing(n0: seq<NodeData>, nodes: seq<NodeData>, cap: nat, rows: seq<Row>, l: nat, low: seq<Row>,
      node: seq<Node>, entry: seq<nat>, pos: seq<nat>, posl: seq<nat>, idx: nat, it: Item, target: nat) {
    && Pending(nodes, cap, rows, l, low, idx, it)
    && PendingPath(nodes, cap, rows, l, low, node, entry, pos, posl, idx, it, target)
    && |rows| <= |node| && |rows| <= |pos|
    && Owned(n0, nodes, AllIds(rows), AllIds(Whole(rows, l, low))) && Live(nodes, AllIds(Whole(rows, l, low)))
  }

  /** The state after the insertion: complete rows with entries `content`, the path at `target`. */
  ghost predicate Complete(n0: seq<NodeData>, nodes: seq<NodeData>, cap: nat, rows: seq<Row>, rows': seq<Row>,
      node: seq<Node>, entry: seq<nat>, pos: seq<nat>, content: Row, target: nat) {
    && rows' != [] && TopOK(nodes, cap, rows') && RowOK(nodes, cap, true, Last(rows'), -1) && Content(nodes, rows') ==
        content
    && OnPath(nodes, rows', node, entry, pos, |rows'| - 1)
    && entry[|rows'| - 1] < |Exp(nodes, Last(rows')[pos[|rows'| - 1]])|
    && Target(nodes, rows', entry, pos, |rows'| - 1) == target
    && Owned(n0, nodes, AllIds(rows), AllIds(rows'))
  }

  lemma GrowingNode(n0: seq<NodeData>, nodes: seq<NodeData>, cap: nat, rows: seq<Row>, l: nat, low: seq<Row>,
      node: seq<Node>, entry: seq<nat>, pos: seq<nat>, posl: seq<nat>, idx: nat, it: Item, target: nat)
    requires l > 0 && Growing(n0, nodes, cap, rows, l, low, node, entry, pos, posl, idx, it, target)
    ensures var n := node[l - 1];
            && l <= |rows| && |low| == |rows| - l + 1 && pos[l - 1] < |rows[l - 1]| && rows[l - 1][pos[l - 1]].node == n
            && n < |nodes| && n in AllIds(Whole(rows, l, low)) && !nodes[n].Free? && nodes[n].Leaf? == (l == |rows|)
            && WellFormed(nodes[n], cap) && (if nodes[n].Leaf? then entry[l - 1] <= Slots(nodes[n])
                else entry[l - 1] < Slots(nodes[n]))
  {
    hide Flat, Off, Exp, TopOK, AllIds, Owned, StepDown, Distinct, LowOK, LowPath, InsertAt;
    ReceivingKind(nodes, cap, l == |rows|, rows[l - 1], pos[l - 1], entry[l - 1]);
    assert Whole(rows, l, low)[l - 1] == rows[l - 1];
    InAllIds(Whole(rows, l, low), l - 1, pos[l - 1]);
  }

  lemma GrownOwned(n0: seq<NodeData>, n: seq<NodeData>, n': seq<NodeData>, ids0: set<Node>, ids: set<Node>, m: Node)
    requires Owned(n0, n, ids0, ids) && m in ids && m < |n| == |n'| && !n[m].Free? && !n'[m].Free? && n' ==
             n[m := n'[m]]
    ensures Owned(n0, n', ids0, ids)
  {
    forall k | 0 <= k < |n'|
      ensures !n'[k].Free? <==> k in ids || (k < |n0| && !n0[k].Free? && k !in ids0)
    {
      assert !n[k].Free? <==> k in ids || (k < |n0| && !n0[k].Free? && k !in ids0);
    }
  }

  /** The pool after node `n` was split: `it'` is the new right half with its critical key. */
  ghost predicate SplitPool(nodes: seq<NodeData>, nodes': seq<NodeData>, cap: nat, n: Node, index: nat, it: Item,
      it': Item) {
    && n < |nodes| <= |nodes'| <= |nodes| + 1 && FullNode(nodes[n], cap, index)
    && it'.node < |nodes'| && (it'.node < |nodes| ==> nodes[it'.node].Free?)
    && (|nodes'| > |nodes| ==> it'.node == |nodes|)
    && var h := SplitInsert(nodes[n], cap, index, it);
    && nodes'[n] == h.lhs && nodes'[it'.node] == h.rhs && it'.crit == h.crit
    && (forall m | 0 <= m < |nodes| && m != n && m != it'.node :: nodes'[m] == nodes[m])
  }

  lemma SplitGrowing(n0: seq<NodeData>, nodes: seq<NodeData>, nodes': seq<NodeData>, cap: nat, rows: seq<Row>, l: nat,
      low: seq<Row>, node: seq<Node>, entry: seq<nat>, pos: seq<nat>, posl: seq<nat>, idx: nat, it: Item, target: nat,
      crit: Key, rhs: Node, node': seq<Node>, entry': seq<nat>)
    requires l > 0 && Growing(n0, nodes, cap, rows, l, low, node, entry, pos, posl, idx, it, target)
    requires SplitPool(nodes, nodes', cap, node[l - 1], entry[l - 1], it, Item(crit, rhs))
    requires SplitMove(cap, rows, l, nodes[node[l - 1]], it, rhs, node, entry, node', entry')
    ensures var low' := SplitLow(nodes, cap, rows, l, low, pos[l - 1], entry[l - 1], it, rhs);
            var posl' := SplitPositions(nodes, cap, node[l - 1], pos[l - 1], entry[l - 1], it, posl);
            Growing(n0, nodes', cap, rows, l - 1, low', node', entry', pos, posl', pos[l - 1] + 1, Item(crit, rhs),
                target)
  {
    hide Flat, Off, Exp, RowOK, TopOK, AllIds, Owned, StepDown, Distinct, LowOK, LowPath, SplitInsert, Receiving;
    GrowingNode(n0, nodes, cap, rows, l, low, node, entry, pos, posl, idx, it, target);
    assert SplitAt(nodes, nodes', cap, rows, l, low, node[l - 1], entry[l - 1], it, rhs);
    SplitPending(nodes, nodes', cap, rows, l, low, idx, it, node, entry, pos, posl, target, rhs);
    SplitPath(nodes, nodes', cap, rows, l, low, idx, it, node, entry, pos, posl, target, rhs, node', entry');
    SplitWhole(nodes, cap, rows, l, low, pos[l - 1], entry[l - 1], it, rhs);
    OwnedGrow(n0, nodes, nodes', AllIds(rows), AllIds(Whole(rows, l, low)), rhs);
  }

  /** The path is where `(key, value)` belongs: the entries stay in order, and the front of a leaf
  is only used in the first leaf. */
  ghost predicate InsertPoint(nodes: seq<NodeData>, rows: seq<Row>, node: seq<Node>, entry: seq<nat>, pos: seq<nat>,
      key: Key, value: Value)
    requires rows != [] && OnPath(nodes, rows, node, entry, pos, |rows| - 1)
  {
    var l := |rows| - 1;
    && node[l] < |nodes| && entry[l] <= Slots(nodes[node[l]]) && (entry[l] == 0 ==> pos[l] == 0)
    && var t := Target(nodes, rows, entry, pos, l);
    && t <= |Content(nodes, rows)| && Ascending(InsertAt(Content(nodes, rows), t, Item(key, value)))
  }

  lemma StartOwned(nodes: seq<NodeData>, cap: nat, rows: seq<Row>)
    requires TreeOK(nodes, cap, rows)
    ensures Owned(nodes, nodes, AllIds(rows), AllIds(rows)) && Live(nodes, AllIds(rows))
  {
    hide AllIds, Owned, Distinct, Ascending;
    LiveRow(nodes, cap, true, Last(rows), -1);
    OwnedSame(nodes, cap, true, rows);
  }

  lemma InsertSize(s: Row, i: nat, x: Item)
    requires i <= |s|
    ensures |InsertAt(s, i, x)| == |s| + 1
  {
  }

  lemma CompleteTree(n0: seq<NodeData>, nodes: seq<NodeData>, cap: nat, rows: seq<Row>, rows': seq<Row>,
      node: seq<Node>, entry: seq<nat>, pos: seq<nat>, content: Row, target: nat)
    requires Complete(n0, nodes, cap, rows, rows', node, entry, pos, content, target) && Ascending(content)
    requires |rows'| > 1 ==> |rows'[1]| >= 2
    ensures TreeOK(nodes, cap, rows') && |rows'[0]| == 1 && node[0] == rows'[0][0].node
  {
    hide Flat, Off, Exp, RowOK, Distinct, AllIds, Owned, StepDown;
  }

  /** The second row does not shrink. */
  lemma WiderRow(rows: seq<Row>, l: nat, low: seq<Row>, idx: nat, it: Item)
    requires 0 < l < |rows| && |low| == |rows| - l + 1 && idx <= |rows[l]| && low[0] == InsertAt(rows[l], idx, it)
    requires |rows[1]| >= 2
    ensures |Whole(rows, l, low)| > 1 && |Whole(rows, l, low)[1]| >= 2
  {
    if l == 1 {
      assert Whole(rows, l, low)[l + 0] == low[0];
    }
  }

  lemma GrowingRoot(n0: seq<NodeData>, nodes: seq<NodeData>, cap: nat, rows: seq<Row>, low: seq<Row>, node: seq<Node>,
      entry: seq<nat>, pos: seq<nat>, posl: seq<nat>, idx: nat, it: Item, target: nat)
    requires Growing(n0, nodes, cap, rows, 0, low, node, entry, pos, posl, idx, it, target)
    ensures idx == 1 && |rows[0]| == 1 && |posl| == |low|
    ensures Pending(nodes, cap, rows, 0, low, idx, it)
  {
    hide LowOK, LowStep, Distinct, AllIds, Owned;
  }

  /** When the root was split, fewer than `MAX_PATH` levels were in use. */
  lemma DepthLeft(nodes: seq<NodeData>, cap: nat, rows: seq<Row>, low: seq<Row>, idx: nat, it: Item)
    requires Pending(nodes, cap, rows, 0, low, idx, it) && idx == 1
    requires |low[|low| - 1]| <= 0x1_0000_0000
    ensures |rows| < MAX_PATH
  {
    hide LowOK, Distinct;
    if |rows| >= MAX_PATH {
      LowDepth(nodes, cap, low, |low| - 1);
      Pow4Grows(16, |low| - 1);
      Pow4Of16();
    }
  }

  lemma InsertFront<T>(s: seq<T>, n: nat, x: T)
    requires 0 < n <= |s|
    ensures var r := SliceInsert(s[..n], 0, x) + s[n..];
            |r| == |s| && r[0] == x && forall i | 0 <= i < n - 1 :: r[i + 1] == s[i]
  {
  }

  lemma RootComplete(n0: seq<NodeData>, nodes: seq<NodeData>, nodes': seq<NodeData>, cap: nat, rows: seq<Row>,
      low: seq<Row>, node: seq<Node>, entry: seq<nat>, pos: seq<nat>, posl: seq<nat>, it: Item, target: nat,
      root: Node, node': seq<Node>, entry': seq<nat>)
    requires Growing(n0, nodes, cap, rows, 0, low, node, entry, pos, posl, 1, it, target) && |rows[0]| == 1
    requires root < |nodes| ==>
               nodes[root].Free? && nodes' == nodes[root := Inner([it.crit], [rows[0][0].node, it.node])]
    requires root >= |nodes| ==> root == |nodes| && nodes' == nodes + [Inner([it.crit], [rows[0][0].node, it.node])]
    requires |node'| == |node| == |entry'| && |rows| < |node| && |posl| == |low|
    requires node'[0] == root && entry'[0] == (if node[0] == it.node then 1 else 0)
    requires forall j | 0 <= j < |rows| :: node'[j + 1] == node[j] && entry'[j + 1] == entry[j]
    ensures var w, pos' := Whole(Rooted(rows, root), 1, low), [0] + posl[..|posl| - 1];
            && Complete(n0, nodes', cap, rows, w, node', entry', pos', low[|low| - 1], target)
            && |w| == |rows| + 1 && |w[1]| == 2
  {
    hide Flat, Off, Exp, RowOK, TopOK, AllIds, Owned, StepDown, Distinct, LowOK, LowPath, LowKept, Pending,
        PendingPath, Whole, Rooted;
    var ids := AllIds(Whole(rows, 0, low));
    forall n | n in ids ensures Kept(nodes, nodes', n) && n != root {}
    assert |low| == |rows| + 1 by { GrowingSize(n0, nodes, cap, rows, 0, low, node, entry, pos, posl, 1, it, target); }
    RootTop(nodes, nodes', cap, rows, low, it, root);
    RootPath(nodes, nodes', cap, rows, low, it, root, node, entry, pos, posl, target, node', entry');
    OwnedGrow(n0, nodes, nodes', AllIds(rows), ids, root);
  }

  lemma GrowingSize(n0: seq<NodeData>, nodes: seq<NodeData>, cap: nat, rows: seq<Row>, l: nat, low: seq<Row>,
      node: seq<Node>, entry: seq<nat>, pos: seq<nat>, posl: seq<nat>, idx: nat, it: Item, target: nat)
    requires Growing(n0, nodes, cap, rows, l, low, node, entry, pos, posl, idx, it, target)
    ensures |low| == |rows| - l + 1
  {
    hide LowOK, LowPath, Distinct, AllIds, Owned;
  }
}
