/** What the steps of a removal do to the rows of a tree. */
module BforestHeal {
  import opened BforestNode
  import opened BforestShape
  import opened BforestPos

  // ----- the nodes of a tree -----

  ghost function Ids(row: Row): set<Node> {
    set i | 0 <= i < |row| :: row[i].node
  }

  ghost function AllIds(rows: seq<Row>): set<Node> {
    if rows == [] then {} else AllIds(rows[..|rows| - 1]) + Ids(rows[|rows| - 1])
  }

  lemma {:induction false} InAllIds(rows: seq<Row>, l: nat, i: nat)
    requires l < |rows| && i < |rows[l]|
    ensures rows[l][i].node in AllIds(rows)
  {
    if l < |rows| - 1 {
      InAllIds(rows[..|rows| - 1], l, i);
    }
  }

  lemma {:induction false} FromAllIds(rows: seq<Row>, n: Node) returns (l: nat, i: nat)
    requires n in AllIds(rows)
    ensures l < |rows| && i < |rows[l]| && rows[l][i].node == n
  {
    var row := rows[|rows| - 1];
    if n in Ids(row) {
      var k :| 0 <= k < |row| && row[k].node == n;
      l, i := |rows| - 1, k;
    } else {
      l, i := FromAllIds(rows[..|rows| - 1], n);
    }
  }

  lemma {:induction false} SameIds(rows: seq<Row>, rows': seq<Row>)
    requires |rows'| == |rows| && forall l | 0 <= l < |rows| :: SameNodes(rows[l], rows'[l])
    ensures AllIds(rows') == AllIds(rows)
  {
    if rows != [] {
      SameIds(rows[..|rows| - 1], rows'[..|rows| - 1]);
      assert SameNodes(rows[|rows| - 1], rows'[|rows| - 1]);
      assert Ids(rows[|rows| - 1]) == Ids(rows'[|rows| - 1]);
    }
  }

  predicate SameNodes(row: Row, row': Row) {
    |row'| == |row| && forall i | 0 <= i < |row| :: row'[i].node == row[i].node
  }

  /** From `nodes` to `nodes'` the tree goes from the nodes `ids` to `ids'`: all other nodes in
  use stay as they are, and the nodes in use are exactly those and the new ones. */
  ghost predicate Owned(nodes: seq<NodeData>, nodes': seq<NodeData>, ids: set<Node>, ids': set<Node>) {
    && |nodes| <= |nodes'|
    && (forall n | 0 <= n < |nodes| && n !in ids && !nodes[n].Free? :: nodes'[n] == nodes[n] && n !in ids')
    && (forall n | 0 <= n < |nodes'| ::
         !nodes'[n].Free? <==> n in ids' || (n < |nodes| && !nodes[n].Free? && n !in ids))
  }

  lemma OwnedTransitive(a: seq<NodeData>, b: seq<NodeData>, c: seq<NodeData>, r: set<Node>, s: set<Node>, t: set<Node>)
    requires Owned(a, b, r, s) && Owned(b, c, s, t)
    ensures Owned(a, c, r, t)
  {
  }

  // ----- dropping a node from its parent -----

  /** May slot `p` be dropped with `DropSlot`, whichever key the parent drops with it? */
  predicate Droppable(row: Row, p: nat)
    requires p < |row|
  {
    p == 0 || p + 1 == |row| || row[p + 1].crit == row[p].crit
  }

  predicate SlotGone(b: Row, b': Row, e: nat) {
    e < |b| && b' == if e > 0 then RemoveAt(b, e) else DropSlot(b, 0)
  }

  lemma DropMiddle(a: Row, b: Row, c: Row, e: nat, b': Row)
    requires SlotGone(b, b', e) && Droppable(a + b + c, |a| + e)
    requires |b| == 1 ==> c == []
    ensures a + b' + c == DropSlot(a + b + c, |a| + e)
  {
    hide DropSlot, RemoveAt, Droppable;
    if e > 0 {
      DropLater(a, b, c, e);
    } else if |b| == 1 {
      DropOnly(a, b, c);
    } else {
      DropFirst(a, b, c);
    }
  }

  lemma DropLater(a: Row, b: Row, c: Row, e: nat)
    requires 0 < e < |b| && Droppable(a + b + c, |a| + e)
    ensures a + RemoveAt(b, e) + c == DropSlot(a + b + c, |a| + e)
  {
    var row := a + b + c;
    var p := |a| + e;
    assert row[..p] == a + b[..e];
    if p + 1 < |row| {
      assert row[p + 1] == Item(row[p].crit, row[p + 1].node);
      assert row[p + 1..] == b[e + 1..] + c;
      assert row[p + 1..] == [row[p + 1]] + row[p + 2..];
    }
  }

  lemma DropOnly(a: Row, b: Row, c: Row)
    requires |b| == 1 && c == []
    ensures a + DropSlot(b, 0) + c == DropSlot(a + b + c, |a|)
  {
  }

  lemma DropFirst(a: Row, b: Row, c: Row)
    requires |b| > 1
    ensures a + DropSlot(b, 0) + c == DropSlot(a + b + c, |a|)
  {
    var row := a + b + c;
    assert row[..|a|] == a && row[|a| + 2..] == b[2..] + c;
  }

  /** The nodes after freeing slot `entry` of row `pl + 1` and removing it from its parent. */
  ghost predicate Unhooked(nodes: seq<NodeData>, nodes': seq<NodeData>, rows: seq<Row>, pos: seq<nat>, e: nat)
    requires |rows| >= 2 && |pos| >= |rows|
  {
    var pl := |rows| - 2;
    && pos[pl] < |rows[pl]| && pos[pl + 1] < |rows[pl + 1]|
    && |nodes'| == |nodes|
    && (forall n | 0 <= n < |nodes| && n != rows[pl][pos[pl]].node && n != rows[pl + 1][pos[pl + 1]].node ::
        nodes'[n] == nodes[n])
    && var n := rows[pl][pos[pl]].node;
    && n < |nodes| && nodes[n].Inner? && WellFormed(nodes[n], 7) && e < |nodes[n].tree|
    && nodes'[n] == InnerRemove(nodes[n], e)
  }

  /** The parent row then expands to the row without the dropped node. */
  lemma UnhookFlat(nodes: seq<NodeData>, nodes': seq<NodeData>, cap: nat, rows: seq<Row>, node: seq<Node>,
      entry: seq<nat>, pos: seq<nat>)
    requires |rows| >= 2 && TopOK(nodes, cap, rows) && OnPath(nodes, rows, node, entry, pos, |rows| - 1)
    requires Unhooked(nodes, nodes', rows, pos, entry[|rows| - 2])
    requires Droppable(Last(rows), pos[|rows| - 1])
    ensures Flat(nodes', rows[|rows| - 2]) == DropSlot(Last(rows), pos[|rows| - 1])
    ensures Off(nodes', rows[|rows| - 2], pos[|rows| - 2]) == Off(nodes, rows[|rows| - 2], pos[|rows| - 2])
  {
    hide Flat, Off, Exp, RowOK, Distinct, Unhooked;
    var pl := |rows| - 2;
    var row, p, e := rows[pl], pos[pl], entry[pl];
    assert StepDown(nodes, rows, entry, pos, pl);
    assert Linked(nodes, cap, rows, pl);
    UnhookExp(nodes, nodes', cap, rows, pos, e);
    FlatSplit(nodes, row, p);
    FlatReplace(nodes, nodes', row, row, p);
    SingleIsLast(nodes, cap, rows, pl, p);
    OffIs(nodes, row, p);
    DropMiddle(Flat(nodes, row[..p]), Exp(nodes, row[p]), Flat(nodes, row[p + 1..]), e, Exp(nodes', row[p]));
  }

  lemma UnhookExp(nodes: seq<NodeData>, nodes': seq<NodeData>, cap: nat, rows: seq<Row>, pos: seq<nat>, e: nat)
    requires |rows| >= 2 && |pos| >= |rows| && TopOK(nodes, cap, rows)
    requires Unhooked(nodes, nodes', rows, pos, e)
    ensures var pl := |rows| - 2; var row, p := rows[pl], pos[pl];
            && (forall i | 0 <= i < |row| && i != p :: Exp(nodes, row[i]) == Exp(nodes', row[i]))
            && SlotGone(Exp(nodes, row[p]), Exp(nodes', row[p]), e)
  {
    hide Flat, RowOK, Distinct, Expand;
    var pl := |rows| - 2;
    var row, p := rows[pl], pos[pl];
    InnerSlots(nodes, cap, rows, pl, p);
    forall i | 0 <= i < |row| && i != p ensures Exp(nodes, row[i]) == Exp(nodes', row[i]) {
      Apart(rows, pl, i, pl, p);
      Apart(rows, pl, i, pl + 1, pos[pl + 1]);
      InnerSlots(nodes, cap, rows, pl, i);
    }
    var d, d', c := nodes[row[p].node], nodes'[row[p].node], row[p].crit;
    assert SlotGone(Expand(d, c), Expand(d', c), e);
  }

  lemma OffIs(nodes: seq<NodeData>, row: Row, p: nat)
    requires p <= |row|
    ensures Off(nodes, row, p) == |Flat(nodes, row[..p])|
  {
  }

  /** Only the right-most node of a row can have a single sub-tree. */
  lemma SingleIsLast(nodes: seq<NodeData>, cap: nat, rows: seq<Row>, l: nat, p: nat)
    requires TopOK(nodes, cap, rows) && l + 1 < |rows| && p < |rows[l]|
    ensures |Exp(nodes, rows[l][p])| == 1 ==> p + 1 == |rows[l]| && Flat(nodes, rows[l][p + 1..]) == []
  {
    assert Linked(nodes, cap, rows, l);
    assert ItemOK(nodes, cap, false, rows[l], p) && Occupied(nodes, cap, rows[l], p);
  }

  /** And the rows above stay complete, except for the parent itself. */
  lemma UnhookTop(nodes: seq<NodeData>, nodes': seq<NodeData>, cap: nat, rows: seq<Row>, node: seq<Node>,
      entry: seq<nat>, pos: seq<nat>)
    requires |rows| >= 2 && TopOK(nodes, cap, rows) && OnPath(nodes, rows, node, entry, pos, |rows| - 1)
    requires Unhooked(nodes, nodes', rows, pos, entry[|rows| - 2])
    ensures TopOK(nodes', cap, rows[..|rows| - 1])
    ensures RowOK(nodes', cap, false, rows[|rows| - 2], pos[|rows| - 2])
    ensures OnPath(nodes', rows[..|rows| - 1], node, entry, pos, |rows| - 2)
  {
    hide Flat, Off, Exp, Distinct, RowOK, StepDown, InnerRemove;
    var pl := |rows| - 2;
    var up := rows[..pl + 1];
    forall l | 0 <= l < pl ensures Linked(nodes', cap, up, l) {
      assert Linked(nodes, cap, rows, l);
      forall i | 0 <= i < |rows[l]| ensures Kept(nodes, nodes', rows[l][i].node) {
        UnhookKept(nodes, nodes', cap, rows, pos, entry[pl], l, i);
      }
      FlatUnchanged(nodes, nodes', rows[l]);
      RowUnchanged(nodes, nodes', cap, false, rows[l], -1);
    }
    DistinctPrefix(rows, pl + 1);
    assert Linked(nodes, cap, rows, pl);
    UnhookRow(nodes, nodes', cap, rows, pos);
    forall l, i | 0 <= l < pl && 0 <= i < |rows[l]| ensures Kept(nodes, nodes', rows[l][i].node) {
      UnhookKept(nodes, nodes', cap, rows, pos, entry[pl], l, i);
    }
    PathUnchanged(nodes, nodes', cap, rows, node, entry, pos, pl);
  }

  lemma UnhookKept(nodes: seq<NodeData>, nodes': seq<NodeData>, cap: nat, rows: seq<Row>, pos: seq<nat>, e: nat,
      l: nat, i: nat)
    requires |rows| >= 2 && TopOK(nodes, cap, rows) && |pos| >= |rows| && Unhooked(nodes, nodes', rows, pos, e)
    requires l < |rows| - 2 && i < |rows[l]|
    ensures Kept(nodes, nodes', rows[l][i].node)
  {
    hide Flat, Distinct, RowOK, InnerRemove;
    Apart(rows, l, i, |rows| - 2, pos[|rows| - 2]);
    Apart(rows, l, i, |rows| - 1, pos[|rows| - 1]);
    InnerSlots(nodes, cap, rows, l, i);
  }

  lemma DistinctPrefix(rows: seq<Row>, k: nat)
    requires Distinct(rows) && k <= |rows|
    ensures Distinct(rows[..k])
  {
    var up := rows[..k];
    forall l, i, m, j | 0 <= l < |up| && 0 <= i < |up[l]| && 0 <= m < |up| && 0 <= j < |up[m]| && NodeAt(up, l, i) ==
        NodeAt(up, m, j)
      ensures l == m && i == j
    {
      assert NodeAt(rows, l, i) == NodeAt(up, l, i) && NodeAt(rows, m, j) == NodeAt(up, m, j);
    }
  }

  lemma RowUnchanged(nodes: seq<NodeData>, nodes': seq<NodeData>, cap: nat, leaf: bool, row: Row, skip: int)
    requires RowOK(nodes, cap, leaf, row, skip)
    requires forall i | 0 <= i < |row| :: Kept(nodes, nodes', row[i].node)
    ensures RowOK(nodes', cap, leaf, row, skip)
  {
    forall i | 0 <= i < |row| ensures ItemOK(nodes', cap, leaf, row, i)
        && (i != skip ==> Occupied(nodes', cap, row, i)) {
      assert ItemOK(nodes, cap, leaf, row, i) && Kept(nodes, nodes', row[i].node);
      assert i != skip ==> Occupied(nodes, cap, row, i);
    }
  }

  lemma UnhookRow(nodes: seq<NodeData>, nodes': seq<NodeData>, cap: nat, rows: seq<Row>, pos: seq<nat>)
    requires |rows| >= 2 && Distinct(rows) && |pos| >= |rows|
    requires pos[|rows| - 2] < |rows[|rows| - 2]| && pos[|rows| - 1] < |rows[|rows| - 1]|
    requires RowOK(nodes, cap, false, rows[|rows| - 2], -1)
    requires exists e :: Unhooked(nodes, nodes', rows, pos, e)
    ensures RowOK(nodes', cap, false, rows[|rows| - 2], pos[|rows| - 2])
    ensures Allocated(nodes', rows[|rows| - 2])
  {
    hide Distinct, InnerRemove, Expand;
    var pl := |rows| - 2;
    var row := rows[pl];
    forall i | 0 <= i < |row|
      ensures ItemOK(nodes', cap, false, row, i) && (i != pos[pl] ==> Occupied(nodes', cap, row, i))
    {
      assert ItemOK(nodes, cap, false, row, i) && Occupied(nodes, cap, row, i);
      if i != pos[pl] {
        Apart(rows, pl, i, pl, pos[pl]);
        Apart(rows, pl, i, pl + 1, pos[pl + 1]);
      }
    }
    forall i | 0 <= i < |row| ensures row[i].node < |nodes'| {
      assert ItemOK(nodes', cap, false, row, i);
    }
  }

  /** Changes at or below row `level` do not move a path above it. */
  lemma PathUnchanged(nodes: seq<NodeData>, nodes': seq<NodeData>, cap: nat, rows: seq<Row>, node: seq<Node>,
      entry: seq<nat>, pos: seq<nat>, level: nat)
    requires TopOK(nodes, cap, rows) && level < |rows| && OnPath(nodes, rows, node, entry, pos, level)
    requires forall l, i | 0 <= l < level && 0 <= i < |rows[l]| :: Kept(nodes, nodes', rows[l][i].node)
    ensures OnPath(nodes', rows[..level + 1], node, entry, pos, level)
  {
    hide Flat, Off, Exp, TopOK;
    var up := rows[..level + 1];
    forall l | 0 <= l < level ensures StepDown(nodes', up, entry, pos, l) {
      assert StepDown(nodes, rows, entry, pos, l);
      OffUnchanged(nodes, nodes', rows[l], pos[l]);
    }
  }

  lemma OffUnchanged(nodes: seq<NodeData>, nodes': seq<NodeData>, row: Row, p: nat)
    requires p < |row| && forall i | 0 <= i < |row| :: Kept(nodes, nodes', row[i].node)
    ensures Off(nodes', row, p) == Off(nodes, row, p) && Exp(nodes', row[p]) == Exp(nodes, row[p])
  {
    assert Kept(nodes, nodes', row[p].node);
    forall i | 0 <= i < |row[..p]| ensures Exp(nodes, row[..p][i]) == Exp(nodes', row[..p][i]) {
      assert Kept(nodes, nodes', row[i].node);
    }
    FlatFrame(nodes, nodes', row[..p]);
  }

  // ----- changes confined to the last row -----

  ghost predicate KeptAbove(nodes: seq<NodeData>, nodes': seq<NodeData>, rows: seq<Row>) {
    forall l, i | 0 <= l < |rows| - 1 && 0 <= i < |rows[l]| :: Kept(nodes, nodes', rows[l][i].node)
  }

  lemma LastRowChange(nodes: seq<NodeData>, nodes': seq<NodeData>, cap: nat, rows: seq<Row>, node: seq<Node>,
      entry: seq<nat>, pos: seq<nat>)
    requires TopOK(nodes, cap, rows) && OnPath(nodes, rows, node, entry, pos, |rows| - 1)
    requires |nodes| <= |nodes'| && KeptAbove(nodes, nodes', rows)
    ensures TopOK(nodes', cap, rows) && OnPath(nodes', rows, node, entry, pos, |rows| - 1)
  {
    hide Flat, Off, Exp, RowOK, Distinct;
    forall l | 0 <= l < |rows| - 1 ensures Linked(nodes', cap, rows, l) {
      assert Linked(nodes, cap, rows, l);
      FlatUnchanged(nodes, nodes', rows[l]);
      RowUnchanged(nodes, nodes', cap, false, rows[l], -1);
    }
    PathUnchanged(nodes, nodes', cap, rows, node, entry, pos, |rows| - 1);
    assert rows[..|rows|] == rows;
  }

  /** Writing to a node of the last row touches no row above. */
  lemma KeptAboveLast(nodes: seq<NodeData>, nodes': seq<NodeData>, cap: nat, rows: seq<Row>, p: nat)
    requires TopOK(nodes, cap, rows) && p < |Last(rows)| && |nodes'| == |nodes|
    requires forall n | 0 <= n < |nodes| && n != Last(rows)[p].node :: nodes'[n] == nodes[n]
    ensures KeptAbove(nodes, nodes', rows)
  {
    hide Flat, Distinct;
    forall l, i | 0 <= l < |rows| - 1 && 0 <= i < |rows[l]| ensures Kept(nodes, nodes', rows[l][i].node) {
      Apart(rows, l, i, |rows| - 1, p);
      InnerSlots(nodes, cap, rows, l, i);
    }
  }

  lemma LastRowPut(nodes: seq<NodeData>, nodes': seq<NodeData>, cap: nat, rows: seq<Row>, node: seq<Node>,
      entry: seq<nat>, pos: seq<nat>, p: nat)
    requires TopOK(nodes, cap, rows) && OnPath(nodes, rows, node, entry, pos, |rows| - 1) && p < |Last(rows)|
    requires var n := Last(rows)[p].node; n < |nodes| == |nodes'| && nodes' == nodes[n := nodes'[n]]
    ensures TopOK(nodes', cap, rows) && OnPath(nodes', rows, node, entry, pos, |rows| - 1)
  {
    KeptAboveLast(nodes, nodes', cap, rows, p);
    LastRowChange(nodes, nodes', cap, rows, node, entry, pos);
  }

  // ----- putting a healed upper part and a shortened row together -----

  lemma DropIds(rows: seq<Row>, p: nat)
    requires rows != [] && Distinct(rows) && p < |Last(rows)|
    ensures Ids(DropSlot(Last(rows), p)) == Ids(Last(rows)) - {Last(rows)[p].node}
  {
    hide Distinct;
    var row, l := Last(rows), |rows| - 1;
    var row' := DropSlot(row, p);
    forall i | 0 <= i < |row| && i != p ensures row[i].node in Ids(row') && row[i].node != row[p].node {
      Apart(rows, l, i, l, p);
      assert row'[if i < p then i else i - 1].node == row[i].node;
    }
    forall i | 0 <= i < |row'| ensures row'[i].node in Ids(row) - {row[p].node} {
      var j := if i < p then i else i + 1;
      Apart(rows, l, j, l, p);
      assert row'[i].node == row[j].node;
    }
    assert forall n | n in Ids(row) - {row[p].node} :: n in Ids(row');
    assert forall n | n in Ids(row') :: n in Ids(row) - {row[p].node};
  }

  lemma DropDistinct(rows: seq<Row>, p: nat, up: seq<Row>)
    requires rows != [] && Distinct(rows) && p < |Last(rows)|
    requires Distinct(up) && |up| == |rows| - 1 && AllIds(up) <= AllIds(rows[..|rows| - 1])
    ensures Distinct(up + [DropSlot(Last(rows), p)])
  {
    hide Distinct, AllIds, DropSlot;
    var l := |rows| - 1;
    var row' := DropSlot(Last(rows), p);
    var rows' := up + [row'];
    forall j | 0 <= j < |row'|
      ensures DropIndex(p, j) < |rows[l]| && row'[j].node == rows[l][DropIndex(p, j)].node
    {
      DropAt(Last(rows), p, j);
    }
    DistinctParts(rows', l, rows, up, p);
  }

  function DropIndex(p: nat, j: nat): nat {
    if j < p then j else j + 1
  }

  lemma DropAt(row: Row, p: nat, j: nat)
    requires p < |row| && j < |DropSlot(row, p)|
    ensures DropIndex(p, j) < |row| && DropSlot(row, p)[j].node == row[DropIndex(p, j)].node
  {
  }

  lemma DistinctParts(rows': seq<Row>, l: nat, rows: seq<Row>, up: seq<Row>, p: nat)
    requires |rows'| == |rows| == l + 1 && up == rows'[..l] && Distinct(up) && Distinct(rows)
    requires AllIds(up) <= AllIds(rows[..l])
    requires forall j | 0 <= j < |rows'[l]| ::
               DropIndex(p, j) < |rows[l]| && rows'[l][j].node == rows[l][DropIndex(p, j)].node
    ensures Distinct(rows')
  {
    forall a, i, b, j | 0 <= a < |rows'| && 0 <= i < |rows'[a]| && 0 <= b < |rows'| && 0 <= j < |rows'[b]|
        && NodeAt(rows', a, i) == NodeAt(rows', b, j)
      ensures a == b && i == j
    {
      if a < l && b < l {
        assert NodeAt(up, a, i) == NodeAt(up, b, j);
      } else if a == l && b == l {
        assert NodeAt(rows, l, DropIndex(p, i)) == NodeAt(rows, l, DropIndex(p, j));
      } else if a < l {
        CrossApart(up, rows, l, a, i, DropIndex(p, j));
      } else {
        CrossApart(up, rows, l, b, j, DropIndex(p, i));
      }
    }
  }

  lemma CrossApart(up: seq<Row>, rows: seq<Row>, l: nat, a: nat, i: nat, j: nat)
    requires |rows| == l + 1 && |up| == l && Distinct(rows) && AllIds(up) <= AllIds(rows[..l])
    requires a < l && i < |up[a]| && j < |rows[l]|
    ensures up[a][i].node != rows[l][j].node
  {
    hide Distinct;
    InAllIds(up, a, i);
    var m, k := FromAllIds(rows[..l], up[a][i].node);
    Apart(rows, m, k, l, j);
  }

  lemma DropTop(nodes: seq<NodeData>, cap: nat, rows: seq<Row>, p: nat, up: seq<Row>)
    requires |rows| >= 2 && Distinct(rows) && p < |Last(rows)| && Allocated(nodes, Last(rows))
    requires TopOK(nodes, cap, up) && |up| == |rows| - 1 && AllIds(up) <= AllIds(rows[..|rows| - 1])
    requires RowOK(nodes, cap, false, Last(up), -1) && Flat(nodes, Last(up)) == DropSlot(Last(rows), p)
    ensures TopOK(nodes, cap, up + [DropSlot(Last(rows), p)])
  {
    hide Flat, RowOK, Distinct, AllIds, DropSlot;
    var row' := DropSlot(Last(rows), p);
    var rows' := up + [row'];
    forall l | 0 <= l < |rows'| - 1 ensures Linked(nodes, cap, rows', l) {
      if l < |up| - 1 {
        assert Linked(nodes, cap, up, l);
      }
    }
    forall j | 0 <= j < |row'| ensures row'[j].node < |nodes| {
      DropAt(Last(rows), p, j);
    }
    DropDistinct(rows, p, up);
  }

  /** A node `n` of the last row `i` goes, and the rows above change from `u` to `u'`. */
  lemma OwnedDrop(a: seq<NodeData>, b: seq<NodeData>, c: seq<NodeData>, u: set<Node>, u': set<Node>, i: set<Node>,
      n: Node)
    requires |a| == |b| && n in i && u !! i && u' <= u
    requires (forall m | m in i :: m < |a| && !a[m].Free?) && (forall m | m in u :: m < |a| && !a[m].Free?)
    requires forall m | 0 <= m < |a| && m !in u && m != n :: b[m] == a[m]
    requires forall m | m in u :: !b[m].Free?
    requires b[n].Free? && Owned(b, c, u, u')
    ensures Owned(a, c, u + i, u' + (i - {n}))
    ensures forall m | m in i - {n} :: c[m] == a[m]
  {
    var s, t := u + i, u' + (i - {n});
    forall m | 0 <= m < |c|
      ensures !c[m].Free? <==> m in t || (m < |a| && !a[m].Free? && m !in s)
    {
      assert !c[m].Free? <==> m in u' || (m < |b| && !b[m].Free? && m !in u);
    }
  }
}
