/** How the steps of the path methods compose. */
module BforestSteps {
  import opened BforestNode
  import opened BforestShape
  import opened BforestPos
  import opened BforestHeal
  import opened BforestBalance

  /** What balancing items `p` and `p + 1` does to a row. */
  ghost predicate Shifted(nodes: seq<NodeData>, nodes': seq<NodeData>, cap: nat, row: Row, row': Row, p: nat,
      merged: bool) {
    && p + 1 < |row| && |row'| == |row| && row[p].node < |nodes| <= |nodes'| && row[p + 1].node < |nodes|
    && Unbalanced(nodes[row[p].node], nodes[row[p + 1].node], cap)
    && var b := Balance(nodes[row[p].node], row[p + 1].crit, nodes[row[p + 1].node], cap);
    && merged == b.critKey.None? && nodes'[row[p].node] == b.lhs && nodes'[row[p + 1].node] == b.rhs
    && (forall i | 0 <= i < |row| && i != p && i != p + 1 :: Kept(nodes, nodes', row[i].node))
    && (b.critKey.Some? ==> row' == SetItem(row, p + 1, b.critKey.value))
    && (b.critKey.None? && p > 0 ==> row' == SetItem(row, p + 1, row[p].crit))
    && (b.critKey.None? && p == 0 ==> row' == row)
  }

  ghost predicate Dropped(nodes: seq<NodeData>, nodes': seq<NodeData>, cap: nat, rows: seq<Row>, rows': seq<Row>,
      p: nat) {
    && rows != [] && |rows'| == |rows| && p < |Last(rows)| && TopOK(nodes', cap, rows') && rows'[0] == rows[0]
    && Last(rows') == DropSlot(Last(rows), p)
    && AllIds(rows') <= AllIds(rows) && Owned(nodes, nodes', AllIds(rows), AllIds(rows'))
    && (forall i | 0 <= i < |Last(rows)| && i != p :: Kept(nodes, nodes', Last(rows)[i].node))
  }

  /** Only keys of the inner node `n` differ. */
  ghost predicate KeyChanged(nodes: seq<NodeData>, nodes': seq<NodeData>, n: Node) {
    && n < |nodes| == |nodes'| && nodes[n].Inner? && nodes'[n].Inner?
    && nodes'[n].tree == nodes[n].tree && |nodes'[n].keys| == |nodes[n].keys|
    && nodes' == nodes[n := nodes'[n]]
  }

  /** Changing keys only, a path stays where it is. */
  lemma KeysOnPath(nodes: seq<NodeData>, nodes': seq<NodeData>, cap: nat, rows: seq<Row>, rows': seq<Row>,
      node: seq<Node>, entry: seq<nat>, pos: seq<nat>, level: nat, n: Node)
    requires OnPath(nodes, rows, node, entry, pos, level) && KeyChanged(nodes, nodes', n)
    requires |rows'| == |rows| && forall l | 0 <= l <= level :: SameNodes(rows[l], rows'[l])
    ensures OnPath(nodes', rows', node, entry, pos, level)
  {
    hide Flat, Off, Exp;
    forall l | 0 <= l <= level
      ensures pos[l] < |rows'[l]| && rows'[l][pos[l]].node == node[l]
    {
      assert SameNodes(rows[l], rows'[l]);
    }
    forall l | 0 <= l < level
      ensures StepDown(nodes', rows', entry, pos, l)
    {
      assert StepDown(nodes, rows, entry, pos, l) && SameNodes(rows[l], rows'[l]);
      KeysOff(nodes, nodes', rows[l], rows'[l], pos[l], n);
    }
  }

  lemma KeysOff(nodes: seq<NodeData>, nodes': seq<NodeData>, row: Row, row': Row, p: nat, n: Node)
    requires KeyChanged(nodes, nodes', n) && SameNodes(row, row') && p < |row|
    ensures Off(nodes', row', p) == Off(nodes, row, p)
    ensures |Exp(nodes', row'[p])| == |Exp(nodes, row[p])|
  {
    SizeOff(nodes, nodes', row[..p], row'[..p]);
  }

  lemma {:induction false} SizeOff(nodes: seq<NodeData>, nodes': seq<NodeData>, row: Row, row': Row)
    requires |row'| == |row| && forall i | 0 <= i < |row| :: |Exp(nodes, row[i])| == |Exp(nodes', row'[i])|
    ensures |Flat(nodes', row')| == |Flat(nodes, row)|
  {
    if row != [] {
      SizeOff(nodes, nodes', row[..|row| - 1], row'[..|row| - 1]);
    }
  }

  /** The path after a move to the right sibling. */
  lemma NextOnPath(nodes: seq<NodeData>, cap: nat, rows: seq<Row>, node: seq<Node>, entry: seq<nat>, pos: seq<nat>,
      bl: nat, level: nat, q: seq<nat>, node': seq<Node>, entry': seq<nat>, pos': seq<nat>)
    requires TopOK(nodes, cap, rows) && OnPath(nodes, rows, node, entry, pos, level)
    requires bl < level && Branch(nodes, rows, pos[bl], bl, entry[bl] + 1, q, level)
    requires |node'| == |entry'| == |node| && |q| == level + 1 && |pos'| == level + 1
    requires forall l | 0 <= l <= bl :: node'[l] == node[l] && pos'[l] == pos[l]
    requires forall l | bl < l <= level :: node'[l] == rows[l][q[l]].node && pos'[l] == q[l]
    requires (forall l | 0 <= l < bl :: entry'[l] == entry[l]) && entry'[bl] == entry[bl] + 1
    requires forall l | bl < l < level :: entry'[l] == 0
    ensures OnPath(nodes, rows, node', entry', pos', level)
  {
    hide Flat, Off, Exp, TopOK;
    forall l | 0 <= l < level ensures StepDown(nodes, rows, entry', pos', l) {
      if l <= bl {
        assert StepDown(nodes, rows, entry, pos, l);
      } else {
        InnerSlots(nodes, cap, rows, l, q[l]);
        assert FirstStep(nodes, rows, q, l);
      }
    }
  }

  /** The nodes of a path above `level` are inner nodes, one slot per sub-tree. */
  lemma PathInner(nodes: seq<NodeData>, cap: nat, rows: seq<Row>, node: seq<Node>, entry: seq<nat>, pos: seq<nat>,
      level: nat)
    requires TopOK(nodes, cap, rows) && OnPath(nodes, rows, node, entry, pos, level)
    ensures forall l | 0 <= l < level ::
              && node[l] < |nodes| && nodes[node[l]].Inner? && entry[l] < |nodes[node[l]].tree| ==
                  |nodes[node[l]].keys| + 1 <= INNER_SIZE
              && |Exp(nodes, rows[l][pos[l]])| == |nodes[node[l]].tree|
  {
    hide Flat, Off, Exp, RowOK, Distinct;
    forall l | 0 <= l < level
      ensures && node[l] < |nodes| && nodes[node[l]].Inner? && entry[l] < |nodes[node[l]].tree| ==
              |nodes[node[l]].keys| + 1 <= INNER_SIZE
              && |Exp(nodes, rows[l][pos[l]])| == |nodes[node[l]].tree|
    {
      InnerSlots(nodes, cap, rows, l, pos[l]);
      assert StepDown(nodes, rows, entry, pos, l);
    }
  }

  lemma RightIndices(nodes: seq<NodeData>, cap: nat, rows: seq<Row>, node: seq<Node>, entry: seq<nat>, pos: seq<nat>,
      bl: nat, level: nat) returns (q: seq<nat>)
    requires TopOK(nodes, cap, rows) && OnPath(nodes, rows, node, entry, pos, level) && bl < level
    requires node[bl] < |nodes| && nodes[node[bl]].Inner? && entry[bl] < |nodes[node[bl]].keys|
    requires forall l | bl < l < level ::
               node[l] < |nodes| && nodes[node[l]].Inner? && entry[l] >= |nodes[node[l]].keys|
    ensures q == Nexts(pos, level) && Branch(nodes, rows, pos[bl], bl, entry[bl] + 1, q, level)
  {
    PathInner(nodes, cap, rows, node, entry, pos, level);
    RightBranch(nodes, cap, rows, node, entry, pos, bl, level);
    q := Nexts(pos, level);
  }

  /** The top of a branch in its row. */
  lemma BranchNode(nodes: seq<NodeData>, cap: nat, rows: seq<Row>, p: nat, bl: nat, e: nat, q: seq<nat>, level: nat)
    requires TopOK(nodes, cap, rows) && Branch(nodes, rows, p, bl, e, q, level)
    ensures rows[bl][p].node < |nodes| && nodes[rows[bl][p].node].Inner? && e < |nodes[rows[bl][p].node].tree|
    ensures rows[bl + 1][q[bl + 1]].node == nodes[rows[bl][p].node].tree[e]
  {
    hide Flat, Off, Exp, TopOK;
    BranchChild(nodes, cap, rows, p, bl, e);
  }

  /** A branch never runs through the first item of a row. */
  lemma {:induction false} BranchPositive(nodes: seq<NodeData>, cap: nat, rows: seq<Row>, p: nat, bl: nat, e: nat,
      q: seq<nat>, level: nat)
    requires TopOK(nodes, cap, rows) && Branch(nodes, rows, p, bl, e, q, level)
    ensures q[level] > 0
    decreases level
  {
    hide Flat, Off, Exp, RowOK, Distinct;
    if level > bl + 1 {
      BranchPositive(nodes, cap, rows, p, bl, e, q, level - 1);
      assert FirstStep(nodes, rows, q, level - 1);
      InnerSlots(nodes, cap, rows, level - 1, 0);
      FlatSplit(nodes, rows[level - 1], 0);
      OffMonotone(nodes, rows[level - 1], 1, q[level - 1]);
    }
  }

  lemma TopDistinct(nodes: seq<NodeData>, cap: nat, rows: seq<Row>)
    requires TopOK(nodes, cap, rows)
    ensures Distinct(rows) && Allocated(nodes, Last(rows)) && |rows[0]| == 1
  {
  }

  lemma OwnedRoot(nodes: seq<NodeData>, nodes': seq<NodeData>, rows: seq<Row>)
    requires |rows| == 1 && |rows[0]| == 1 && rows[0][0].node < |nodes| && !nodes[rows[0][0].node].Free?
    requires |nodes'| == |nodes| && nodes' == nodes[rows[0][0].node := nodes'[rows[0][0].node]]
             && nodes'[rows[0][0].node].Free?
    ensures Owned(nodes, nodes', AllIds(rows), {})
  {
    assert rows[..0] == [];
    assert AllIds(rows) == {rows[0][0].node};
  }

  /** After the node at `level` left its parent, the parent row is ready to be healed. */
  lemma UnhookReady(nodes: seq<NodeData>, nodes': seq<NodeData>, cap: nat, rows: seq<Row>, node: seq<Node>,
      entry: seq<nat>, pos: seq<nat>, level: nat)
    requires 1 <= level < MAX_PATH && |rows| == level + 1 && TopOK(nodes, cap, rows)
             && OnPath(nodes, rows, node, entry, pos, level)
    requires Unhooked(nodes, nodes', rows, pos, entry[level - 1])
    requires |rows[1]| >= 2 && Droppable(rows[level], pos[level])
    ensures Healing(nodes', cap, false, rows[..level], node, entry, pos, level - 1)
    ensures Flat(nodes', rows[level - 1]) == DropSlot(rows[level], pos[level])
    ensures Target(nodes', rows[..level], entry, pos, level - 1) == pos[level]
    ensures level == 1 ==> Slots(nodes'[node[0]]) > 0
  {
    hide Flat, Off, Exp, RowOK, TopOK, StepDown, DropSlot, Droppable;
    var pl := level - 1;
    UnhookFlat(nodes, nodes', cap, rows, node, entry, pos);
    UnhookTop(nodes, nodes', cap, rows, node, entry, pos);
    PathInner(nodes, cap, rows, node, entry, pos, level);
    SingleIsLast(nodes, cap, rows, pl, pos[pl]);
    assert StepDown(nodes, rows, entry, pos, pl);
    TargetIs(nodes, rows, entry, pos, pl);
    if level == 1 {
      RootSlots(nodes, cap, rows);
    }
  }

  lemma TargetIs(nodes: seq<NodeData>, rows: seq<Row>, entry: seq<nat>, pos: seq<nat>, l: nat)
    requires l < |rows| && l < |entry| && l + 1 < |pos| && StepDown(nodes, rows, entry, pos, l)
    ensures pos[l + 1] == Off(nodes, rows[l], pos[l]) + entry[l]
  {
  }

  /** The sub-trees of the root make up the second row. */
  lemma RootSlots(nodes: seq<NodeData>, cap: nat, rows: seq<Row>)
    requires TopOK(nodes, cap, rows) && |rows| >= 2
    ensures rows[0][0].node < |nodes| && Slots(nodes[rows[0][0].node]) == |rows[1]|
  {
    InnerSlots(nodes, cap, rows, 0, 0);
    assert Linked(nodes, cap, rows, 0);
    assert rows[0] == [rows[0][0]];
    FlatSingle(nodes, rows[0][0]);
  }

  lemma DropNext(row: Row, p: nat)
    requires p < |row|
    ensures p < |DropSlot(row, p)| <==> p + 1 < |row|
    ensures p + 1 < |row| ==> DropSlot(row, p)[p].node == row[p + 1].node
  {
  }

  /** The rows above healed, the row without node `p` and the pool accounting. */
  lemma DropJoin(nodes: seq<NodeData>, nodes2: seq<NodeData>, nodes3: seq<NodeData>, cap: nat, rows: seq<Row>,
      up: seq<Row>, p: nat, q: nat)
    requires |rows| >= 2 && TopOK(nodes, cap, rows) && p < |Last(rows)| && |nodes2| == |nodes|
    requires forall n | n in AllIds(rows) :: n < |nodes| && !nodes[n].Free?
    requires q < |rows[|rows| - 2]| && rows[|rows| - 2][q].node < |nodes| && !nodes2[rows[|rows| - 2][q].node].Free?
    requires forall n | 0 <= n < |nodes| && n != rows[|rows| - 2][q].node
             && n != Last(rows)[p].node :: nodes2[n] == nodes[n]
    requires Last(rows)[p].node < |nodes2| && nodes2[Last(rows)[p].node].Free?
    requires Flat(nodes2, rows[|rows| - 2]) == DropSlot(Last(rows), p)
    requires Healed(nodes2, nodes3, cap, false, rows[..|rows| - 1], up)
    ensures Dropped(nodes, nodes3, cap, rows, up + [DropSlot(Last(rows), p)], p)
  {
    hide Flat, RowOK, TopOK, Owned, Distinct, DropSlot;
    TopDistinct(nodes, cap, rows);
    var u, u', i, n := AllIds(rows[..|rows| - 1]), AllIds(up), Ids(Last(rows)), Last(rows)[p].node;
    var rows' := up + [DropSlot(Last(rows), p)];
    UpApart(rows);
    assert AllIds(rows) == u + i;
    assert forall m | m in u :: m in AllIds(rows);
    assert forall m | m in i :: m in AllIds(rows);
    InAllIds(rows[..|rows| - 1], |rows| - 2, q);
    assert n in i;
    OwnedDrop(nodes, nodes2, nodes3, u, u', i, n);
    DropIds(rows, p);
    assert rows'[..|rows'| - 1] == up;
    assert AllIds(rows') == u' + (i - {n});
    LengthKept(nodes2, nodes3, u, u');
    DropTop(nodes3, cap, rows, p, up);
    forall k | 0 <= k < |Last(rows)| && k != p ensures Kept(nodes, nodes3, Last(rows)[k].node) {
      Apart(rows, |rows| - 1, k, |rows| - 1, p);
      assert Last(rows)[k].node in i;
    }
  }

  lemma LengthKept(nodes: seq<NodeData>, nodes': seq<NodeData>, u: set<Node>, u': set<Node>)
    requires Owned(nodes, nodes', u, u')
    ensures |nodes| <= |nodes'|
  {
  }

  lemma UpApart(rows: seq<Row>)
    requires rows != [] && Distinct(rows)
    ensures AllIds(rows[..|rows| - 1]) !! Ids(Last(rows))
  {
    hide Distinct;
    forall n | n in AllIds(rows[..|rows| - 1]) && n in Ids(Last(rows)) ensures false {
      var l, i := FromAllIds(rows[..|rows| - 1], n);
      var j :| 0 <= j < |Last(rows)| && Last(rows)[j].node == n;
      Apart(rows, l, i, |rows| - 1, j);
    }
  }

  lemma JoinPath(nodes: seq<NodeData>, up: seq<Row>, rows: seq<Row>, node: seq<Node>, entry: seq<nat>, posUp: seq<nat>,
      pos: seq<nat>, level: nat)
    requires 1 <= level && |rows| == level + 1 && up == rows[..level]
             && OnPath(nodes, up, node, entry, posUp, level - 1) && level < |node|
    requires |pos| == level + 1 && pos == posUp[..level] + [pos[level]]
    requires pos[level] < |rows[level]| && rows[level][pos[level]].node == node[level]
    requires entry[level - 1] < |Exp(nodes, up[level - 1][posUp[level - 1]])|
             && Target(nodes, up, entry, posUp, level - 1) == pos[level]
    ensures OnPath(nodes, rows, node, entry, pos, level)
  {
    hide Flat, Off, Exp;
    forall l | 0 <= l < level ensures StepDown(nodes, rows, entry, pos, l) {
      if l < level - 1 {
        assert StepDown(nodes, up, entry, posUp, l);
      }
    }
  }

  lemma RowFirst(nodes: seq<NodeData>, cap: nat, leaf: bool, row: Row, i: nat)
    requires i < |row| && RowOK(nodes, cap, leaf, row, -1)
    ensures |Exp(nodes, row[i])| > 0
  {
    assert ItemOK(nodes, cap, leaf, row, i) && Occupied(nodes, cap, row, i);
    ExpSize(nodes, cap, leaf, row, i);
  }

  lemma LiveRow(nodes: seq<NodeData>, cap: nat, leaf: bool, row: Row, skip: int)
    requires RowOK(nodes, cap, leaf, row, skip)
    ensures forall i | 0 <= i < |row| :: ItemOK(nodes, cap, leaf, row, i)
  {
  }

  /** The key written for a sibling lies above the row. */
  lemma CritKeyKept(nodes: seq<NodeData>, nodes': seq<NodeData>, cap: nat, rows: seq<Row>, rows': seq<Row>,
      node: seq<Node>, entry: seq<nat>, pos: seq<nat>, bl: nat, ck: Key, level: nat)
    requires TopOK(nodes, cap, rows) && OnPath(nodes, rows, node, entry, pos, level) && |rows| == level + 1
    requires bl < level && KeyChanged(nodes, nodes', node[bl])
    requires (forall j | bl < j <= level :: pos[j] + 1 < |rows[j]|) && rows' ==
             SetCrits(rows, Nexts(pos, level), bl, ck)
    ensures forall i | 0 <= i < |rows[level]| :: Kept(nodes, nodes', rows[level][i].node)
    ensures rows'[level] == SetItem(rows[level], pos[level] + 1, ck) && rows'[0] == rows[0]
    ensures AllIds(rows') == AllIds(rows) && node[bl] in AllIds(rows)
    ensures |rows'| == |rows| && forall l | 0 <= l < |rows| :: |rows'[l]| == |rows[l]|
  {
    hide Flat, RowOK, Distinct, StepDown, AllIds;
    TopDistinct(nodes, cap, rows);
    forall i | 0 <= i < |rows[level]| ensures Kept(nodes, nodes', rows[level][i].node) {
      Apart(rows, level, i, bl, pos[bl]);
    }
    SameIds(rows, rows');
    InAllIds(rows, bl, pos[bl]);
  }

  lemma HealingUnderflowed(nodes: seq<NodeData>, cap: nat, leaf: bool, rows: seq<Row>, node: seq<Node>,
      entry: seq<nat>, pos: seq<nat>, level: nat)
    requires Healing(nodes, cap, leaf, rows, node, entry, pos, level) && pos[level] + 1 < |rows[level]|
    requires 0 < Slots(nodes[node[level]]) && !HalfFull(nodes[node[level]], cap)
    ensures Underflowed(nodes, cap, leaf, rows[level], pos[level])
  {
    hide Flat, RowOK, Distinct;
    var row := rows[level];
    forall i, j | 0 <= i < j < |row| ensures row[i].node != row[j].node {
      Apart(rows, level, i, level, j);
    }
  }

  lemma OwnedWithin(nodes: seq<NodeData>, nodes': seq<NodeData>, ids: set<Node>)
    requires |nodes'| == |nodes| && forall n | n in ids :: n < |nodes| && !nodes[n].Free? && !nodes'[n].Free?
    requires forall n | 0 <= n < |nodes| && n !in ids :: nodes'[n] == nodes[n]
    ensures Owned(nodes, nodes', ids, ids)
  {
  }

  lemma ShiftedReady(nodes: seq<NodeData>, nodes': seq<NodeData>, cap: nat, rows: seq<Row>, rows': seq<Row>, p: nat)
    requires rows != [] && |rows'| == |rows| && Shifted(nodes, nodes', cap, Last(rows), Last(rows'), p, true)
    requires AllIds(rows') == AllIds(rows) && Owned(nodes, nodes', AllIds(rows), AllIds(rows))
    requires forall n | n in AllIds(rows) :: n < |nodes| && !nodes[n].Free?
    ensures forall n | n in AllIds(rows') :: n < |nodes'| && !nodes'[n].Free?
    ensures Droppable(Last(rows'), p)
  {
    hide AllIds, Balance;
  }

  lemma SpreadDone(nodes: seq<NodeData>, nodes': seq<NodeData>, cap: nat, leaf: bool, rows: seq<Row>, rows': seq<Row>,
      node: seq<Node>, entry: seq<nat>, pos: seq<nat>, level: nat, size: nat)
    requires Healing(nodes, cap, leaf, rows, node, entry, pos, level)
             && Underflowed(nodes, cap, leaf, rows[level], pos[level])
    requires |rows'| == |rows| && rows'[0] == rows[0] && AllIds(rows') == AllIds(rows)
             && Owned(nodes, nodes', AllIds(rows), AllIds(rows))
    requires TopOK(nodes', cap, rows') && OnPath(nodes', rows', node, entry, pos, level)
    requires Shifted(nodes, nodes', cap, rows[level], rows'[level], pos[level], false)
    ensures Healed(nodes, nodes', cap, leaf, rows, rows')
    ensures Landed(nodes', rows', node, entry, pos, level, Target(nodes, rows, entry, pos, level), size, size)
  {
    hide Flat, Off, Exp, RowOK, TopOK, AllIds, Owned, StepDown, Balance;
    var row, row', p := rows[level], rows'[level], pos[level];
    assert Spread(nodes, nodes', cap, leaf, row, row', p);
    SpreadFlat(nodes, nodes', cap, leaf, row, row', p);
    SpreadRow(nodes, nodes', cap, leaf, row, row', p);
    LiveRow(nodes, cap, leaf, row, p);
    ExpSize(nodes, cap, leaf, row, p);
    FlatAt(nodes', row', p, entry[level]);
  }

  lemma MergedDone(nodes: seq<NodeData>, nodes2: seq<NodeData>, nodes': seq<NodeData>, cap: nat, leaf: bool,
      rows: seq<Row>, rows1: seq<Row>, rows': seq<Row>,
      node: seq<Node>, entry: seq<nat>, pos: seq<nat>, node': seq<Node>, entry': seq<nat>, pos': seq<nat>,
      level: nat, size: nat)
    requires Healing(nodes, cap, leaf, rows, node, entry, pos, level)
             && Underflowed(nodes, cap, leaf, rows[level], pos[level])
    requires |rows1| == |rows| && rows1[0] == rows[0] && AllIds(rows1) == AllIds(rows)
             && Owned(nodes, nodes2, AllIds(rows), AllIds(rows))
    requires Shifted(nodes, nodes2, cap, rows[level], rows1[level], pos[level], true)
    requires Dropped(nodes2, nodes', cap, rows1, rows', pos[level])
    requires pos[level] < |rows'[level]| ==>
               OnPath(nodes', rows', node', entry', pos', level) && pos'[level] == pos[level] && entry'[level] ==
                   entry[level]
    ensures pos[level] < |rows'[level]|
    ensures Healed(nodes, nodes', cap, leaf, rows, rows')
    ensures Landed(nodes', rows', node', entry', pos', level, Target(nodes, rows, entry, pos, level), size, size)
  {
    hide Flat, Off, Exp, RowOK, TopOK, AllIds, Owned, StepDown, Balance;
    var row, row', p := rows[level], rows'[level], pos[level];
    MergedRows(nodes, nodes2, nodes', cap, leaf, row, rows1[level], row', p);
    MergedFlat(nodes, nodes', cap, leaf, row, row', p);
    MergedRow(nodes, nodes', cap, leaf, row, row', p);
    OwnedTransitive(nodes, nodes2, nodes', AllIds(rows), AllIds(rows), AllIds(rows'));
    LiveRow(nodes, cap, leaf, row, p);
    ExpSize(nodes, cap, leaf, row, p);
    FlatAt(nodes', row', p, entry[level]);
  }

  lemma MergedRows(nodes: seq<NodeData>, nodes2: seq<NodeData>, nodes': seq<NodeData>, cap: nat, leaf: bool, row: Row,
      row1: Row, row': Row, p: nat)
    requires Underflowed(nodes, cap, leaf, row, p) && Shifted(nodes, nodes2, cap, row, row1, p, true)
    requires p < |row1| && row' == DropSlot(row1, p) && |nodes| <= |nodes2| <= |nodes'|
    requires forall i | 0 <= i < |row1| && i != p :: Kept(nodes2, nodes', row1[i].node)
    ensures Merged(nodes, nodes', cap, leaf, row, row', p) && p < |row'|
  {
    hide RowOK, Balance;
    assert row1[p + 1].node == row[p + 1].node && Kept(nodes2, nodes', row1[p + 1].node);
    forall i | 0 <= i < |row| && i != p && i != p + 1 ensures Kept(nodes, nodes', row[i].node) {
      assert Kept(nodes, nodes2, row[i].node) && row1[i] == row[i] && Kept(nodes2, nodes', row1[i].node);
    }
    assert row' == row[..p] + [Item(row[p].crit, row[p + 1].node)] + row[p + 2..];
  }

  /** Balancing changed two nodes of the last row, and possibly keys of one node above it. */
  lemma BalanceRightDone(n0: seq<NodeData>, n2: seq<NodeData>, n3: seq<NodeData>, cap: nat, leaf: bool, rows: seq<Row>,
      rows': seq<Row>, p: nat, keyed: bool)
    requires rows != [] && TopOK(n0, cap, rows) && Underflowed(n0, cap, leaf, Last(rows), p) && |rows'| == |rows|
    requires var row := Last(rows);
             && row[p].node < |n0| && row[p + 1].node < |n0| && |n0| == |n2| == |n3|
             && Unbalanced(n0[row[p].node], n0[row[p + 1].node], cap)
             && var b := Balance(n0[row[p].node], row[p + 1].crit, n0[row[p + 1].node], cap);
             && n2 == n0[row[p].node := b.lhs][row[p + 1].node := b.rhs]
             && (!keyed ==> n3 == n2 && rows' == rows && p == 0 && b.critKey.None?)
             && (keyed && b.critKey.None? ==> p > 0)
             && (keyed ==> (exists n | n in AllIds(rows) :: KeyChanged(n2, n3, n)))
             && (keyed ==> forall i | 0 <= i < |row| :: Kept(n2, n3, row[i].node))
             && (keyed ==> Last(rows') == SetItem(row, p + 1, if b.critKey.Some? then b.critKey.value else row[p].crit))
    ensures Owned(n0, n3, AllIds(rows), AllIds(rows))
    ensures Shifted(n0, n3, cap, Last(rows), Last(rows'), p,
            Balance(n0[Last(rows)[p].node], Last(rows)[p + 1].crit, n0[Last(rows)[p + 1].node], cap).critKey.None?)
  {
    hide Flat, RowOK, TopOK, AllIds, Balance, Expand;
    var row := Last(rows);
    LiveRow(n0, cap, leaf, row, p);
    OwnedSame(n0, cap, leaf, rows);
    InAllIds(rows, |rows| - 1, p);
    InAllIds(rows, |rows| - 1, p + 1);
    OwnedWithin(n0, n3, AllIds(rows));
    forall i | 0 <= i < |row| && i != p && i != p + 1 ensures Kept(n0, n3, row[i].node) {
      assert ItemOK(n0, cap, leaf, row, i);
      assert keyed ==> Kept(n2, n3, row[i].node);
    }
    assert keyed ==> Kept(n2, n3, row[p].node) && Kept(n2, n3, row[p + 1].node);
  }
}
