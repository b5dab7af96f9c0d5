/** Removing an entry: the leaf it is taken from, and the root that may be left with one sub-tree. */
module BforestRemove {
  import opened BforestNode
  import opened BforestShape
  import opened BforestPos
  import opened BforestHeal
  import opened BforestBalance
  import opened BforestSteps

  // ----- the leaf -----

  lemma RemoveMiddle(a: Row, b: Row, c: Row, e: nat)
    requires e < |b|
    ensures a + RemoveAt(b, e) + c == RemoveAt(a + b + c, |a| + e)
  {
    assert (a + b + c)[..|a| + e] == a + b[..e];
    assert (a + b + c)[|a| + e + 1..] == b[e + 1..] + c;
  }

  /** Taking entry `e` from leaf `p` takes it from the entries of the tree. */
  lemma LeafRemoveFlat(nodes: seq<NodeData>, nodes': seq<NodeData>, cap: nat, rows: seq<Row>, p: nat, e: nat)
    requires TreeOK(nodes, cap, rows) && p < |Last(rows)|
    requires var n := Last(rows)[p].node;
             n < |nodes| && nodes[n].Leaf? && WellFormed(nodes[n], cap) && e < |nodes[n].vals| && nodes' ==
                 nodes[n := LeafRemove(nodes[n], cap, e)]
    ensures Off(nodes, Last(rows), p) + e < |Content(nodes, rows)|
    ensures Flat(nodes', Last(rows)) == RemoveAt(Content(nodes, rows), Off(nodes, Last(rows), p) + e)
    ensures Off(nodes', Last(rows), p) == Off(nodes, Last(rows), p)
  {
    hide Flat, RowOK, Distinct, Expand, LeafRemove;
    var row, l := Last(rows), |rows| - 1;
    assert ItemOK(nodes, cap, true, row, p) by { LiveRow(nodes, cap, true, row, -1); }
    ExpSize(nodes, cap, true, row, p);
    FlatSplit(nodes, row, p);
    forall i | 0 <= i < |row| && i != p ensures Exp(nodes, row[i]) == Exp(nodes', row[i]) {
      Apart(rows, l, i, l, p);
    }
    FlatReplace(nodes, nodes', row, row, p);
    assert Exp(nodes', row[p]) == RemoveAt(Exp(nodes, row[p]), e);
    RemoveMiddle(Flat(nodes, row[..p]), Exp(nodes, row[p]), Flat(nodes, row[p + 1..]), e);
  }

  /** Removing an entry keeps the order. */
  lemma RemoveAscending(s: Row, i: nat)
    requires i < |s| && Ascending(s)
    ensures Ascending(RemoveAt(s, i))
  {
    var t := RemoveAt(s, i);
    forall j, k | 0 <= j < k < |t| ensures t[j].crit < t[k].crit {
      assert t[j] == s[DropIndex(i, j)] && t[k] == s[DropIndex(i, k)];
    }
  }

  /** The state after the entry was taken out and the critical key of the leaf was set right. */
  ghost predicate LeafShrunk(nodes: seq<NodeData>, nodes1: seq<NodeData>, nodes2: seq<NodeData>, cap: nat,
      rows: seq<Row>, rows2: seq<Row>, node: seq<Node>, entry: seq<nat>, pos: seq<nat>, bl: nat) {
    && TreeOK(nodes, cap, rows) && 1 <= |rows| <= MAX_PATH && OnPath(nodes, rows, node, entry, pos, |rows| - 1)
    && var l := |rows| - 1;
    && var n, e := node[l], entry[l];
    && n < |nodes| && nodes[n].Leaf? && WellFormed(nodes[n], cap) && e < |nodes[n].vals|
    && nodes1 == nodes[n := LeafRemove(nodes[n], cap, e)]
    && TopOK(nodes2, cap, rows2) && OnPath(nodes2, rows2, node, entry, pos, l) && |rows2| == |rows|
    && if e == 0 && |nodes1[n].keys| > 0 && pos[l] > 0 then
         && bl < l && KeyChanged(nodes1, nodes2, node[bl])
         && |pos| >= |rows| && rows2 == SetCrits(rows, pos, bl, nodes1[n].keys[0])
       else
         nodes2 == nodes1 && rows2 == rows
  }

  /** The status says how full leaf `n` is after entry `e` was removed. */
  ghost predicate LeafStatus(nodes: seq<NodeData>, cap: nat, n: Node, e: nat, status: Removed) {
    n < |nodes| && status == RemovedStatus(e, Slots(nodes[n]), Capacity(nodes[n], cap))
  }

  lemma ShrunkKept(nodes: seq<NodeData>, nodes1: seq<NodeData>, nodes2: seq<NodeData>, cap: nat, rows: seq<Row>,
      rows2: seq<Row>, node: seq<Node>, entry: seq<nat>, pos: seq<nat>, bl: nat)
    requires LeafShrunk(nodes, nodes1, nodes2, cap, rows, rows2, node, entry, pos, bl)
    ensures |Last(rows2)| == |Last(rows)|
    ensures forall i | 0 <= i < |Last(rows)| ::
              Kept(nodes1, nodes2, Last(rows)[i].node) && Last(rows2)[i].node == Last(rows)[i].node
    ensures forall i | 0 <= i < |Last(rows)| && i != pos[|rows| - 1] :: Last(rows2)[i] == Last(rows)[i]
  {
    hide Flat, RowOK, TopOK, TreeOK, Distinct, StepDown, LeafRemove, Allocated, SetCrits;
    var l := |rows| - 1;
    TreeParts(nodes, cap, rows);
    TopDistinct(nodes, cap, rows);
    assert Allocated(nodes1, Last(rows)) by { SameAllocated(nodes, nodes1, Last(rows)); }
    if entry[l] == 0 && |nodes1[node[l]].keys| > 0 && pos[l] > 0 {
      LastRowKept(nodes1, nodes2, rows, pos, bl, nodes1[node[l]].keys[0], pos[bl]);
    } else {
      SameKept(nodes1, Last(rows));
    }
  }

  lemma SameAllocated(nodes: seq<NodeData>, nodes': seq<NodeData>, row: Row)
    requires |nodes'| == |nodes| && Allocated(nodes, row)
    ensures Allocated(nodes', row)
  {
  }

  lemma SameKept(nodes: seq<NodeData>, row: Row)
    requires Allocated(nodes, row)
    ensures forall i | 0 <= i < |row| :: Kept(nodes, nodes, row[i].node)
  {
  }

  /** A critical key written above the last row changes one item of it, and none of its nodes. */
  /** The same unchanged nodes, with the same critical keys except at `p`. */
  ghost predicate NodesKept(nodes: seq<NodeData>, nodes': seq<NodeData>, row: Row, row': Row, p: nat) {
    && |row'| == |row|
    && (forall i | 0 <= i < |row| :: Kept(nodes, nodes', row[i].node) && row'[i].node == row[i].node)
    && (forall i | 0 <= i < |row| && i != p :: row'[i] == row[i])
  }

  lemma LastRowKept(nodes: seq<NodeData>, nodes': seq<NodeData>, rows: seq<Row>, q: seq<nat>, bl: nat, ck: Key, p: nat)
    requires rows != [] && Distinct(rows) && Allocated(nodes, Last(rows)) && bl < |rows| - 1 && p < |rows[bl]|
    requires |rows| <= |q| && forall j | bl < j < |rows| :: q[j] < |rows[j]|
    requires KeyChanged(nodes, nodes', rows[bl][p].node)
    ensures NodesKept(nodes, nodes', Last(rows), Last(SetCrits(rows, q, bl, ck)), q[|rows| - 1])
  {
    hide Distinct, SetCrits;
    var l := |rows| - 1;
    var row, row' := rows[l], SetCrits(rows, q, bl, ck)[l];
    assert row' == SetItem(row, q[l], ck);
    forall i | 0 <= i < |row| ensures Kept(nodes, nodes', row[i].node) {
      Apart(rows, l, i, bl, p);
    }
  }

  lemma ShrunkOwned(nodes: seq<NodeData>, nodes1: seq<NodeData>, nodes2: seq<NodeData>, cap: nat, rows: seq<Row>,
      rows2: seq<Row>, node: seq<Node>, entry: seq<nat>, pos: seq<nat>, bl: nat)
    requires LeafShrunk(nodes, nodes1, nodes2, cap, rows, rows2, node, entry, pos, bl)
    ensures rows2[0] == rows[0] && AllIds(rows2) == AllIds(rows)
    ensures |rows| > 1 ==> |rows2[1]| == |rows[1]|
    ensures Owned(nodes, nodes2, AllIds(rows), AllIds(rows))
  {
    hide Flat, RowOK, TopOK, TreeOK, Distinct, StepDown, AllIds, LeafRemove;
    var l := |rows| - 1;
    TreeParts(nodes, cap, rows);
    LiveRow(nodes, cap, true, Last(rows), -1);
    OwnedSame(nodes, cap, true, rows);
    InAllIds(rows, l, pos[l]);
    if nodes2 != nodes1 {
      InAllIds(rows, bl, pos[bl]);
    }
    SameIds(rows, rows2);
    OwnedWithin(nodes, nodes2, AllIds(rows));
  }

  lemma TreeParts(nodes: seq<NodeData>, cap: nat, rows: seq<Row>)
    requires TreeOK(nodes, cap, rows)
    ensures TopOK(nodes, cap, rows) && RowOK(nodes, cap, true, Last(rows), -1) && LeafCapacity(cap)
    ensures |rows| >= 1 && |rows[0]| == 1
  {
  }

  lemma TreeRoot(nodes: seq<NodeData>, cap: nat, rows: seq<Row>)
    requires TreeOK(nodes, cap, rows)
    ensures |rows| > 1 ==> |rows[1]| >= 2
  {
  }

  lemma ShrunkExp(nodes: seq<NodeData>, nodes1: seq<NodeData>, nodes2: seq<NodeData>, cap: nat, rows: seq<Row>,
      rows2: seq<Row>, node: seq<Node>, entry: seq<nat>, pos: seq<nat>, bl: nat)
    requires LeafShrunk(nodes, nodes1, nodes2, cap, rows, rows2, node, entry, pos, bl)
    ensures |Last(rows2)| == |Last(rows)|
    ensures forall i | 0 <= i < |Last(rows)| :: Exp(nodes1, Last(rows)[i]) == Exp(nodes2, Last(rows2)[i])
  {
    hide Flat, Off, Exp, RowOK, TopOK, TreeOK, Distinct, StepDown, LeafRemove, SetCrits, KeyChanged;
    var row, row2 := Last(rows), Last(rows2);
    ShrunkKept(nodes, nodes1, nodes2, cap, rows, rows2, node, entry, pos, bl);
    TreeParts(nodes, cap, rows);
    LiveRow(nodes, cap, true, row, -1);
    forall i | 0 <= i < |row| ensures Exp(nodes1, row[i]) == Exp(nodes2, row2[i]) {
      assert Kept(nodes1, nodes2, row[i].node) && ItemOK(nodes, cap, true, row, i);
      LeafCritFree(nodes1, nodes2, row[i], row2[i]);
    }
  }

  /** The entry at the path is gone, and the path is at the same place. */
  ghost predicate EntryGone(nodes: seq<NodeData>, nodes2: seq<NodeData>, rows: seq<Row>, rows2: seq<Row>,
      entry: seq<nat>, pos: seq<nat>) {
    && 0 < |rows| == |rows2| && |rows| <= |pos| && |rows| <= |entry|
    && var l := |rows| - 1;
    && pos[l] <= |rows[l]| && pos[l] <= |rows2[l]| && Target(nodes, rows, entry, pos, l) < |Content(nodes, rows)|
    && Flat(nodes2, rows2[l]) == RemoveAt(Content(nodes, rows), Target(nodes, rows, entry, pos, l))
    && Target(nodes2, rows2, entry, pos, l) == Target(nodes, rows, entry, pos, l)
  }

  lemma ShrunkContent(nodes: seq<NodeData>, nodes1: seq<NodeData>, nodes2: seq<NodeData>, cap: nat, rows: seq<Row>,
      rows2: seq<Row>, node: seq<Node>, entry: seq<nat>, pos: seq<nat>, bl: nat)
    requires LeafShrunk(nodes, nodes1, nodes2, cap, rows, rows2, node, entry, pos, bl)
    ensures EntryGone(nodes, nodes2, rows, rows2, entry, pos)
  {
    hide Flat, Off, Exp, RowOK, TopOK, TreeOK, Distinct, StepDown, LeafRemove, SetCrits, KeyChanged, RemoveAt;
    var l := |rows| - 1;
    LeafRemoveFlat(nodes, nodes1, cap, rows, pos[l], entry[l]);
    ShrunkExp(nodes, nodes1, nodes2, cap, rows, rows2, node, entry, pos, bl);
    FlatSame(nodes1, nodes2, Last(rows), Last(rows2));
    SameOff(nodes1, nodes2, Last(rows), Last(rows2), pos[l]);
  }

  /** The entries of a leaf do not depend on its critical key. */
  lemma LeafCritFree(nodes: seq<NodeData>, nodes': seq<NodeData>, a: Item, b: Item)
    requires a.node == b.node && Kept(nodes, nodes', a.node) && nodes[a.node].Leaf?
    ensures Exp(nodes, a) == Exp(nodes', b)
  {
  }

  lemma SameOff(nodes: seq<NodeData>, nodes': seq<NodeData>, row: Row, row': Row, p: nat)
    requires |row'| == |row| && p <= |row| && forall i | 0 <= i < |row| :: Exp(nodes, row[i]) == Exp(nodes', row'[i])
    ensures Off(nodes', row', p) == Off(nodes, row, p)
  {
    FlatSame(nodes, nodes', row[..p], row'[..p]);
  }

  /** The leaf row is ready to be healed. */
  lemma ShrunkHealing(nodes: seq<NodeData>, nodes1: seq<NodeData>, nodes2: seq<NodeData>, cap: nat, rows: seq<Row>,
      rows2: seq<Row>, node: seq<Node>, entry: seq<nat>, pos: seq<nat>, bl: nat)
    requires LeafShrunk(nodes, nodes1, nodes2, cap, rows, rows2, node, entry, pos, bl)
    ensures Healing(nodes2, cap, true, rows2, node, entry, pos, |rows| - 1)
    ensures nodes2[node[|rows| - 1]] == nodes1[node[|rows| - 1]]
  {
    hide Flat, Off, TopOK, TreeOK, Distinct, StepDown, AllIds, Expand, Owned, SetCrits, KeyChanged;
    var l := |rows| - 1;
    var row, row2, p := Last(rows), Last(rows2), pos[l];
    ShrunkKept(nodes, nodes1, nodes2, cap, rows, rows2, node, entry, pos, bl);
    ShrunkOwned(nodes, nodes1, nodes2, cap, rows, rows2, node, entry, pos, bl);
    TreeParts(nodes, cap, rows);
    TopDistinct(nodes, cap, rows);
    TreeRoot(nodes, cap, rows);
    assert ItemOK(nodes, cap, true, row, p) && Occupied(nodes, cap, row, p);
    forall i | 0 <= i < |row2| ensures ItemOK(nodes2, cap, true, row2, i)
        && (i != p ==> Occupied(nodes2, cap, row2, i)) {
      assert ItemOK(nodes, cap, true, row, i) && Occupied(nodes, cap, row, i) && Kept(nodes1, nodes2, row[i].node);
      if i != p {
        Apart(rows, l, i, l, p);
      } else {
        ShrunkItem(nodes, nodes1, nodes2, cap, rows, rows2, node, entry, pos, bl);
      }
    }
    assert Kept(nodes1, nodes2, row[p].node);
  }

  lemma ShrunkItem(nodes: seq<NodeData>, nodes1: seq<NodeData>, nodes2: seq<NodeData>, cap: nat, rows: seq<Row>,
      rows2: seq<Row>, node: seq<Node>, entry: seq<nat>, pos: seq<nat>, bl: nat)
    requires LeafShrunk(nodes, nodes1, nodes2, cap, rows, rows2, node, entry, pos, bl)
    ensures rows != [] && rows2 != [] && |rows| <= |pos| && pos[|rows| - 1] < |Last(rows2)|
    ensures ItemOK(nodes2, cap, true, Last(rows2), pos[|rows| - 1])
  {
    hide LeafShrunk, LeafRemove, RowOK, TreeOK;
    ShrunkKept(nodes, nodes1, nodes2, cap, rows, rows2, node, entry, pos, bl);
    ShrunkLeaf(nodes, nodes1, nodes2, cap, rows, rows2, node, entry, pos, bl);
    var l := |rows| - 1;
    var p := pos[l];
    assert Kept(nodes1, nodes2, Last(rows)[p].node);
    FirstKept(nodes[node[l]], cap, entry[l]);
  }

  /** The leaf at the path before and after, and its critical key. */
  ghost predicate LeafChange(nodes: seq<NodeData>, nodes1: seq<NodeData>, cap: nat, rows: seq<Row>, rows2: seq<Row>,
      node: seq<Node>, entry: seq<nat>, pos: seq<nat>) {
    && 0 < |rows| == |rows2| && |rows| <= |pos| && |rows| <= |node| && |rows| <= |entry|
    && var l := |rows| - 1;
    && var n, e, p := node[l], entry[l], pos[l];
    && p < |rows[l]| == |rows2[l]| && rows[l][p].node == n
    && n < |nodes| && nodes[n].Leaf? && WellFormed(nodes[n], cap) && e < |nodes[n].vals|
    && ItemOK(nodes, cap, true, rows[l], p) && nodes1 == nodes[n := LeafRemove(nodes[n], cap, e)]
    && rows2[l][p].crit ==
       if e == 0 && |nodes1[n].keys| > 0 && p > 0 then nodes1[n].keys[0] else rows[l][p].crit
  }

  lemma ShrunkLeaf(nodes: seq<NodeData>, nodes1: seq<NodeData>, nodes2: seq<NodeData>, cap: nat, rows: seq<Row>,
      rows2: seq<Row>, node: seq<Node>, entry: seq<nat>, pos: seq<nat>, bl: nat)
    requires LeafShrunk(nodes, nodes1, nodes2, cap, rows, rows2, node, entry, pos, bl)
    ensures LeafChange(nodes, nodes1, cap, rows, rows2, node, entry, pos)
  {
    hide Flat, Off, TopOK, Distinct, StepDown, AllIds, Expand, Owned, LeafRemove, SetCrits, KeyChanged;
    ShrunkKept(nodes, nodes1, nodes2, cap, rows, rows2, node, entry, pos, bl);
    TreeParts(nodes, cap, rows);
    assert ItemOK(nodes, cap, true, Last(rows), pos[|rows| - 1]);
  }

  /** Removing any other entry keeps the first key. */
  lemma FirstKept(d: NodeData, cap: nat, e: nat)
    requires d.Leaf? && WellFormed(d, cap) && e < |d.vals|
    ensures var r := LeafRemove(d, cap, e); e > 0 ==> r.keys != [] && r.keys[0] == d.keys[0]
  {
  }

  // ----- the root -----

  /** All nodes of the rows are as before. */
  ghost predicate AllKept(nodes: seq<NodeData>, nodes': seq<NodeData>, rows: seq<Row>) {
    forall l, i | 0 <= l < |rows| && 0 <= i < |rows[l]| :: Kept(nodes, nodes', rows[l][i].node)
  }

  /** A tree whose nodes are unchanged stays complete, with the same entries. */
  lemma KeptTree(nodes: seq<NodeData>, nodes': seq<NodeData>, cap: nat, rows: seq<Row>)
    requires TopOK(nodes, cap, rows) && RowOK(nodes, cap, true, Last(rows), -1) && AllKept(nodes, nodes', rows)
    ensures TopOK(nodes', cap, rows) && RowOK(nodes', cap, true, Last(rows), -1)
    ensures Content(nodes', rows) == Content(nodes, rows)
  {
    hide Flat, RowOK, Distinct;
    forall l | 0 <= l < |rows|
      ensures Flat(nodes', rows[l]) == Flat(nodes, rows[l])
      ensures l < |rows| - 1 ==> Linked(nodes', cap, rows, l)
      ensures l == |rows| - 1 ==> RowOK(nodes', cap, true, rows[l], -1) && Allocated(nodes', rows[l])
    {
      forall i | 0 <= i < |rows[l]| ensures Kept(nodes, nodes', rows[l][i].node) {}
      FlatUnchanged(nodes, nodes', rows[l]);
      if l < |rows| - 1 {
        assert Linked(nodes, cap, rows, l);
        RowUnchanged(nodes, nodes', cap, false, rows[l], -1);
      } else {
        RowUnchanged(nodes, nodes', cap, true, rows[l], -1);
      }
    }
  }

  lemma KeptPath(nodes: seq<NodeData>, nodes': seq<NodeData>, rows: seq<Row>, node: seq<Node>, entry: seq<nat>,
      pos: seq<nat>, level: nat)
    requires OnPath(nodes, rows, node, entry, pos, level) && AllKept(nodes, nodes', rows)
    ensures OnPath(nodes', rows, node, entry, pos, level)
    ensures Off(nodes', rows[level], pos[level]) == Off(nodes, rows[level], pos[level])
    ensures Exp(nodes', rows[level][pos[level]]) == Exp(nodes, rows[level][pos[level]])
  {
    hide Flat, Off, Exp;
    forall l | 0 <= l < level ensures StepDown(nodes', rows, entry, pos, l) {
      assert StepDown(nodes, rows, entry, pos, l);
      OffUnchanged(nodes, nodes', rows[l], pos[l]);
    }
    OffUnchanged(nodes, nodes', rows[level], pos[level]);
  }

  /** Dropping `ns` rows of a single node from the top leaves a tree. */
  lemma SuffixTop(nodes: seq<NodeData>, cap: nat, rows: seq<Row>, ns: nat)
    requires TopOK(nodes, cap, rows) && ns < |rows| && |rows[ns]| == 1
    ensures TopOK(nodes, cap, rows[ns..])
  {
    hide Flat, RowOK;
    var low: seq<Row> := rows[ns..];
    forall l | 0 <= l < |low| - 1 ensures Linked(nodes, cap, low, l) {
      assert Linked(nodes, cap, rows, l + ns);
    }
    forall l, i, m, j | 0 <= l < |low| && 0 <= i < |low[l]| && 0 <= m < |low| && 0 <= j < |low[m]|
        && NodeAt(low, l, i) == NodeAt(low, m, j)
      ensures l == m && i == j
    {
      assert NodeAt(rows, l + ns, i) == NodeAt(low, l, i) && NodeAt(rows, m + ns, j) == NodeAt(low, m, j);
    }
  }

  /** The part of a path below the dropped rows. */
  lemma SuffixPath(nodes: seq<NodeData>, rows: seq<Row>, node: seq<Node>, entry: seq<nat>, pos: seq<nat>, level: nat,
      ns: nat, node': seq<Node>, entry': seq<nat>)
    requires OnPath(nodes, rows, node, entry, pos, level) && ns <= level && |rows[ns]| == 1
    requires |node'| == |entry'| == |node|
             && forall l | 0 <= l <= level - ns :: node'[l] == node[l + ns] && entry'[l] == entry[l + ns]
    ensures OnPath(nodes, rows[ns..], node', entry', pos[ns..], level - ns)
  {
    hide Flat, Off, Exp;
    var low: seq<Row> := rows[ns..];
    var pos' := pos[ns..];
    forall l | 0 <= l <= level - ns ensures pos'[l] < |low[l]| && low[l][pos'[l]].node == node'[l] {
      assert pos[l + ns] < |rows[l + ns]|;
    }
    forall l | 0 <= l < level - ns ensures StepDown(nodes, low, entry', pos', l) {
      assert StepDown(nodes, rows, entry, pos, l + ns);
    }
  }

  lemma {:induction false} SplitIds(rows: seq<Row>, k: nat)
    requires k <= |rows|
    ensures AllIds(rows) == AllIds(rows[..k]) + AllIds(rows[k..])
  {
    if k < |rows| {
      SplitIds(rows[..|rows| - 1], k);
      assert rows[..|rows| - 1][..k] == rows[..k];
      assert rows[..|rows| - 1][k..] == rows[k..][..|rows| - k - 1];
    } else {
      assert rows[..k] == rows;
    }
  }

  /** An inner node without keys has one sub-tree, which is the whole next row. */
  lemma SingleRow(nodes: seq<NodeData>, cap: nat, rows: seq<Row>, l: nat)
    requires TopOK(nodes, cap, rows) && RowOK(nodes, cap, true, Last(rows), -1) && l < |rows| && |rows[l]| == 1
    ensures rows[l][0].node < |nodes| && !nodes[rows[l][0].node].Free?
    ensures nodes[rows[l][0].node].Inner? ==> l + 1 < |rows|
    ensures nodes[rows[l][0].node].Inner? ==> |rows[l + 1]| == |nodes[rows[l][0].node].keys| + 1
    ensures nodes[rows[l][0].node].Inner? && nodes[rows[l][0].node].keys == [] ==>
              |nodes[rows[l][0].node].tree| == 1 && rows[l + 1][0].node == nodes[rows[l][0].node].tree[0]
    ensures nodes[rows[l][0].node].Leaf? ==> l + 1 == |rows|
  {
    hide Distinct;
    if l < |rows| - 1 {
      assert Linked(nodes, cap, rows, l);
      InnerSlots(nodes, cap, rows, l, 0);
      assert rows[l] == [rows[l][0]];
      FlatSingle(nodes, rows[l][0]);
    } else {
      assert ItemOK(nodes, cap, true, Last(rows), 0);
    }
  }

  lemma UpperApart(rows: seq<Row>, ns: nat)
    requires Distinct(rows) && ns <= |rows|
    ensures AllIds(rows[..ns]) !! AllIds(rows[ns..])
  {
    hide Distinct, AllIds;
    forall n | n in AllIds(rows[..ns]) && n in AllIds(rows[ns..]) ensures false {
      var l, i := FromAllIds(rows[..ns], n);
      var m, j := FromAllIds(rows[ns..], n);
      Apart(rows, l, i, m + ns, j);
    }
  }

  /** After the nodes of the first `ns` rows were freed, the rows below form a tree. */
  lemma CollapseDone(nodes: seq<NodeData>, nodes': seq<NodeData>, cap: nat, rows: seq<Row>, ns: nat)
    requires TopOK(nodes, cap, rows) && RowOK(nodes, cap, true, Last(rows), -1) && Ascending(Content(nodes, rows))
    requires ns < |rows| && |rows[ns]| == 1 && |nodes'| == |nodes|
    requires forall n | n in AllIds(rows) :: n < |nodes| && !nodes[n].Free?
    requires forall n | 0 <= n < |nodes| && n !in AllIds(rows[..ns]) :: nodes'[n] == nodes[n]
    requires forall n | n in AllIds(rows[..ns]) :: n < |nodes| && nodes'[n].Free?
    requires rows[ns][0].node < |nodes| && nodes[rows[ns][0].node].Inner? ==> nodes[rows[ns][0].node].keys != []
    ensures TreeOK(nodes', cap, rows[ns..]) && Content(nodes', rows[ns..]) == Content(nodes, rows)
    ensures AllKept(nodes, nodes', rows[ns..])
    ensures AllIds(rows[ns..]) <= AllIds(rows) && Owned(nodes, nodes', AllIds(rows), AllIds(rows[ns..]))
  {
    hide Flat, RowOK, TopOK, Distinct, AllIds;
    var low: seq<Row> := rows[ns..];
    TopDistinct(nodes, cap, rows);
    UpperApart(rows, ns);
    SplitIds(rows, ns);
    SuffixTop(nodes, cap, rows, ns);
    forall l, i | 0 <= l < |low| && 0 <= i < |low[l]| ensures Kept(nodes, nodes', low[l][i].node) {
      InAllIds(low, l, i);
    }
    KeptTree(nodes, nodes', cap, low);
    SingleRow(nodes, cap, rows, ns);
    OwnedFreed(nodes, nodes', AllIds(rows[..ns]), AllIds(low));
  }

  lemma OwnedFreed(nodes: seq<NodeData>, nodes': seq<NodeData>, u: set<Node>, v: set<Node>)
    requires |nodes'| == |nodes| && u !! v
    requires (forall n | n in u :: n < |nodes| && nodes'[n].Free?)
             && (forall n | n in v :: n < |nodes| && !nodes[n].Free?)
    requires forall n | 0 <= n < |nodes| && n !in u :: nodes'[n] == nodes[n]
    ensures Owned(nodes, nodes', u + v, v)
  {
  }

  lemma ShiftAt<T>(s: seq<T>, n: nat)
    requires n <= |s|
    ensures |SliceShift(s, n)| == |s|
    ensures forall i | 0 <= i < |s| - n :: SliceShift(s, n)[i] == s[i + n]
  {
  }

  /** The single node of row `l` is none of the nodes above, and joins them. */
  lemma NextId(rows: seq<Row>, l: nat)
    requires Distinct(rows) && l < |rows| && |rows[l]| == 1
    ensures AllIds(rows[..l + 1]) == AllIds(rows[..l]) + {rows[l][0].node}
    ensures rows[l][0].node !in AllIds(rows[..l])
    ensures rows[l][0].node in AllIds(rows)
  {
    hide Distinct;
    var up := rows[..l + 1];
    assert up[..l] == rows[..l];
    assert Ids(rows[l]) == {rows[l][0].node};
    DistinctPrefix(rows, l + 1);
    UpApart(up);
    InAllIds(rows, l, 0);
  }

  lemma NoIds(rows: seq<Row>)
    requires rows == []
    ensures AllIds(rows) == {}
  {
  }

  /** In rows of one node a path has no choice. */
  lemma PathSingle(nodes: seq<NodeData>, rows: seq<Row>, node: seq<Node>, entry: seq<nat>, pos: seq<nat>, size: nat,
      ns: nat, node': seq<Node>)
    requires ns < |rows| && |node'| == |node|
    requires size > 0 ==> size == |rows| && OnPath(nodes, rows, node, entry, pos, size - 1)
    requires forall l | 0 <= l <= ns :: |rows[l]| == 1 && l < |node'| && node'[l] == rows[l][0].node
    requires forall l | ns < l < |node| :: node'[l] == node[l]
    ensures size > 0 ==> node' == node
  {
    hide StepDown;
  }

  /** The leaves of a tree. */
  lemma LeafAt(nodes: seq<NodeData>, cap: nat, rows: seq<Row>, p: nat)
    requires TreeOK(nodes, cap, rows) && p < |Last(rows)|
    ensures Last(rows)[p].node < |nodes| && nodes[Last(rows)[p].node].Leaf?
            && WellFormed(nodes[Last(rows)[p].node], cap)
    ensures |Exp(nodes, Last(rows)[p])| == |nodes[Last(rows)[p].node].vals|
    ensures TopOK(nodes, cap, rows)
  {
    assert ItemOK(nodes, cap, true, Last(rows), p);
    ExpSize(nodes, cap, true, Last(rows), p);
  }

  /** No row is shorter than the one above it. */
  lemma {:induction false} RowsGrow(nodes: seq<NodeData>, cap: nat, leaf: bool, row: Row)
    requires forall i | 0 <= i < |row| :: ItemOK(nodes, cap, leaf, row, i) && Slots(nodes[row[i].node]) > 0
    ensures |Flat(nodes, row)| >= |row|
  {
    if row != [] {
      var n := |row| - 1;
      forall i | 0 <= i < n ensures ItemOK(nodes, cap, leaf, row[..n], i) && Slots(nodes[row[..n][i].node]) > 0 {
        assert ItemOK(nodes, cap, leaf, row, i);
      }
      RowsGrow(nodes, cap, leaf, row[..n]);
      assert ItemOK(nodes, cap, leaf, row, n);
      ExpSize(nodes, cap, leaf, row, n);
    }
  }

  lemma RowGrows(nodes: seq<NodeData>, cap: nat, leaf: bool, row: Row)
    requires RowOK(nodes, cap, leaf, row, -1)
    ensures |Flat(nodes, row)| >= |row|
  {
    forall i | 0 <= i < |row| ensures ItemOK(nodes, cap, leaf, row, i) && Slots(nodes[row[i].node]) > 0 {
      assert ItemOK(nodes, cap, leaf, row, i) && Occupied(nodes, cap, row, i);
    }
    RowsGrow(nodes, cap, leaf, row);
  }

  lemma {:induction false} ContentAtLeast(nodes: seq<NodeData>, cap: nat, rows: seq<Row>, l: nat)
    requires TreeOK(nodes, cap, rows) && l < |rows|
    ensures |Content(nodes, rows)| >= |rows[l]|
    decreases |rows| - l
  {
    hide Flat, RowOK, Distinct, Ascending;
    if l == |rows| - 1 {
      RowGrows(nodes, cap, true, rows[l]);
    } else {
      assert Linked(nodes, cap, rows, l);
      RowGrows(nodes, cap, false, rows[l]);
      ContentAtLeast(nodes, cap, rows, l + 1);
    }
  }

  /** A tree of one leaf has the entries of that leaf. */
  lemma SingleLeaf(nodes: seq<NodeData>, cap: nat, rows: seq<Row>)
    requires TreeOK(nodes, cap, rows) && |rows| == 1
    ensures rows[0][0].node < |nodes| && |Content(nodes, rows)| == Slots(nodes[rows[0][0].node])
  {
    LeafAt(nodes, cap, rows, 0);
    assert rows[0] == [rows[0][0]];
    FlatSingle(nodes, rows[0][0]);
  }

  /** The tree becomes empty exactly when its only entry is taken from a root leaf. */
  lemma EmptiedTree(nodes: seq<NodeData>, nodes1: seq<NodeData>, nodes2: seq<NodeData>, cap: nat, rows: seq<Row>,
      rows2: seq<Row>, node: seq<Node>, entry: seq<nat>, pos: seq<nat>, bl: nat)
    requires LeafShrunk(nodes, nodes1, nodes2, cap, rows, rows2, node, entry, pos, bl)
    ensures |rows| == 1 && Slots(nodes1[node[|rows| - 1]]) == 0 <==> |Content(nodes, rows)| == 1
  {
    hide Flat, RowOK, TopOK, StepDown, Expand;
    if |rows| == 1 {
      TopDistinct(nodes, cap, rows) by { TreeParts(nodes, cap, rows); }
      SingleLeaf(nodes, cap, rows);
    } else {
      ContentAtLeast(nodes, cap, rows, 1);
    }
  }

  lemma HealedTree(nodes: seq<NodeData>, nodes2: seq<NodeData>, nodes3: seq<NodeData>, cap: nat, rows: seq<Row>,
      rows2: seq<Row>, rows3: seq<Row>, target: nat)
    requires TreeOK(nodes, cap, rows) && Healed(nodes2, nodes3, cap, true, rows2, rows3)
    requires AllIds(rows2) == AllIds(rows) && Owned(nodes, nodes2, AllIds(rows), AllIds(rows))
    requires target < |Content(nodes, rows)| && Flat(nodes2, Last(rows2)) == RemoveAt(Content(nodes, rows), target)
    ensures Ascending(Content(nodes3, rows3))
    ensures forall n | n in AllIds(rows3) :: n < |nodes3| && !nodes3[n].Free?
    ensures Owned(nodes, nodes3, AllIds(rows), AllIds(rows3))
  {
    hide Flat, RowOK, TopOK, AllIds, Owned, RemoveAt;
    TreeParts(nodes, cap, rows);
    RemoveAscending(Content(nodes, rows), target);
    LiveRow(nodes3, cap, true, Last(rows3), -1);
    OwnedSame(nodes3, cap, true, rows3);
    OwnedTransitive(nodes, nodes2, nodes3, AllIds(rows), AllIds(rows), AllIds(rows3));
  }

  /** `rows'` is a tree with the entries of `rows`, on some of its nodes. */
  ghost predicate Collapsed(nodes: seq<NodeData>, nodes': seq<NodeData>, cap: nat, rows: seq<Row>, rows': seq<Row>) {
    && 1 <= |rows'| <= |rows| && TreeOK(nodes', cap, rows')
    && Content(nodes', rows') == Content(nodes, rows)
    && AllIds(rows') <= AllIds(rows) && Owned(nodes, nodes', AllIds(rows), AllIds(rows'))
  }

  /** The same leaf row, and a path to the same place in it. */
  lemma LandedSame(nodes: seq<NodeData>, nodes': seq<NodeData>, rows: seq<Row>, rows': seq<Row>, node: seq<Node>,
      entry: seq<nat>, pos: seq<nat>, node': seq<Node>, entry': seq<nat>, pos': seq<nat>, target: nat)
    requires rows != [] && rows' != [] && Content(nodes', rows') == Content(nodes, rows)
    requires OnPath(nodes, rows, node, entry, pos, |rows| - 1)
             && OnPath(nodes', rows', node', entry', pos', |rows'| - 1)
    requires entry'[|rows'| - 1] == entry[|rows| - 1]
    requires Off(nodes', Last(rows'), pos'[|rows'| - 1]) == Off(nodes, Last(rows), pos[|rows| - 1])
    requires Exp(nodes', Last(rows')[pos'[|rows'| - 1]]) == Exp(nodes, Last(rows)[pos[|rows| - 1]])
    requires Landed(nodes, rows, node, entry, pos, |rows| - 1, target, |rows|, |rows|)
    ensures Landed(nodes', rows', node', entry', pos', |rows'| - 1, target, |rows'|, |rows'|)
  {
    hide Flat, Off, Exp, StepDown;
  }

  lemma LandedEnd(nodes: seq<NodeData>, nodes': seq<NodeData>, rows: seq<Row>, rows': seq<Row>, node: seq<Node>,
      entry: seq<nat>, pos: seq<nat>, node': seq<Node>, entry': seq<nat>, pos': seq<nat>, target: nat)
    requires rows != [] && rows' != [] && Content(nodes', rows') == Content(nodes, rows)
    requires Landed(nodes, rows, node, entry, pos, |rows| - 1, target, |rows|, 0)
    ensures Landed(nodes', rows', node', entry', pos', |rows'| - 1, target, |rows'|, 0)
  {
    hide Flat, OnPath;
  }
}
