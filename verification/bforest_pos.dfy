/** Positions of a path in the rows of a tree.

A path holds a node and an entry number per level. Position `pos[l]` is where its level `l`
node stands in row `l`. Moving to a sibling, and reading or changing a critical key, are
explained here on positions alone.
*/
module BforestPos {
  import opened BforestNode
  import opened BforestShape

  const MAX_PATH: nat := 16

  /** The path runs through the items `pos` down to row `level`, with entries in bounds above it. */
  ghost predicate OnPath(nodes: seq<NodeData>, rows: seq<Row>, node: seq<Node>, entry: seq<nat>, pos: seq<nat>,
      level: nat) {
    && level < |rows| && level < |pos| && level < |node| == |entry|
    && pos[0] == 0
    && (forall l | 0 <= l <= level :: pos[l] < |rows[l]| && rows[l][pos[l]].node == node[l])
    && (forall l | 0 <= l < level :: StepDown(nodes, rows, entry, pos, l))
  }

  ghost predicate StepDown(nodes: seq<NodeData>, rows: seq<Row>, entry: seq<nat>, pos: seq<nat>, l: nat)
    requires l < |rows| && l < |entry| && l + 1 < |pos|
  {
    && pos[l] < |rows[l]|
    && entry[l] < |Exp(nodes, rows[l][pos[l]])|
    && pos[l + 1] == Off(nodes, rows[l], pos[l]) + entry[l]
  }

  /** Inner nodes of complete rows expand to one item per sub-tree. */
  lemma InnerSlots(nodes: seq<NodeData>, cap: nat, rows: seq<Row>, l: nat, i: nat)
    requires TopOK(nodes, cap, rows) && l + 1 < |rows| && i < |rows[l]|
    ensures rows[l][i].node < |nodes| && nodes[rows[l][i].node].Inner?
    ensures var d := nodes[rows[l][i].node];
            0 < |d.tree| == |d.keys| + 1 <= INNER_SIZE && |Exp(nodes, rows[l][i])| == |d.tree|
  {
    assert Linked(nodes, cap, rows, l);
    assert ItemOK(nodes, cap, false, rows[l], i) && Occupied(nodes, cap, rows[l], i);
  }

  // ----- chains of first sub-trees -----

  /** From row `from` down, each index is the first sub-tree of the one above. */
  ghost predicate FirstChain(nodes: seq<NodeData>, rows: seq<Row>, q: seq<nat>, from: nat, level: nat) {
    && level < |rows| && level < |q|
    && (forall j | from <= j <= level :: q[j] < |rows[j]|)
    && (forall j | from <= j < level :: FirstStep(nodes, rows, q, j))
  }

  ghost predicate FirstStep(nodes: seq<NodeData>, rows: seq<Row>, q: seq<nat>, j: nat)
    requires j < |rows| && j + 1 < |q|
  {
    q[j] <= |rows[j]| && q[j + 1] == Off(nodes, rows[j], q[j])
  }

  lemma FirstBelow(nodes: seq<NodeData>, rows: seq<Row>, q: seq<nat>, from: nat, level: nat, j: nat)
    requires FirstChain(nodes, rows, q, from, level) && from <= j < level
    ensures q[j] < |rows[j]| && q[j + 1] == Off(nodes, rows[j], q[j])
  {
    assert FirstStep(nodes, rows, q, j);
  }

  /** `q` starts at sub-tree `e` of item `p` in row `bl` and follows first sub-trees to `level`. */
  ghost predicate Branch(nodes: seq<NodeData>, rows: seq<Row>, p: nat, bl: nat, e: nat, q: seq<nat>, level: nat) {
    && bl < level < |rows| && p < |rows[bl]| && 1 <= e < |Exp(nodes, rows[bl][p])|
    && FirstChain(nodes, rows, q, bl + 1, level)
    && q[bl + 1] == Off(nodes, rows[bl], p) + e
  }

  /** The critical key at the bottom of a branch is the key stored at its top. */
  lemma {:induction false} BranchCrit(nodes: seq<NodeData>, cap: nat, rows: seq<Row>, p: nat, bl: nat, e: nat,
      q: seq<nat>, level: nat)
    requires TopOK(nodes, cap, rows) && Branch(nodes, rows, p, bl, e, q, level)
    ensures rows[bl][p].node < |nodes| && nodes[rows[bl][p].node].Inner? && e <= |nodes[rows[bl][p].node].keys|
    ensures rows[level][q[level]].crit == nodes[rows[bl][p].node].keys[e - 1]
    decreases level
  {
    hide Flat, Off, Exp, TopOK, FirstStep;
    if level == bl + 1 {
      BranchChild(nodes, cap, rows, p, bl, e);
    } else {
      FirstBelow(nodes, rows, q, bl + 1, level, level - 1);
      BranchCrit(nodes, cap, rows, p, bl, e, q, level - 1);
      FirstSlot(nodes, cap, rows, level - 1, q[level - 1]);
    }
  }

  lemma BranchChild(nodes: seq<NodeData>, cap: nat, rows: seq<Row>, p: nat, bl: nat, e: nat)
    requires TopOK(nodes, cap, rows) && bl + 1 < |rows| && p < |rows[bl]| && 0 < e < |Exp(nodes, rows[bl][p])|
    ensures rows[bl][p].node < |nodes| && nodes[rows[bl][p].node].Inner? && e <= |nodes[rows[bl][p].node].keys|
    ensures Off(nodes, rows[bl], p) + e < |rows[bl + 1]|
    ensures rows[bl + 1][Off(nodes, rows[bl], p) + e].crit == nodes[rows[bl][p].node].keys[e - 1]
    ensures e < |nodes[rows[bl][p].node].tree| && rows[bl + 1][Off(nodes, rows[bl], p) + e].node ==
            nodes[rows[bl][p].node].tree[e]
  {
    hide Flat, Off, RowOK, Allocated, Distinct, TopOK, Linked;
    InnerSlots(nodes, cap, rows, bl, p);
    NextRow(nodes, cap, rows, bl);
    FlatAt(nodes, rows[bl], p, e);
  }

  lemma NextRow(nodes: seq<NodeData>, cap: nat, rows: seq<Row>, l: nat)
    requires TopOK(nodes, cap, rows) && l + 1 < |rows|
    ensures rows[l + 1] == Flat(nodes, rows[l])
  {
    assert Linked(nodes, cap, rows, l);
  }

  /** The first slot of an inner item inherits its critical key. */
  lemma FirstSlot(nodes: seq<NodeData>, cap: nat, rows: seq<Row>, l: nat, i: nat)
    requires TopOK(nodes, cap, rows) && l + 1 < |rows| && i < |rows[l]|
    ensures rows[l][i].node < |nodes| && nodes[rows[l][i].node].Inner? && nodes[rows[l][i].node].tree != []
    ensures Off(nodes, rows[l], i) < |rows[l + 1]|
    ensures rows[l + 1][Off(nodes, rows[l], i)] == Item(rows[l][i].crit, nodes[rows[l][i].node].tree[0])
  {
    assert Linked(nodes, cap, rows, l);
    InnerSlots(nodes, cap, rows, l, i);
    FlatAt(nodes, rows[l], i, 0);
  }

  /** The positions just right of the path. */
  ghost function Nexts(pos: seq<nat>, level: nat): (q: seq<nat>)
    requires level < |pos|
    ensures |q| == level + 1
    ensures forall j | 0 <= j <= level :: q[j] == pos[j] + 1
  {
    seq(level + 1, j requires 0 <= j <= level => pos[j] + 1)
  }

  /** Going right: when every level between `bl` and `level` is at its last entry, the next
  items of the rows below `bl` form a branch. */
  lemma {:induction false} RightBranch(nodes: seq<NodeData>, cap: nat, rows: seq<Row>, node: seq<Node>,
      entry: seq<nat>, pos: seq<nat>, bl: nat, level: nat)
    requires TopOK(nodes, cap, rows) && OnPath(nodes, rows, node, entry, pos, level)
    requires bl < level && entry[bl] + 1 < |Exp(nodes, rows[bl][pos[bl]])|
    requires forall l | bl < l < level :: entry[l] + 1 == |Exp(nodes, rows[l][pos[l]])|
    ensures Branch(nodes, rows, pos[bl], bl, entry[bl] + 1, Nexts(pos, level), level)
    decreases level
  {
    hide Flat, Off, Exp, RowOK, Allocated, Distinct;
    var q := Nexts(pos, level);
    assert StepDown(nodes, rows, entry, pos, level - 1);
    assert Linked(nodes, cap, rows, level - 1);
    if level == bl + 1 {
      FlatAt(nodes, rows[bl], pos[bl], entry[bl] + 1);
    } else {
      RightBranch(nodes, cap, rows, node, entry, pos, bl, level - 1);
      var q' := Nexts(pos, level - 1);
      assert q'[level - 1] < |rows[level - 1]|;
      FlatSplit(nodes, rows[level - 1], pos[level - 1]);
      FirstSlot(nodes, cap, rows, level - 1, pos[level - 1] + 1);
      forall j | bl + 1 <= j < level ensures FirstStep(nodes, rows, q, j) {
        if j < level - 1 {
          assert FirstStep(nodes, rows, q', j);
        }
      }
      assert forall j | bl + 1 <= j <= level - 1 :: q[j] == q'[j];
    }
  }

  /** A path at its last entry everywhere above `level` runs through the right-most item. */
  lemma {:induction false} RightEdge(nodes: seq<NodeData>, cap: nat, rows: seq<Row>, node: seq<Node>, entry: seq<nat>,
      pos: seq<nat>, level: nat)
    requires TopOK(nodes, cap, rows) && OnPath(nodes, rows, node, entry, pos, level)
    requires forall l | 0 <= l < level :: entry[l] + 1 == |Exp(nodes, rows[l][pos[l]])|
    ensures pos[level] + 1 == |rows[level]|
    decreases level
  {
    hide Flat, Off, Exp, RowOK, Distinct;
    if level > 0 {
      RightEdge(nodes, cap, rows, node, entry, pos, level - 1);
      assert StepDown(nodes, rows, entry, pos, level - 1);
      assert Linked(nodes, cap, rows, level - 1);
      FlatSplit(nodes, rows[level - 1], pos[level - 1]);
      OffEnd(nodes, rows[level - 1], pos[level - 1] + 1);
    }
  }

  /** Going left: the items of the path below the last level with a non-zero entry form a branch. */
  lemma LeftBranch(nodes: seq<NodeData>, cap: nat, rows: seq<Row>, node: seq<Node>, entry: seq<nat>, pos: seq<nat>,
      bl: nat, level: nat)
    requires TopOK(nodes, cap, rows) && OnPath(nodes, rows, node, entry, pos, level)
    requires bl < level && entry[bl] > 0
    requires forall l | bl < l < level :: entry[l] == 0
    ensures Branch(nodes, rows, pos[bl], bl, entry[bl], pos, level)
  {
    assert StepDown(nodes, rows, entry, pos, bl);
    forall j | bl + 1 <= j < level ensures FirstStep(nodes, rows, pos, j) {
      assert StepDown(nodes, rows, entry, pos, j);
    }
  }

  /** A path whose entries above `level` are all zero runs through the first item. */
  lemma {:induction false} LeftEdge(nodes: seq<NodeData>, rows: seq<Row>, node: seq<Node>, entry: seq<nat>,
      pos: seq<nat>, level: nat)
    requires OnPath(nodes, rows, node, entry, pos, level)
    requires forall l | 0 <= l < level :: entry[l] == 0
    ensures pos[level] == 0
    decreases level
  {
    if level > 0 {
      LeftEdge(nodes, rows, node, entry, pos, level - 1);
      assert StepDown(nodes, rows, entry, pos, level - 1);
      assert rows[level - 1][..0] == [];
    }
  }

  // ----- what an update leaves alone -----

  lemma Apart(rows: seq<Row>, l: nat, i: nat, m: nat, j: nat)
    requires Distinct(rows) && l < |rows| && i < |rows[l]| && m < |rows| && j < |rows[m]|
    requires l != m || i != j
    ensures rows[l][i].node != rows[m][j].node
  {
    assert NodeAt(rows, l, i) == rows[l][i].node && NodeAt(rows, m, j) == rows[m][j].node;
  }

  lemma FlatUnchanged(nodes: seq<NodeData>, nodes': seq<NodeData>, row: Row)
    requires forall i | 0 <= i < |row| :: Kept(nodes, nodes', row[i].node)
    ensures Flat(nodes, row) == Flat(nodes', row)
  {
    forall i | 0 <= i < |row| ensures Exp(nodes, row[i]) == Exp(nodes', row[i]) {
      assert Kept(nodes, nodes', row[i].node);
    }
    FlatFrame(nodes, nodes', row);
  }

  /** Changing keys of one inner node, or critical keys of the row, keeps a row of inner nodes complete. */
  lemma InnerRowSame(nodes: seq<NodeData>, nodes': seq<NodeData>, cap: nat, row: Row, row': Row, n: Node)
    requires RowOK(nodes, cap, false, row, -1) && |row'| == |row| && |nodes'| == |nodes|
    requires forall i | 0 <= i < |row| :: row'[i].node == row[i].node
    requires forall m | 0 <= m < |nodes| && m != n :: nodes'[m] == nodes[m]
    requires n < |nodes| && nodes[n].Inner? && nodes'[n].Inner? && nodes'[n].tree == nodes[n].tree
             && |nodes'[n].keys| == |nodes[n].keys|
    ensures RowOK(nodes', cap, false, row', -1)
  {
    forall i | 0 <= i < |row|
      ensures ItemOK(nodes', cap, false, row', i) && Occupied(nodes', cap, row', i)
    {
      assert ItemOK(nodes, cap, false, row, i) && Occupied(nodes, cap, row, i);
    }
  }

  // ----- changing a critical key -----

  function SetItem(row: Row, i: nat, ck: Key): Row
    requires i < |row|
  {
    row[i := Item(ck, row[i].node)]
  }

  /** The rows after the critical key of the branch `q` below `bl` becomes `ck`. */
  ghost function SetCrits(rows: seq<Row>, q: seq<nat>, bl: nat, ck: Key): (r: seq<Row>)
    requires |rows| <= |q| && forall j | bl < j < |rows| :: q[j] < |rows[j]|
    ensures |r| == |rows|
    ensures forall j | 0 <= j < |rows| :: r[j] == if j <= bl then rows[j] else SetItem(rows[j], q[j], ck)
  {
    seq(|rows|, j requires 0 <= j < |rows| => if j <= bl then rows[j] else SetItem(rows[j], q[j], ck))
  }

  /** Writing key `e - 1` of the node at the top of a branch changes the critical keys along the
  branch and nothing else. */
  lemma SetCritKey(nodes: seq<NodeData>, nodes': seq<NodeData>, cap: nat, rows: seq<Row>, p: nat, bl: nat, e: nat,
      q: seq<nat>, ck: Key)
    requires TopOK(nodes, cap, rows) && Branch(nodes, rows, p, bl, e, q, |rows| - 1)
    requires rows[bl][p].node < |nodes| && nodes[rows[bl][p].node].Inner? && e <= |nodes[rows[bl][p].node].keys|
    requires var n := rows[bl][p].node;
             nodes' == nodes[n := Inner(nodes[n].keys[e - 1 := ck], nodes[n].tree)]
    ensures TopOK(nodes', cap, SetCrits(rows, q, bl, ck))
  {
    hide Flat, Off, Exp, RowOK, Linked, FirstStep;
    var rows' := SetCrits(rows, q, bl, ck);
    forall l | 0 <= l < |rows| - 1 ensures Linked(nodes', cap, rows', l) {
      SetCritLink(nodes, nodes', cap, rows, p, bl, e, q, ck, l);
    }
    forall l, i, m, j | 0 <= l < |rows'| && 0 <= i < |rows'[l]| && 0 <= m < |rows'| && 0 <= j < |rows'[m]| &&
                        NodeAt(rows', l, i) == NodeAt(rows', m, j)
      ensures l == m && i == j
    {
      assert NodeAt(rows, l, i) == NodeAt(rows', l, i) && NodeAt(rows, m, j) == NodeAt(rows', m, j);
    }
  }

  lemma SetCritLink(nodes: seq<NodeData>, nodes': seq<NodeData>, cap: nat, rows: seq<Row>, p: nat, bl: nat, e: nat,
      q: seq<nat>, ck: Key, l: nat)
    requires TopOK(nodes, cap, rows) && Branch(nodes, rows, p, bl, e, q, |rows| - 1)
    requires rows[bl][p].node < |nodes| && nodes[rows[bl][p].node].Inner? && e <= |nodes[rows[bl][p].node].keys|
    requires var n := rows[bl][p].node;
             nodes' == nodes[n := Inner(nodes[n].keys[e - 1 := ck], nodes[n].tree)]
    requires l < |rows| - 1
    ensures Linked(nodes', cap, SetCrits(rows, q, bl, ck), l)
  {
    hide Flat, Off, Exp, RowOK, Allocated, Distinct;
    var rows' := SetCrits(rows, q, bl, ck);
    var row, row' := rows[l], rows'[l];
    assert Linked(nodes, cap, rows, l);
    InnerRowSame(nodes, nodes', cap, row, row', rows[bl][p].node);
    if l == bl {
      InnerSlots(nodes, cap, rows, l, p);
      forall i | 0 <= i < |row| && i != p ensures row[i].node != row[p].node {
        Apart(rows, l, i, l, p);
      }
      SetCritHere(nodes, nodes', row, p, e, ck);
    } else {
      forall i | 0 <= i < |row| ensures Kept(nodes, nodes', row[i].node) {
        Apart(rows, l, i, bl, p);
        InnerSlots(nodes, cap, rows, l, i);
      }
      if l < bl {
        FlatUnchanged(nodes, nodes', row);
      } else {
        assert FirstStep(nodes, rows, q, l);
        FirstSlot(nodes, cap, rows, l, q[l]);
        InnerSlots(nodes, cap, rows, l, q[l]);
        SetCritBelow(nodes, nodes', row, q[l], ck);
      }
    }
  }

  lemma SetCritHere(nodes: seq<NodeData>, nodes': seq<NodeData>, row: Row, p: nat, e: nat, ck: Key)
    requires p < |row| && 1 <= e < |Exp(nodes, row[p])|
    requires forall i | 0 <= i < |row| && i != p :: row[i].node != row[p].node
    requires row[p].node < |nodes| && nodes[row[p].node].Inner? && |nodes[row[p].node].tree| ==
             |nodes[row[p].node].keys| + 1
    requires var n := row[p].node;
             nodes' == nodes[n := Inner(nodes[n].keys[e - 1 := ck], nodes[n].tree)]
    ensures Off(nodes, row, p) + e < |Flat(nodes, row)|
    ensures Flat(nodes', row) == SetItem(Flat(nodes, row), Off(nodes, row, p) + e, ck)
  {
    hide Flat;
    var b := Exp(nodes, row[p]);
    FlatAt(nodes, row, p, e);
    FlatSplit(nodes, row, p);
    assert Exp(nodes', row[p]) == SetItem(b, e, ck);
    FlatReplace(nodes, nodes', row, row, p);
    UpdateMiddle(Flat(nodes, row[..p]), b, Flat(nodes, row[p + 1..]), e, Item(ck, b[e].node));
  }

  lemma SetCritBelow(nodes: seq<NodeData>, nodes': seq<NodeData>, row: Row, i: nat, ck: Key)
    requires i < |row| && forall j | 0 <= j < |row| :: Kept(nodes, nodes', row[j].node)
    requires row[i].node < |nodes| <= |nodes'|
    requires nodes[row[i].node].Inner? && 0 < |nodes[row[i].node].tree| <= |nodes[row[i].node].keys| + 1
    ensures Off(nodes, row, i) < |Flat(nodes, row)|
    ensures Flat(nodes', SetItem(row, i, ck)) == SetItem(Flat(nodes, row), Off(nodes, row, i), ck)
  {
    hide Flat;
    var row' := SetItem(row, i, ck);
    var b := Exp(nodes, row[i]);
    FlatAt(nodes, row, i, 0);
    FlatSplit(nodes, row, i);
    assert Kept(nodes, nodes', row[i].node);
    assert Exp(nodes', row'[i]) == SetItem(b, 0, ck);
    forall j | 0 <= j < |row| && j != i ensures Exp(nodes, row[j]) == Exp(nodes', row'[j]) {
      assert Kept(nodes, nodes', row[j].node);
    }
    FlatReplace(nodes, nodes', row, row', i);
    UpdateMiddle(Flat(nodes, row[..i]), b, Flat(nodes, row[i + 1..]), 0, Item(ck, b[0].node));
  }
}
