/** Balancing an underflowed node with the next node of its row. */
module BforestBalance {
  import opened BforestNode
  import opened BforestShape
  import opened BforestPos
  import opened BforestHeal

  lemma ExpSize(nodes: seq<NodeData>, cap: nat, leaf: bool, row: Row, i: nat)
    requires i < |row| && ItemOK(nodes, cap, leaf, row, i)
    ensures |Exp(nodes, row[i])| == Slots(nodes[row[i].node])
  {
  }

  /** Two adjacent items in the middle of a row. */
  lemma FlatPair(nodes: seq<NodeData>, row: Row, p: nat)
    requires p + 1 < |row|
    ensures Flat(nodes, row) == Flat(nodes, row[..p]) + (Exp(nodes, row[p]) + Exp(nodes, row[p + 1])) + Flat(nodes,
            row[p + 2..])
  {
    hide Flat, Exp;
    FlatSplit(nodes, row, p);
    FlatSplit(nodes, row[p + 1..], 0);
    assert row[p + 1..][1..] == row[p + 2..];
    assert Flat(nodes, row[p + 1..][..0]) == [] by { FlatNil(nodes, row[p + 1..][..0]); }
    var a, b, c, d := Flat(nodes, row[..p]), Exp(nodes, row[p]), Exp(nodes, row[p + 1]), Flat(nodes, row[p + 2..]);
    assert a + b + ([] + c + d) == a + (b + c) + d;
  }

  lemma FlatNil(nodes: seq<NodeData>, row: Row)
    requires row == []
    ensures Flat(nodes, row) == []
  {
  }

  ghost predicate Underflowed(nodes: seq<NodeData>, cap: nat, leaf: bool, row: Row, p: nat) {
    && LeafCapacity(cap) && p + 1 < |row| && RowOK(nodes, cap, leaf, row, p)
    && row[p].node < |nodes| && 0 < Slots(nodes[row[p].node]) && !HalfFull(nodes[row[p].node], cap)
    && (forall i, j | 0 <= i < j < |row| :: row[i].node != row[j].node)
  }

  lemma UnderflowedPair(nodes: seq<NodeData>, cap: nat, leaf: bool, row: Row, p: nat)
    requires Underflowed(nodes, cap, leaf, row, p)
    ensures row[p].node < |nodes| && row[p + 1].node < |nodes|
    ensures Unbalanced(nodes[row[p].node], nodes[row[p + 1].node], cap)
  {
    assert ItemOK(nodes, cap, leaf, row, p) && ItemOK(nodes, cap, leaf, row, p + 1);
    assert Occupied(nodes, cap, row, p + 1);
  }

  /** The row after spreading the entries of items `p` and `p + 1`. */
  ghost predicate Spread(nodes: seq<NodeData>, nodes': seq<NodeData>, cap: nat, leaf: bool, row: Row, row': Row,
      p: nat) {
    && Underflowed(nodes, cap, leaf, row, p)
    && row[p].node < |nodes| && row[p + 1].node < |nodes| && |nodes| <= |nodes'|
    && Unbalanced(nodes[row[p].node], nodes[row[p + 1].node], cap)
    && var r := Balance(nodes[row[p].node], row[p + 1].crit, nodes[row[p + 1].node], cap);
    && r.critKey.Some? && row' == SetItem(row, p + 1, r.critKey.value)
    && nodes'[row[p].node] == r.lhs && nodes'[row[p + 1].node] == r.rhs
    && (forall i | 0 <= i < |row| && i != p && i != p + 1 :: Kept(nodes, nodes', row[i].node))
  }

  lemma SpreadFlat(nodes: seq<NodeData>, nodes': seq<NodeData>, cap: nat, leaf: bool, row: Row, row': Row, p: nat)
    requires Spread(nodes, nodes', cap, leaf, row, row', p)
    ensures Flat(nodes', row') == Flat(nodes, row)
    ensures Off(nodes', row', p) == Off(nodes, row, p)
  {
    hide Flat, RowOK, Balance, Expand;
    var l, r := nodes[row[p].node], nodes[row[p + 1].node];
    BalanceSpreads(l, row[p + 1].crit, r, cap, row[p].crit);
    FlatPair(nodes, row, p);
    FlatPair(nodes', row', p);
    forall i | 0 <= i < p ensures Exp(nodes, row[..p][i]) == Exp(nodes', row'[..p][i]) {
      assert Kept(nodes, nodes', row[i].node);
    }
    FlatSame(nodes, nodes', row[..p], row'[..p]);
    var s, s' := row[p + 2..], row'[p + 2..];
    forall i | 0 <= i < |s| ensures Exp(nodes, s[i]) == Exp(nodes', s'[i]) {
      assert Kept(nodes, nodes', row[i + p + 2].node);
    }
    FlatSame(nodes, nodes', row[p + 2..], row'[p + 2..]);
  }

  lemma SpreadRow(nodes: seq<NodeData>, nodes': seq<NodeData>, cap: nat, leaf: bool, row: Row, row': Row, p: nat)
    requires Spread(nodes, nodes', cap, leaf, row, row', p)
    ensures RowOK(nodes', cap, leaf, row', -1)
    ensures |Exp(nodes', row'[p])| > |Exp(nodes, row[p])|
  {
    hide Balance, Expand;
    var l, r := nodes[row[p].node], nodes[row[p + 1].node];
    BalanceSpreads(l, row[p + 1].crit, r, cap, row[p].crit);
    assert ItemOK(nodes, cap, leaf, row, p) && ItemOK(nodes, cap, leaf, row, p + 1);
    forall i | 0 <= i < |row| ensures ItemOK(nodes', cap, leaf, row', i) && Occupied(nodes', cap, row', i) {
      assert ItemOK(nodes, cap, leaf, row, i);
      if i == p {
        SpreadFirst(nodes, nodes', cap, leaf, row, row', p);
      } else if i != p + 1 {
        assert Kept(nodes, nodes', row[i].node) && Occupied(nodes, cap, row, i);
      }
    }
    ExpSize(nodes, cap, leaf, row, p);
    assert ItemOK(nodes', cap, leaf, row', p);
    ExpSize(nodes', cap, leaf, row', p);
  }

  /** The left node keeps its first entry. */
  lemma SpreadFirst(nodes: seq<NodeData>, nodes': seq<NodeData>, cap: nat, leaf: bool, row: Row, row': Row, p: nat)
    requires Spread(nodes, nodes', cap, leaf, row, row', p)
    ensures ItemOK(nodes', cap, leaf, row', p) && Occupied(nodes', cap, row', p)
  {
    hide Expand;
    var l, r := nodes[row[p].node], nodes[row[p + 1].node];
    BalanceSpreads(l, row[p + 1].crit, r, cap, row[p].crit);
    assert ItemOK(nodes, cap, leaf, row, p);
  }

  /** The row after merging item `p` into item `p + 1`. */
  ghost predicate Merged(nodes: seq<NodeData>, nodes': seq<NodeData>, cap: nat, leaf: bool, row: Row, row': Row,
      p: nat) {
    && Underflowed(nodes, cap, leaf, row, p)
    && row[p].node < |nodes| && row[p + 1].node < |nodes| && |nodes| <= |nodes'|
    && Unbalanced(nodes[row[p].node], nodes[row[p + 1].node], cap)
    && var r := Balance(nodes[row[p].node], row[p + 1].crit, nodes[row[p + 1].node], cap);
    && r.critKey.None? && row' == row[..p] + [Item(row[p].crit, row[p + 1].node)] + row[p + 2..]
    && nodes'[row[p + 1].node] == r.rhs
    && (forall i | 0 <= i < |row| && i != p && i != p + 1 :: Kept(nodes, nodes', row[i].node))
  }

  lemma MergedFlat(nodes: seq<NodeData>, nodes': seq<NodeData>, cap: nat, leaf: bool, row: Row, row': Row, p: nat)
    requires Merged(nodes, nodes', cap, leaf, row, row', p)
    ensures Flat(nodes', row') == Flat(nodes, row)
    ensures Off(nodes', row', p) == Off(nodes, row, p)
  {
    hide Flat, RowOK, Balance, Expand;
    var l, r := nodes[row[p].node], nodes[row[p + 1].node];
    BalanceMerges(l, row[p + 1].crit, r, cap, row[p].crit);
    FlatPair(nodes, row, p);
    FlatSplit(nodes', row', p);
    assert row'[..p] == row[..p] && row'[p + 1..] == row[p + 2..];
    forall i | 0 <= i < p ensures Exp(nodes, row[..p][i]) == Exp(nodes', row[..p][i]) {
      assert Kept(nodes, nodes', row[i].node);
    }
    FlatFrame(nodes, nodes', row[..p]);
    var s := row[p + 2..];
    forall i | 0 <= i < |s| ensures Exp(nodes, s[i]) == Exp(nodes', s[i]) {
      assert Kept(nodes, nodes', row[i + p + 2].node);
    }
    FlatFrame(nodes, nodes', row[p + 2..]);
  }

  lemma MergedRow(nodes: seq<NodeData>, nodes': seq<NodeData>, cap: nat, leaf: bool, row: Row, row': Row, p: nat)
    requires Merged(nodes, nodes', cap, leaf, row, row', p)
    ensures RowOK(nodes', cap, leaf, row', -1)
    ensures |Exp(nodes', row'[p])| > |Exp(nodes, row[p])|
  {
    hide Balance, Expand;
    forall i | 0 <= i < |row'| ensures ItemOK(nodes', cap, leaf, row', i) && Occupied(nodes', cap, row', i) {
      if i == p {
        MergedItem(nodes, nodes', cap, leaf, row, row', p);
      } else {
        var j := if i < p then i else i + 1;
        assert row'[i] == row[j] && Kept(nodes, nodes', row[j].node);
        assert ItemOK(nodes, cap, leaf, row, j) && Occupied(nodes, cap, row, j);
      }
    }
    MergedItem(nodes, nodes', cap, leaf, row, row', p);
    assert ItemOK(nodes, cap, leaf, row, p) && ItemOK(nodes, cap, leaf, row, p + 1);
    ExpSize(nodes, cap, leaf, row, p);
    ExpSize(nodes', cap, leaf, row', p);
  }

  lemma MergedItem(nodes: seq<NodeData>, nodes': seq<NodeData>, cap: nat, leaf: bool, row: Row, row': Row, p: nat)
    requires Merged(nodes, nodes', cap, leaf, row, row', p)
    ensures ItemOK(nodes', cap, leaf, row', p) && Occupied(nodes', cap, row', p)
    ensures Slots(nodes'[row'[p].node]) > Slots(nodes[row[p].node])
  {
    hide Expand;
    var l, r := nodes[row[p].node], nodes[row[p + 1].node];
    BalanceMerges(l, row[p + 1].crit, r, cap, row[p].crit);
    assert ItemOK(nodes, cap, leaf, row, p) && ItemOK(nodes, cap, leaf, row, p + 1);
    assert Occupied(nodes, cap, row, p + 1);
    assert row'[p] == Item(row[p].crit, row[p + 1].node);
  }

  // ----- the contract of healing a level -----

  /** Row `level`, the last one, is complete but for the node the path runs through. */
  ghost predicate Healing(nodes: seq<NodeData>, cap: nat, leaf: bool, rows: seq<Row>, node: seq<Node>, entry: seq<nat>,
      pos: seq<nat>, level: nat) {
    && level < MAX_PATH && |rows| == level + 1 && TopOK(nodes, cap, rows)
    && OnPath(nodes, rows, node, entry, pos, level)
    && RowOK(nodes, cap, leaf, rows[level], pos[level])
    && (level > 0 ==> |rows[1]| >= 2)
    && node[level] < |nodes| && entry[level] <= Slots(nodes[node[level]])
    && (Slots(nodes[node[level]]) == 0 ==> pos[level] + 1 == |rows[level]|)
  }

  /** All rows are complete, and the last one expands to what it did before. */
  ghost predicate Healed(nodes: seq<NodeData>, nodes': seq<NodeData>, cap: nat, leaf: bool, rows: seq<Row>,
      rows': seq<Row>) {
    && rows != [] && |rows'| == |rows| && TopOK(nodes', cap, rows') && RowOK(nodes', cap, leaf, Last(rows'), -1)
    && Flat(nodes', Last(rows')) == Flat(nodes, Last(rows))
    && rows'[0] == rows[0] && AllIds(rows') <= AllIds(rows) && Owned(nodes, nodes', AllIds(rows), AllIds(rows'))
  }

  /** The entry of the next row the path is at. */
  ghost function Target(nodes: seq<NodeData>, rows: seq<Row>, entry: seq<nat>, pos: seq<nat>, level: nat): nat
    requires level < |rows| && level < |pos| && level < |entry| && pos[level] <= |rows[level]|
  {
    Off(nodes, rows[level], pos[level]) + entry[level]
  }

  /** The path is at entry `target` of the next row, or off the end. */
  ghost predicate Landed(nodes: seq<NodeData>, rows: seq<Row>, node: seq<Node>, entry: seq<nat>, pos: seq<nat>,
      level: nat, target: nat, size: nat, size': nat) {
    && level < |rows|
    && if target < |Flat(nodes, rows[level])| then
         && size' == size && OnPath(nodes, rows, node, entry, pos, level)
         && entry[level] < |Exp(nodes, rows[level][pos[level]])|
         && Target(nodes, rows, entry, pos, level) == target
       else
         size' == 0
  }

  lemma OwnedSame(nodes: seq<NodeData>, cap: nat, leaf: bool, rows: seq<Row>)
    requires TopOK(nodes, cap, rows) && forall i | 0 <= i < |Last(rows)| :: ItemOK(nodes, cap, leaf, Last(rows), i)
    ensures forall n | n in AllIds(rows) :: n < |nodes| && !nodes[n].Free?
    ensures Owned(nodes, nodes, AllIds(rows), AllIds(rows))
  {
    hide Flat, Distinct;
    forall n | n in AllIds(rows) ensures n < |nodes| && !nodes[n].Free? {
      var l, i := FromAllIds(rows, n);
      if l < |rows| - 1 {
        InnerSlots(nodes, cap, rows, l, i);
      } else {
        assert ItemOK(nodes, cap, leaf, Last(rows), i);
      }
    }
  }

  /** A node that is still half full leaves its row complete. */
  lemma HealthyRow(nodes: seq<NodeData>, cap: nat, leaf: bool, rows: seq<Row>, node: seq<Node>, entry: seq<nat>,
      pos: seq<nat>, level: nat)
    requires Healing(nodes, cap, leaf, rows, node, entry, pos, level)
    requires Slots(nodes[node[level]]) > 0 && (HalfFull(nodes[node[level]], cap) || pos[level] + 1 == |rows[level]|)
    ensures Healed(nodes, nodes, cap, leaf, rows, rows)
    ensures |Exp(nodes, rows[level][pos[level]])| == Slots(nodes[node[level]])
    ensures Target(nodes, rows, entry, pos, level) <= |Flat(nodes, rows[level])|
    ensures entry[level] < Slots(nodes[node[level]]) <==> Target(nodes, rows, entry, pos, level) < Off(nodes,
            rows[level], pos[level] + 1)
  {
    hide Flat, Exp, Distinct;
    var row, p := rows[level], pos[level];
    forall i | 0 <= i < |row| ensures ItemOK(nodes, cap, leaf, row, i) && Occupied(nodes, cap, row, i) {
      assert ItemOK(nodes, cap, leaf, row, i);
      assert i != p ==> Occupied(nodes, cap, row, i);
    }
    OwnedSame(nodes, cap, leaf, rows);
    ExpSize(nodes, cap, leaf, row, p);
    FlatSplit(nodes, row, p);
  }

  /** An empty right-most node adds nothing to the next row. */
  lemma EmptyRow(nodes: seq<NodeData>, nodes': seq<NodeData>, cap: nat, leaf: bool, row: Row, p: nat)
    requires p + 1 == |row| && RowOK(nodes, cap, leaf, row, p) && row[p].node < |nodes| && Slots(nodes[row[p].node]) ==
             0
    requires forall i | 0 <= i < p :: Kept(nodes, nodes', row[i].node)
    ensures RowOK(nodes', cap, leaf, DropSlot(row, p), -1)
    ensures Flat(nodes', DropSlot(row, p)) == Flat(nodes, row)
    ensures Off(nodes, row, p) == |Flat(nodes, row)|
  {
    var row' := row[..p];
    assert row' == DropSlot(row, p);
    assert ItemOK(nodes, cap, leaf, row, p);
    forall i | 0 <= i < |row'| ensures ItemOK(nodes', cap, leaf, row', i) && Occupied(nodes', cap, row', i)
        && Exp(nodes, row'[i]) == Exp(nodes', row'[i]) {
      assert ItemOK(nodes, cap, leaf, row, i) && Occupied(nodes, cap, row, i) && Kept(nodes, nodes', row[i].node);
    }
    FlatFrame(nodes, nodes', row');
    assert Exp(nodes, row[p]) == [];
  }
}
