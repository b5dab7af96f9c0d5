/** Freeing a whole tree. */
module BforestFree {
  import opened BforestNode
  import opened BforestShape
  import opened BforestPos
  import opened BforestPool
  import opened BforestHeal
  import opened BforestSteps
  import opened BforestRemove
  import opened BforestFind

  /** The nodes of the sub-trees of items `a` to `b` of row `l`. */
  ghost function Desc(nodes: seq<NodeData>, rows: seq<Row>, l: nat, a: nat, b: nat): set<Node>
    decreases |rows| - l
  {
    if l >= |rows| || a > b || b > |rows[l]| then {}
    else Ids(rows[l][a..b]) + Desc(nodes, rows, l + 1, Off(nodes, rows[l], a), Off(nodes, rows[l], b))
  }

  /** Where the descendants of item `a` of row `l` start in row `m`. */
  ghost function OffTo(nodes: seq<NodeData>, rows: seq<Row>, l: nat, a: nat, m: nat): nat
    decreases |rows| - l
  {
    if l >= m || l >= |rows| || a > |rows[l]| then a else OffTo(nodes, rows, l + 1, Off(nodes, rows[l], a), m)
  }

  lemma {:induction false} DescFind(nodes: seq<NodeData>, cap: nat, rows: seq<Row>, l: nat, a: nat, b: nat, n: Node)
      returns (m: nat, i: nat)
    requires TopOK(nodes, cap, rows) && l < |rows| && a <= b <= |rows[l]| && n in Desc(nodes, rows, l, a, b)
    ensures l <= m < |rows| && i < |rows[m]| && rows[m][i].node == n
    ensures OffTo(nodes, rows, l, a, m) <= i < OffTo(nodes, rows, l, b, m)
    decreases |rows| - l
  {
    hide Flat, Off, RowOK, Distinct;
    if n in Ids(rows[l][a..b]) {
      var k :| 0 <= k < b - a && rows[l][a..b][k].node == n;
      m, i := l, a + k;
    } else {
      var a', b' := Off(nodes, rows[l], a), Off(nodes, rows[l], b);
      if l + 1 < |rows| {
        assert Linked(nodes, cap, rows, l);
        OffMonotone(nodes, rows[l], a, b);
        m, i := DescFind(nodes, cap, rows, l + 1, a', b', n);
      }
    }
  }

  /** Neighbouring stretches have disjoint sub-trees. */
  lemma DescDisjoint(nodes: seq<NodeData>, cap: nat, rows: seq<Row>, l: nat, a: nat, b: nat, c: nat)
    requires TopOK(nodes, cap, rows) && l < |rows| && a <= b <= c <= |rows[l]|
    ensures Desc(nodes, rows, l, a, b) !! Desc(nodes, rows, l, b, c)
  {
    hide Flat, Off, RowOK, Distinct, Desc, OffTo;
    TopDistinct(nodes, cap, rows);
    forall n | n in Desc(nodes, rows, l, a, b) && n in Desc(nodes, rows, l, b, c) ensures false {
      var m, i := DescFind(nodes, cap, rows, l, a, b, n);
      var m', i' := DescFind(nodes, cap, rows, l, b, c, n);
      if m != m' || i != i' {
        Apart(rows, m, i, m', i');
      }
    }
  }

  lemma {:induction false} DescAppend(nodes: seq<NodeData>, cap: nat, rows: seq<Row>, l: nat, a: nat, b: nat, c: nat)
    requires TopOK(nodes, cap, rows) && l < |rows| && a <= b <= c <= |rows[l]|
    ensures Desc(nodes, rows, l, a, c) == Desc(nodes, rows, l, a, b) + Desc(nodes, rows, l, b, c)
    decreases |rows| - l
  {
    hide Flat, Off, RowOK, Distinct;
    IdsAppend(rows[l], a, b, c);
    if l + 1 < |rows| {
      assert Linked(nodes, cap, rows, l);
      OffMonotone(nodes, rows[l], a, b);
      OffMonotone(nodes, rows[l], b, c);
      DescAppend(nodes, cap, rows, l + 1, Off(nodes, rows[l], a), Off(nodes, rows[l], b), Off(nodes, rows[l], c));
    }
  }

  lemma IdsAppend(row: Row, a: nat, b: nat, c: nat)
    requires a <= b <= c <= |row|
    ensures Ids(row[a..c]) == Ids(row[a..b]) + Ids(row[b..c])
  {
    var s, t, u := row[a..c], row[a..b], row[b..c];
    assert forall i | 0 <= i < |t| :: t[i] == s[i];
    assert forall i | 0 <= i < |u| :: u[i] == s[i + (b - a)];
    forall i | 0 <= i < |s| ensures s[i].node in Ids(t) + Ids(u) {
      if i < b - a {
        assert t[i] == s[i];
      } else {
        assert u[i - (b - a)] == s[i];
      }
    }
    forall n | n in Ids(u) ensures n in Ids(s) {
      var i :| 0 <= i < |u| && u[i].node == n;
      assert s[i + (b - a)].node == n;
    }
    forall n | n in Ids(t) ensures n in Ids(s) {
      var i :| 0 <= i < |t| && t[i].node == n;
      assert s[i].node == n;
    }
  }

  lemma {:induction false} DescNone(nodes: seq<NodeData>, rows: seq<Row>, l: nat, a: nat)
    ensures Desc(nodes, rows, l, a, a) == {}
    decreases |rows| - l
  {
    hide Flat, Off;
    if l < |rows| && a <= |rows[l]| {
      DescNone(nodes, rows, l + 1, Off(nodes, rows[l], a));
    }
  }

  /** The sub-trees of a whole row are all nodes from there down. */
  lemma {:induction false} DescAll(nodes: seq<NodeData>, cap: nat, rows: seq<Row>, l: nat)
    requires TopOK(nodes, cap, rows) && l < |rows|
    ensures Desc(nodes, rows, l, 0, |rows[l]|) == AllIds(rows[l..])
    decreases |rows| - l
  {
    hide Flat, Off, RowOK, Distinct, AllIds;
    var row := rows[l];
    assert row[0..|row|] == row;
    SplitIds(rows[l..], 1);
    assert rows[l..][..1] == [row] && rows[l..][1..] == rows[l + 1..];
    OneRowIds(row);
    OffZero(nodes, row);
    OffEnd(nodes, row, |row|);
    if l + 1 < |rows| {
      assert Linked(nodes, cap, rows, l);
      DescAll(nodes, cap, rows, l + 1);
    } else {
      NoIds(rows[l + 1..]);
    }
  }

  lemma OneRowIds(row: Row)
    ensures AllIds([row]) == Ids(row)
  {
    assert [row][..0] == [];
  }

  /** Item `i` of row `l` and the sub-trees of its slots make up its sub-tree. */
  lemma DescItem(nodes: seq<NodeData>, rows: seq<Row>, l: nat, i: nat)
    requires l < |rows| && i < |rows[l]|
    ensures Desc(nodes, rows, l, i, i + 1) == {rows[l][i].node} + Desc(nodes, rows, l + 1, Off(nodes, rows[l], i),
            Off(nodes, rows[l], i + 1))
  {
    hide Flat, Off;
    assert rows[l][i..i + 1] == [rows[l][i]];
    assert Ids([rows[l][i]]) == {rows[l][i].node};
  }

  /** The node of an item is not among the sub-trees below it. */
  lemma DescBelow(nodes: seq<NodeData>, cap: nat, rows: seq<Row>, l: nat, i: nat)
    requires TopOK(nodes, cap, rows) && l + 1 < |rows| && i < |rows[l]|
    ensures Off(nodes, rows[l], i) <= Off(nodes, rows[l], i + 1) <= |rows[l + 1]|
    ensures rows[l][i].node !in Desc(nodes, rows, l + 1, Off(nodes, rows[l], i), Off(nodes, rows[l], i + 1))
  {
    hide Flat, Off, RowOK, Distinct, Desc, OffTo;
    TopDistinct(nodes, cap, rows);
    assert Linked(nodes, cap, rows, l);
    OffMonotone(nodes, rows[l], i, i + 1);
    var n, a, b := rows[l][i].node, Off(nodes, rows[l], i), Off(nodes, rows[l], i + 1);
    if n in Desc(nodes, rows, l + 1, a, b) {
      var m, j := DescFind(nodes, cap, rows, l + 1, a, b, n);
      Apart(rows, m, j, l, i);
    }
  }

  /** The nodes in `gone` were freed, all others are as before. */
  ghost predicate Freed(nodes: seq<NodeData>, nodes': seq<NodeData>, gone: set<Node>) {
    && |nodes'| == |nodes|
    && (forall n | n in gone :: n < |nodes| && nodes'[n].Free?)
    && (forall n | 0 <= n < |nodes| && n !in gone :: nodes'[n] == nodes[n])
  }

  ghost predicate SameOn(n0: seq<NodeData>, nodes: seq<NodeData>, ids: set<Node>) {
    |nodes| == |n0| && forall n | n in ids :: n < |n0| && nodes[n] == n0[n]
  }

  lemma SameRest(n0: seq<NodeData>, start: seq<NodeData>, nodes: seq<NodeData>, gone: set<Node>, next: set<Node>,
      all: set<Node>)
    requires SameOn(n0, start, all) && Freed(start, nodes, gone) && next <= all && gone !! next
    ensures SameOn(n0, nodes, next)
  {
  }

  lemma FreedMore(a: seq<NodeData>, b: seq<NodeData>, c: seq<NodeData>, s: set<Node>, t: set<Node>)
    requires Freed(a, b, s) && Freed(b, c, t)
    ensures Freed(a, c, s + t)
  {
  }

  /** Free the sub-tree rooted at `node`, item `i` of row `l`: exactly its nodes, each once. */
  method FreeTree(node: Node, pool: NodePool, ghost n0: seq<NodeData>, ghost rows: seq<Row>, ghost l: nat, ghost i: nat)
    requires pool.Valid() && TreeOK(n0, pool.cap, rows) && l < |rows| && i < |rows[l]| && rows[l][i].node == node
    requires |pool.nodes| == |n0| && SameOn(n0, pool.nodes, Desc(n0, rows, l, i, i + 1))
    modifies pool
    ensures pool.Valid() && Freed(old(pool.nodes), pool.nodes, Desc(n0, rows, l, i, i + 1))
    decreases |rows| - l
  {
    hide Flat, Off, Exp, RowOK, TopOK, TreeOK, Distinct, FreeList, Desc;
    TreeParts(n0, pool.cap, rows);
    RowKind(n0, pool.cap, rows, l, i);
    DescItem(n0, rows, l, i);
    ghost var below := Desc(n0, rows, l + 1, Off(n0, rows[l], i), Off(n0, rows[l], i + 1));
    if pool.nodes[node].Inner? {
      var tree := pool.nodes[node].tree;
      DescBelow(n0, pool.cap, rows, l, i);
      FreeChildren(tree, pool, n0, rows, l, i);
      pool.FreeNode(node);
    } else {
      DescPast(n0, rows, l + 1, Off(n0, rows[l], i), Off(n0, rows[l], i + 1));
      pool.FreeNode(node);
    }
  }

  method FreeChildren(tree: seq<Node>, pool: NodePool, ghost n0: seq<NodeData>, ghost rows: seq<Row>, ghost l: nat,
      ghost i: nat)
    requires pool.Valid() && TreeOK(n0, pool.cap, rows) && l + 1 < |rows| && i < |rows[l]|
    requires rows[l][i].node < |n0| && n0[rows[l][i].node].Inner? && tree == n0[rows[l][i].node].tree
    requires |pool.nodes| == |n0|
    requires SameOn(n0, pool.nodes, Desc(n0, rows, l + 1, Off(n0, rows[l], i), Off(n0, rows[l], i + 1)))
    modifies pool
    ensures pool.Valid() && Freed(old(pool.nodes), pool.nodes,
            Desc(n0, rows, l + 1, Off(n0, rows[l], i), Off(n0, rows[l], i + 1)))
    decreases |rows| - l, 0
  {
    hide Flat, Off, Exp, RowOK, TopOK, TreeOK, Distinct, FreeList, Desc, Freed;
    ghost var a, b, m := Off(n0, rows[l], i), Off(n0, rows[l], i + 1), l + 1;
    ghost var start := pool.nodes;
    ChildRange(n0, pool.cap, rows, l, i);
    DescNone(n0, rows, m, a);
    FreedNone(start);
    for k := 0 to |tree|
      invariant pool.Valid() && Freed(start, pool.nodes, Desc(n0, rows, m, a, a + k))
    {
      ChildFree(n0, start, pool.nodes, pool.cap, rows, l, i, k);
      ghost var before := pool.nodes;
      FreeTree(tree[k], pool, n0, rows, m, a + k);
      FreedMore(start, before, pool.nodes, Desc(n0, rows, m, a, a + k), Desc(n0, rows, m, a + k, a + k + 1));
    }
  }

  lemma FreedNone(nodes: seq<NodeData>)
    ensures Freed(nodes, nodes, {})
  {
  }

  lemma DescPast(nodes: seq<NodeData>, rows: seq<Row>, l: nat, a: nat, b: nat)
    requires l >= |rows|
    ensures Desc(nodes, rows, l, a, b) == {}
  {
  }

  lemma ChildRange(nodes: seq<NodeData>, cap: nat, rows: seq<Row>, l: nat, i: nat)
    requires TreeOK(nodes, cap, rows) && l + 1 < |rows| && i < |rows[l]|
    ensures rows[l][i].node < |nodes| && nodes[rows[l][i].node].Inner?
    ensures Off(nodes, rows[l], i + 1) == Off(nodes, rows[l], i) + |nodes[rows[l][i].node].tree| <= |rows[l + 1]|
  {
    hide Flat, Off, RowOK, Distinct, Ascending;
    InnerSlots(nodes, cap, rows, l, i);
    assert Linked(nodes, cap, rows, l);
    FlatSplit(nodes, rows[l], i);
  }

  /** The next child to free is still as it was. */
  lemma ChildFree(n0: seq<NodeData>, start: seq<NodeData>, nodes: seq<NodeData>, cap: nat, rows: seq<Row>, l: nat,
      i: nat, k: nat)
    requires TreeOK(n0, cap, rows) && l + 1 < |rows| && i < |rows[l]| && |start| == |n0|
    requires rows[l][i].node < |n0| && n0[rows[l][i].node].Inner? && k < |n0[rows[l][i].node].tree|
    requires SameOn(n0, start, Desc(n0, rows, l + 1, Off(n0, rows[l], i), Off(n0, rows[l], i + 1)))
    requires Freed(start, nodes, Desc(n0, rows, l + 1, Off(n0, rows[l], i), Off(n0, rows[l], i) + k))
    ensures var a := Off(n0, rows[l], i) + k;
            && a < |rows[l + 1]| && rows[l + 1][a].node == n0[rows[l][i].node].tree[k]
            && SameOn(n0, nodes, Desc(n0, rows, l + 1, a, a + 1))
            && Desc(n0, rows, l + 1, Off(n0, rows[l], i), a + 1) ==
                Desc(n0, rows, l + 1, Off(n0, rows[l], i), a) + Desc(n0, rows, l + 1, a, a + 1)
            && |nodes| == |n0|
  {
    hide Flat, Off, RowOK, Distinct, Desc, TopOK, TreeOK;
    TreeParts(n0, cap, rows);
    var o, m := Off(n0, rows[l], i), l + 1;
    var b := Off(n0, rows[l], i + 1);
    ChildRange(n0, cap, rows, l, i);
    InnerSlots(n0, cap, rows, l, i);
    ChildAt(n0, cap, rows, l, i, k);
    DescAppend(n0, cap, rows, m, o, o + k, o + k + 1);
    DescAppend(n0, cap, rows, m, o, o + k + 1, b);
    DescDisjoint(n0, cap, rows, m, o, o + k, o + k + 1);
    SameRest(n0, start, nodes, Desc(n0, rows, m, o, o + k), Desc(n0, rows, m, o + k, o + k + 1),
        Desc(n0, rows, m, o, b));
  }

  lemma ChildAt(nodes: seq<NodeData>, cap: nat, rows: seq<Row>, l: nat, i: nat, k: nat)
    requires TopOK(nodes, cap, rows) && l + 1 < |rows| && i < |rows[l]|
    requires rows[l][i].node < |nodes| && nodes[rows[l][i].node].Inner? && k < |nodes[rows[l][i].node].tree|
    ensures Off(nodes, rows[l], i) + k < |rows[l + 1]| && rows[l + 1][Off(nodes, rows[l], i) + k].node ==
            nodes[rows[l][i].node].tree[k]
  {
    hide Flat, Off, RowOK, Distinct;
    InnerSlots(nodes, cap, rows, l, i);
    assert Linked(nodes, cap, rows, l);
    FlatAt(nodes, rows[l], i, k);
  }
}
