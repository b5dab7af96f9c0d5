/** The entries of a map as a finite map, and changes to single entries. */
module BforestEntries {
  import opened BforestNode
  import opened BforestShape
  import opened BforestPos
  import opened BforestHeal
  import opened BforestRemove
  import opened BforestGrow
  import opened BforestFind

  /** The finite map that ascending entries stand for. */
  ghost function ToMap(s: Row): map<Key, Value>
    requires Ascending(s)
  {
    map i | 0 <= i < |s| :: s[i].crit := s[i].node
  }

  lemma InMap(s: Row, i: nat)
    requires Ascending(s) && i < |s|
    ensures s[i].crit in ToMap(s) && ToMap(s)[s[i].crit] == s[i].node
  {
  }

  lemma FromMap(s: Row, k: Key) returns (i: nat)
    requires Ascending(s) && k in ToMap(s)
    ensures i < |s| && s[i].crit == k && ToMap(s)[k] == s[i].node
  {
    i :| i < |s| && s[i].crit == k;
  }

  lemma AtMember(s: Row, key: Key, t: nat, found: bool)
    requires Ascending(s) && At(s, key, t, found)
    ensures found <==> key in ToMap(s)
    ensures found ==> t < |s| && ToMap(s)[key] == s[t].node
  {
    hide ToMap;
    if found {
      InMap(s, t);
    } else if key in ToMap(s) {
      var i := FromMap(s, key);
    }
  }

  lemma InsertAtIndex(s: Row, t: nat, x: Item)
    requires t <= |s|
    ensures |InsertAt(s, t, x)| == |s| + 1 && InsertAt(s, t, x)[t] == x
    ensures forall i | 0 <= i < t :: InsertAt(s, t, x)[i] == s[i]
    ensures forall i | t <= i < |s| :: InsertAt(s, t, x)[i + 1] == s[i]
  {
  }

  lemma ToMapInsert(s: Row, key: Key, value: Value, t: nat)
    requires Ascending(s) && At(s, key, t, false)
    ensures Ascending(InsertAt(s, t, Item(key, value)))
    ensures ToMap(InsertAt(s, t, Item(key, value))) == ToMap(s)[key := value]
  {
    hide InsertAt, ToMap, Ascending;
    AtInsert(s, key, value, t);
    InsertAtIndex(s, t, Item(key, value));
    AtMember(s, key, t, false);
    var s' := InsertAt(s, t, Item(key, value));
    var m, m' := ToMap(s)[key := value], ToMap(s');
    InMap(s', t);
    forall k | k in m' ensures k in m && m[k] == m'[k] {
      var i := FromMap(s', k);
      if i < t {
        InMap(s, i);
      } else if i > t {
        InMap(s, i - 1);
        assert s'[(i - 1) + 1] == s[i - 1];
      }
    }
    forall k | k in m ensures k in m' {
      if k != key {
        var i := FromMap(s, k);
        InMap(s', if i < t then i else i + 1);
      }
    }
  }

  lemma ToMapRemove(s: Row, t: nat)
    requires Ascending(s) && t < |s|
    ensures Ascending(RemoveAt(s, t))
    ensures ToMap(RemoveAt(s, t)) == ToMap(s) - {s[t].crit}
  {
    hide ToMap;
    RemoveAscending(s, t);
    var s' := RemoveAt(s, t);
    var m, m' := ToMap(s) - {s[t].crit}, ToMap(s');
    forall k | k in m' ensures k in m && m[k] == m'[k] {
      var i := FromMap(s', k);
      InMap(s, DropIndex(t, i));
    }
    forall k | k in m ensures k in m' {
      var i := FromMap(s, k);
      InMap(s', if i < t then i else i - 1);
    }
  }

  lemma ToMapUpdate(s: Row, t: nat, value: Value)
    requires Ascending(s) && t < |s|
    ensures Ascending(s[t := Item(s[t].crit, value)])
    ensures ToMap(s[t := Item(s[t].crit, value)]) == ToMap(s)[s[t].crit := value]
  {
    hide ToMap;
    var s' := s[t := Item(s[t].crit, value)];
    assert forall i | 0 <= i < |s| :: s'[i].crit == s[i].crit;
    var m, m' := ToMap(s)[s[t].crit := value], ToMap(s');
    InMap(s', t);
    forall k | k in m' ensures k in m && m[k] == m'[k] {
      var i := FromMap(s', k);
      InMap(s, i);
    }
    forall k | k in m ensures k in m' {
      if k != s[t].crit {
        var i := FromMap(s, k);
        InMap(s', i);
      }
    }
  }

  /** Ascending entries are determined by the map they stand for. */
  lemma {:induction false} ToMapInjective(s: Row, t: Row)
    requires Ascending(s) && Ascending(t) && ToMap(s) == ToMap(t)
    ensures s == t
    decreases |s|
  {
    hide ToMap;
    if s == [] {
      if t != [] {
        InMap(t, 0);
        var i := FromMap(s, t[0].crit);
      }
    } else {
      InMap(s, 0);
      var j := FromMap(t, s[0].crit);
      InMap(t, 0);
      var i := FromMap(s, t[0].crit);
      assert s[0] == t[0];
      ToMapRemove(s, 0);
      ToMapRemove(t, 0);
      assert RemoveAt(s, 0) == s[1..] && RemoveAt(t, 0) == t[1..];
      ToMapInjective(s[1..], t[1..]);
    }
  }

  // ----- writing a value -----

  ghost predicate Written(nodes: seq<NodeData>, nodes': seq<NodeData>, n: Node, e: nat, value: Value) {
    && n < |nodes| && nodes[n].Leaf? && e < |nodes[n].vals|
    && nodes' == nodes[n := Leaf(nodes[n].keys, nodes[n].vals[e := value])]
  }

  /** Writing a value changes that entry and nothing else of the tree. */
  lemma WriteTree(nodes: seq<NodeData>, nodes': seq<NodeData>, cap: nat, rows: seq<Row>, p: nat, e: nat, value: Value)
    requires TreeOK(nodes, cap, rows) && p < |Last(rows)| && Written(nodes, nodes', Last(rows)[p].node, e, value)
    ensures Off(nodes, Last(rows), p) + e < |Content(nodes, rows)|
    ensures var t := Off(nodes, Last(rows), p) + e; var s := Content(nodes, rows);
            TreeOK(nodes', cap, rows) && Content(nodes', rows) == s[t := Item(s[t].crit, value)]
    ensures Off(nodes', Last(rows), p) == Off(nodes, Last(rows), p) && |Exp(nodes', Last(rows)[p])| ==
            |Exp(nodes, Last(rows)[p])|
    ensures KeptAbove(nodes, nodes', rows)
  {
    hide Flat, Off, RowOK, TopOK, Distinct, Ascending;
    TreeParts(nodes, cap, rows);
    var row := Last(rows);
    KeptAboveLast(nodes, nodes', cap, rows, p);
    WriteFlat(nodes, nodes', cap, rows, p, e, value);
    WriteTop(nodes, nodes', cap, rows);
    WriteRow(nodes, nodes', cap, row, p, e, value);
    TreeRoot(nodes, cap, rows);
    ToMapUpdate(Content(nodes, rows), Off(nodes, row, p) + e, value);
  }

  lemma WriteFlat(nodes: seq<NodeData>, nodes': seq<NodeData>, cap: nat, rows: seq<Row>, p: nat, e: nat, value: Value)
    requires TreeOK(nodes, cap, rows) && p < |Last(rows)| && Written(nodes, nodes', Last(rows)[p].node, e, value)
    ensures Off(nodes, Last(rows), p) + e < |Content(nodes, rows)|
    ensures var t := Off(nodes, Last(rows), p) + e;
              var s := Content(nodes, rows); Content(nodes', rows) == s[t := Item(s[t].crit, value)]
    ensures Off(nodes', Last(rows), p) == Off(nodes, Last(rows), p) && |Exp(nodes', Last(rows)[p])| ==
            |Exp(nodes, Last(rows)[p])|
  {
    hide Flat, RowOK, Distinct, Ascending;
    var row, l := Last(rows), |rows| - 1;
    LeafAt(nodes, cap, rows, p);
    FlatAt(nodes, row, p, e);
    FlatSplit(nodes, row, p);
    forall i | 0 <= i < |row| && i != p ensures Exp(nodes, row[i]) == Exp(nodes', row[i]) {
      Apart(rows, l, i, l, p);
    }
    FlatReplace(nodes, nodes', row, row, p);
    var b := Exp(nodes, row[p]);
    assert Exp(nodes', row[p]) == b[e := Item(b[e].crit, value)];
    UpdateMiddle(Flat(nodes, row[..p]), b, Flat(nodes, row[p + 1..]), e, Item(b[e].crit, value));
  }

  lemma WriteTop(nodes: seq<NodeData>, nodes': seq<NodeData>, cap: nat, rows: seq<Row>)
    requires TopOK(nodes, cap, rows) && KeptAbove(nodes, nodes', rows) && |nodes'| == |nodes|
    ensures TopOK(nodes', cap, rows)
  {
    hide Flat, RowOK, Distinct;
    forall l | 0 <= l < |rows| - 1 ensures Linked(nodes', cap, rows, l) {
      assert Linked(nodes, cap, rows, l);
      FlatUnchanged(nodes, nodes', rows[l]);
      RowUnchanged(nodes, nodes', cap, false, rows[l], -1);
    }
  }

  lemma WriteRow(nodes: seq<NodeData>, nodes': seq<NodeData>, cap: nat, row: Row, p: nat, e: nat, value: Value)
    requires RowOK(nodes, cap, true, row, -1) && p < |row| && Written(nodes, nodes', row[p].node, e, value)
    ensures RowOK(nodes', cap, true, row, -1)
  {
    forall i | 0 <= i < |row| ensures ItemOK(nodes', cap, true, row, i) && Occupied(nodes', cap, row, i) {
      assert ItemOK(nodes, cap, true, row, i) && Occupied(nodes, cap, row, i);
    }
  }

  // ----- several trees in one pool -----

  /** Whatever happens to one tree, a tree on other nodes keeps its shape and its entries. */
  lemma OtherTree(nodes: seq<NodeData>, nodes': seq<NodeData>, cap: nat, ids: set<Node>, ids': set<Node>,
      rows: seq<Row>)
    requires Owned(nodes, nodes', ids, ids') && TreeOK(nodes, cap, rows) && AllIds(rows) !! ids
    ensures TreeOK(nodes', cap, rows) && Content(nodes', rows) == Content(nodes, rows)
    ensures AllIds(rows) !! ids'
  {
    hide Flat, RowOK, TopOK, Distinct, AllIds, Ascending;
    StartOwned(nodes, cap, rows);
    forall l, i | 0 <= l < |rows| && 0 <= i < |rows[l]| ensures Kept(nodes, nodes', rows[l][i].node) {
      InAllIds(rows, l, i);
    }
    TreeParts(nodes, cap, rows);
    KeptTree(nodes, nodes', cap, rows);
    forall n | n in AllIds(rows) ensures n !in ids' {}
  }
}
