/** Searching a tree, and stepping along its entries. */
module BforestFind {
  import opened BforestNode
  import opened BforestShape
  import opened BforestPos
  import opened BforestBalance
  import opened BforestSteps
  import opened BforestRemove

  // ----- critical keys are in order -----

  /** The critical keys of a row ascend; the first item has none. */
  ghost predicate CritsAscend(row: Row) {
    forall i, j | 0 < i < j < |row| :: row[i].crit < row[j].crit
  }

  lemma LeafCrits(nodes: seq<NodeData>, cap: nat, rows: seq<Row>)
    requires TreeOK(nodes, cap, rows)
    ensures CritsAscend(Last(rows))
  {
    hide Flat, Off, Distinct;
    var row := Last(rows);
    forall i, j | 0 < i < j < |row| ensures row[i].crit < row[j].crit {
      LeafFirst(nodes, cap, rows, i);
      LeafFirst(nodes, cap, rows, j);
      OffStrict(nodes, cap, true, row, i, j);
    }
  }

  /** The critical key of a leaf is its first key. */
  lemma LeafFirst(nodes: seq<NodeData>, cap: nat, rows: seq<Row>, i: nat)
    requires TreeOK(nodes, cap, rows) && i < |Last(rows)|
    ensures Off(nodes, Last(rows), i) < |Content(nodes, rows)|
    ensures i > 0 ==> Content(nodes, rows)[Off(nodes, Last(rows), i)].crit == Last(rows)[i].crit
  {
    hide Flat, Off, Distinct;
    var row := Last(rows);
    assert ItemOK(nodes, cap, true, row, i) && Occupied(nodes, cap, row, i);
    ExpSize(nodes, cap, true, row, i);
    FlatAt(nodes, row, i, 0);
  }

  lemma OffStrict(nodes: seq<NodeData>, cap: nat, leaf: bool, row: Row, i: nat, j: nat)
    requires RowOK(nodes, cap, leaf, row, -1) && i < j < |row|
    ensures Off(nodes, row, i) < Off(nodes, row, j)
  {
    hide Flat, Off, RowOK, Exp;
    RowFirst(nodes, cap, leaf, row, i);
    FlatSplit(nodes, row, i);
    OffMonotone(nodes, row, i + 1, j);
  }

  lemma {:induction false} RowCrits(nodes: seq<NodeData>, cap: nat, rows: seq<Row>, l: nat)
    requires TreeOK(nodes, cap, rows) && l < |rows|
    ensures CritsAscend(rows[l])
    decreases |rows| - l
  {
    hide Flat, Off, RowOK, Distinct;
    if l == |rows| - 1 {
      LeafCrits(nodes, cap, rows);
    } else {
      RowCrits(nodes, cap, rows, l + 1);
      assert Linked(nodes, cap, rows, l);
      var row, row' := rows[l], rows[l + 1];
      forall i, j | 0 < i < j < |row| ensures row[i].crit < row[j].crit {
        FirstSlot(nodes, cap, rows, l, i);
        FirstSlot(nodes, cap, rows, l, j);
        OffStrict(nodes, cap, false, row, 0, i);
        OffStrict(nodes, cap, false, row, i, j);
      }
    }
  }

  ghost predicate KeysAscend(keys: seq<Key>) {
    forall i, j | 0 <= i < j < |keys| :: keys[i] < keys[j]
  }

  /** The keys of an inner node ascend. */
  lemma InnerKeysAscend(nodes: seq<NodeData>, cap: nat, rows: seq<Row>, l: nat, p: nat)
    requires TreeOK(nodes, cap, rows) && l + 1 < |rows| && p < |rows[l]|
    ensures rows[l][p].node < |nodes| && nodes[rows[l][p].node].Inner? && KeysAscend(nodes[rows[l][p].node].keys)
  {
    hide Flat, Off, Exp, Linked, Distinct, Ascending, TopOK;
    TreeParts(nodes, cap, rows);
    InnerSlots(nodes, cap, rows, l, p);
    RowCrits(nodes, cap, rows, l + 1);
    var keys := nodes[rows[l][p].node].keys;
    forall i, j | 0 <= i < j < |keys| ensures keys[i] < keys[j] {
      KeySlot(nodes, cap, rows, l, p, i);
      KeySlot(nodes, cap, rows, l, p, j);
    }
  }

  lemma KeySlot(nodes: seq<NodeData>, cap: nat, rows: seq<Row>, l: nat, p: nat, i: nat)
    requires TopOK(nodes, cap, rows) && l + 1 < |rows| && p < |rows[l]|
    requires rows[l][p].node < |nodes| && nodes[rows[l][p].node].Inner? && i < |nodes[rows[l][p].node].keys|
    ensures Off(nodes, rows[l], p) + i + 1 < |rows[l + 1]|
    ensures rows[l + 1][Off(nodes, rows[l], p) + i + 1].crit == nodes[rows[l][p].node].keys[i]
  {
    hide Flat, Off, RowOK, Distinct;
    InnerSlots(nodes, cap, rows, l, p);
    assert Linked(nodes, cap, rows, l);
    FlatAt(nodes, rows[l], p, i + 1);
  }

  /** The keys of a leaf ascend. */
  lemma LeafKeysAscend(nodes: seq<NodeData>, cap: nat, rows: seq<Row>, p: nat)
    requires TreeOK(nodes, cap, rows) && p < |Last(rows)|
    ensures Last(rows)[p].node < |nodes| && nodes[Last(rows)[p].node].Leaf?
            && KeysAscend(nodes[Last(rows)[p].node].keys)
  {
    hide Flat, Off, RowOK, Distinct;
    LeafAt(nodes, cap, rows, p);
    var keys := nodes[Last(rows)[p].node].keys;
    forall i, j | 0 <= i < j < |keys| ensures keys[i] < keys[j] {
      FlatAt(nodes, Last(rows), p, i);
      FlatAt(nodes, Last(rows), p, j);
    }
  }

  // ----- searching -----

  /** Position of `key` among ascending keys, or where to insert it. */
  datatype Found = Ok(index: nat) | Err(index: nat)

  ghost predicate SearchResult(keys: seq<Key>, key: Key, r: Found) {
    && r.index <= |keys|
    && (r.Ok? ==> r.index < |keys| && keys[r.index] == key)
    && (forall i | 0 <= i < r.index :: keys[i] < key)
    && (forall i | r.index + (if r.Ok? then 1 else 0) <= i < |keys| :: key < keys[i])
  }

  /** A comparator: negative for less, zero for equal, positive for greater. */
  ghost predicate TotalOrder<K(!new)>(cmp: (K, K) -> int) {
    && (forall a, b :: cmp(a, b) < 0 <==> cmp(b, a) > 0)
    && (forall a, b, c | cmp(a, b) <= 0 && cmp(b, c) < 0 :: cmp(a, c) < 0)
    && (forall a, b, c | cmp(a, b) < 0 && cmp(b, c) <= 0 :: cmp(a, c) < 0)
  }

  /** Binary search in keys that ascend by any comparator. */
  method SearchBy<K(!new)>(cmp: (K, K) -> int, key: K, keys: seq<K>) returns (r: Found)
    requires TotalOrder(cmp) && forall i, j | 0 <= i < j < |keys| :: cmp(keys[i], keys[j]) < 0
    ensures r.index <= |keys| && (r.Ok? ==> r.index < |keys| && cmp(keys[r.index], key) == 0)
    ensures forall i | 0 <= i < r.index :: cmp(keys[i], key) < 0
    ensures forall i | r.index + (if r.Ok? then 1 else 0) <= i < |keys| :: cmp(keys[i], key) > 0
  {
    var lo, hi := 0, |keys|;
    while lo < hi
      invariant 0 <= lo <= hi <= |keys|
      invariant forall i | 0 <= i < lo :: cmp(keys[i], key) < 0
      invariant forall i | hi <= i < |keys| :: cmp(keys[i], key) > 0
    {
      var mid := lo + (hi - lo) / 2;
      var c := cmp(keys[mid], key);
      if c == 0 {
        return Ok(mid);
      } else if c < 0 {
        lo := mid + 1;
      } else {
        hi := mid;
      }
    }
    r := Err(lo);
  }

  /** Binary search in the keys of a node. */
  method Search(key: Key, keys: seq<Key>) returns (r: Found)
    requires KeysAscend(keys)
    ensures SearchResult(keys, key, r)
  {
    r := SearchBy((a: Key, b: Key) => a - b, key, keys);
  }

  /** `key` belongs under item `p` of the row. */
  ghost predicate Under(row: Row, p: nat, key: Key) {
    && p < |row|
    && (p > 0 ==> row[p].crit <= key)
    && (p + 1 < |row| ==> key < row[p + 1].crit)
  }

  /** Slot `c` of item `p` is the item of the next row that `key` belongs under. */
  ghost predicate UnderChild(nodes: seq<NodeData>, row: Row, below: Row, p: nat, key: Key, c: nat) {
    && p < |row| && row[p].node < |nodes| && nodes[row[p].node].Inner?
    && c < |Exp(nodes, row[p])| && c < |nodes[row[p].node].tree|
    && Under(below, Off(nodes, row, p) + c, key)
    && below[Off(nodes, row, p) + c].node == nodes[row[p].node].tree[c]
  }

  /** Following the branch found in an inner node, `key` belongs under the item reached. */
  lemma UnderStep(nodes: seq<NodeData>, cap: nat, rows: seq<Row>, l: nat, p: nat, key: Key, r: Found)
    requires TopOK(nodes, cap, rows) && l + 1 < |rows| && Under(rows[l], p, key)
    requires rows[l][p].node < |nodes| && nodes[rows[l][p].node].Inner?
             && SearchResult(nodes[rows[l][p].node].keys, key, r)
    ensures UnderChild(nodes, rows[l], rows[l + 1], p, key, if r.Ok? then r.index + 1 else r.index)
  {
    hide Flat, Off, RowOK, Distinct;
    InnerSlots(nodes, cap, rows, l, p);
    assert Linked(nodes, cap, rows, l);
    var d := nodes[rows[l][p].node];
    var c := if r.Ok? then r.index + 1 else r.index;
    var q := Off(nodes, rows[l], p) + c;
    FlatAt(nodes, rows[l], p, c);
    FlatSplit(nodes, rows[l], p);
    if c == 0 && q > 0 {
      if p == 0 {
        OffZero(nodes, rows[l]);
      }
    }
    if c + 1 < |d.tree| {
      FlatAt(nodes, rows[l], p, c + 1);
    } else if p + 1 < |rows[l]| {
      FirstSlot(nodes, cap, rows, l, p + 1);
    } else {
      OffEnd(nodes, rows[l], p + 1);
    }
  }

  lemma OffZero(nodes: seq<NodeData>, row: Row)
    ensures Off(nodes, row, 0) == 0
  {
    FlatNil(nodes, row[..0]);
  }

  /** Entry `t` is where `key` is, or where it belongs. */
  ghost predicate At(content: Row, key: Key, t: nat, found: bool) {
    && t <= |content|
    && (found ==> t < |content| && content[t].crit == key)
    && (forall i | 0 <= i < t :: content[i].crit < key)
    && (forall i | t + (if found then 1 else 0) <= i < |content| :: key < content[i].crit)
  }

  /** The search in the leaf that `key` belongs under settles where it is among all entries. */
  lemma LeafSearch(nodes: seq<NodeData>, cap: nat, rows: seq<Row>, p: nat, key: Key, r: Found)
    requires TreeOK(nodes, cap, rows) && Under(Last(rows), p, key)
    requires Last(rows)[p].node < |nodes| && nodes[Last(rows)[p].node].Leaf?
             && SearchResult(nodes[Last(rows)[p].node].keys, key, r)
    ensures At(Content(nodes, rows), key, Off(nodes, Last(rows), p) + r.index, r.Ok?)
    ensures r.index <= |Exp(nodes, Last(rows)[p])| && (r.Ok? ==> r.index < |Exp(nodes, Last(rows)[p])|)
    ensures r.index == 0 && r.Err? ==> p == 0
    ensures r.Ok? ==>
              r.index < |nodes[Last(rows)[p].node].vals|
              && Content(nodes, rows)[Off(nodes, Last(rows), p) + r.index] ==
              Item(key, nodes[Last(rows)[p].node].vals[r.index])
  {
    hide Flat, Off, RowOK, TopOK, Exp;
    TreeParts(nodes, cap, rows);
    var row, s := Last(rows), Content(nodes, rows);
    var a := Off(nodes, row, p);
    LeafEntries(nodes, cap, rows, p);
    LeafFirst(nodes, cap, rows, p);
    var keys := nodes[row[p].node].keys;
    if p == 0 {
      OffZero(nodes, row);
    }
    if p + 1 < |row| {
      LeafFirst(nodes, cap, rows, p + 1);
    } else {
      OffEnd(nodes, row, p + 1);
    }
    forall i | 0 <= i < a + r.index ensures s[i].crit < key {
      if i >= a {
        assert s[a + (i - a)].crit == keys[i - a];
      }
    }
    forall i | a + r.index + (if r.Ok? then 1 else 0) <= i < |s| ensures key < s[i].crit {
      if i < a + |keys| {
        assert s[a + (i - a)].crit == keys[i - a];
      }
    }
    if p > 0 {
      LeafFull(nodes, cap, rows, p);
      assert s[a + 0].crit == keys[0] && s[a].crit == row[p].crit;
    }
  }

  /** The entries of leaf `p` among all entries. */
  lemma LeafEntries(nodes: seq<NodeData>, cap: nat, rows: seq<Row>, p: nat)
    requires TreeOK(nodes, cap, rows) && p < |Last(rows)| && Last(rows)[p].node < |nodes|
             && nodes[Last(rows)[p].node].Leaf?
    ensures var d, a, s := nodes[Last(rows)[p].node], Off(nodes, Last(rows), p), Content(nodes, rows);
            && |d.vals| == |d.keys| == |Exp(nodes, Last(rows)[p])| && a + |d.keys| ==
                Off(nodes, Last(rows), p + 1) <= |s|
            && forall i | 0 <= i < |d.keys| :: s[a + i] == Item(d.keys[i], d.vals[i])
  {
    hide Flat, Off, RowOK, TopOK, Ascending;
    TreeParts(nodes, cap, rows);
    var row := Last(rows);
    LeafAt(nodes, cap, rows, p);
    FlatSplit(nodes, row, p);
    var d, a, s := nodes[row[p].node], Off(nodes, row, p), Content(nodes, rows);
    forall i | 0 <= i < |d.keys| ensures a + i < |s| && s[a + i] == Item(d.keys[i], d.vals[i]) {
      FlatAt(nodes, row, p, i);
    }
  }

  lemma LeafFull(nodes: seq<NodeData>, cap: nat, rows: seq<Row>, p: nat)
    requires TreeOK(nodes, cap, rows) && p < |Last(rows)|
    ensures Last(rows)[p].node < |nodes| && nodes[Last(rows)[p].node].Leaf? && nodes[Last(rows)[p].node].keys != []
  {
    assert ItemOK(nodes, cap, true, Last(rows), p) && Occupied(nodes, cap, Last(rows), p);
  }

  /** Where an absent key belongs, inserting it keeps the order. */
  lemma AtInsert(content: Row, key: Key, value: Value, t: nat)
    requires Ascending(content) && At(content, key, t, false)
    ensures Ascending(InsertAt(content, t, Item(key, value)))
  {
  }

  // ----- going down -----

  /** The path is complete above `level` and leads to node `n`, item `pos[level]` of row `level`. */
  ghost predicate Descent(nodes: seq<NodeData>, rows: seq<Row>, node: seq<Node>, entry: seq<nat>, pos: seq<nat>,
      level: nat, n: Node) {
    && level < |rows| && |pos| == level + 1 && level < |node| == |entry| && pos[0] == 0
    && (forall l | 0 <= l < level :: pos[l] < |rows[l]| && rows[l][pos[l]].node == node[l])
    && (forall l | 0 <= l < level :: StepDown(nodes, rows, entry, pos, l))
    && pos[level] < |rows[level]| && rows[level][pos[level]].node == n
  }

  /** One level further down, through entry `c`. */
  lemma DescentStep(nodes: seq<NodeData>, cap: nat, rows: seq<Row>, node: seq<Node>, entry: seq<nat>, pos: seq<nat>,
      level: nat, n: Node, c: nat, node': seq<Node>, entry': seq<nat>)
    requires TopOK(nodes, cap, rows) && level + 1 < |rows| <= |node| && Descent(nodes, rows, node, entry, pos, level, n)
    requires n < |nodes| && nodes[n].Inner? && c < |nodes[n].tree|
    requires node' == node[level := n] && entry' == entry[level := c]
    ensures Descent(nodes, rows, node', entry', pos + [Off(nodes, rows[level], pos[level]) + c], level + 1,
            nodes[n].tree[c])
  {
    hide Flat, Off, RowOK, Distinct;
    var pos' := pos + [Off(nodes, rows[level], pos[level]) + c];
    InnerSlots(nodes, cap, rows, level, pos[level]);
    assert Linked(nodes, cap, rows, level);
    FlatAt(nodes, rows[level], pos[level], c);
    forall l | 0 <= l < level + 1 ensures StepDown(nodes, rows, entry', pos', l) {
      if l < level {
        assert StepDown(nodes, rows, entry, pos, l);
      }
    }
  }

  lemma DescentPath(nodes: seq<NodeData>, rows: seq<Row>, node: seq<Node>, entry: seq<nat>, pos: seq<nat>, level: nat,
      n: Node, node': seq<Node>, entry': seq<nat>)
    requires Descent(nodes, rows, node, entry, pos, level, n)
    requires node' == node[level := n] && |entry'| == |entry| && forall l | 0 <= l < level :: entry'[l] == entry[l]
    ensures OnPath(nodes, rows, node', entry', pos, level)
  {
    hide Flat, Off, Exp;
    forall l | 0 <= l < level ensures StepDown(nodes, rows, entry', pos, l) {
      assert StepDown(nodes, rows, entry, pos, l);
    }
  }

  /** The kind of the nodes in a row. */
  lemma RowKind(nodes: seq<NodeData>, cap: nat, rows: seq<Row>, l: nat, p: nat)
    requires TreeOK(nodes, cap, rows) && l < |rows| && p < |rows[l]|
    ensures rows[l][p].node < |nodes| && !nodes[rows[l][p].node].Free?
    ensures nodes[rows[l][p].node].Leaf? <==> l == |rows| - 1
    ensures nodes[rows[l][p].node].Inner? ==> 0 < |nodes[rows[l][p].node].tree| == |nodes[rows[l][p].node].keys| + 1
    ensures |Exp(nodes, rows[l][p])| == Slots(nodes[rows[l][p].node]) > 0
    ensures nodes[rows[l][p].node].Leaf? ==> |nodes[rows[l][p].node].keys| == |nodes[rows[l][p].node].vals|
  {
    hide Flat, Distinct, Ascending;
    if l < |rows| - 1 {
      InnerSlots(nodes, cap, rows, l, p);
    } else {
      LeafAt(nodes, cap, rows, p);
      LeafFull(nodes, cap, rows, p);
    }
  }

  // ----- counting entries -----

  /** The number of entries under the first `k` items of row `l`. */
  ghost function Upto(nodes: seq<NodeData>, rows: seq<Row>, l: nat, k: nat): nat
    decreases |rows| - l
  {
    if l >= |rows| then k
    else if k > |rows[l]| then 0
    else Upto(nodes, rows, l + 1, Off(nodes, rows[l], k))
  }

  lemma {:induction false} UptoAll(nodes: seq<NodeData>, cap: nat, rows: seq<Row>, l: nat)
    requires TopOK(nodes, cap, rows) && l < |rows|
    ensures Upto(nodes, rows, l, |rows[l]|) == |Content(nodes, rows)|
    decreases |rows| - l
  {
    hide Flat, Off, RowOK, Distinct;
    OffEnd(nodes, rows[l], |rows[l]|);
    if l + 1 < |rows| {
      assert Linked(nodes, cap, rows, l);
      UptoAll(nodes, cap, rows, l + 1);
    }
  }

  /** Along first sub-trees the number of entries to the left stays the same. */
  lemma {:induction false} UptoFirst(nodes: seq<NodeData>, rows: seq<Row>, pos: seq<nat>, from: nat)
    requires rows != [] && from < |rows| && FirstChain(nodes, rows, pos, from, |rows| - 1)
    ensures Off(nodes, Last(rows), pos[|rows| - 1]) == Upto(nodes, rows, from, pos[from])
    decreases |rows| - from
  {
    hide Flat, Off;
    if from < |rows| - 1 {
      assert FirstStep(nodes, rows, pos, from);
      UptoFirst(nodes, rows, pos, from + 1);
    }
  }

  /** An entry of a leaf among all entries. */
  lemma LeafItem(nodes: seq<NodeData>, cap: nat, rows: seq<Row>, p: nat, e: nat)
    requires TreeOK(nodes, cap, rows) && p < |Last(rows)| && e < |Exp(nodes, Last(rows)[p])|
    ensures Last(rows)[p].node < |nodes| && nodes[Last(rows)[p].node].Leaf?
    ensures e < |nodes[Last(rows)[p].node].keys| == |nodes[Last(rows)[p].node].vals|
    ensures Off(nodes, Last(rows), p) + e < |Content(nodes, rows)|
    ensures Content(nodes, rows)[Off(nodes, Last(rows), p) + e] ==
            Item(nodes[Last(rows)[p].node].keys[e], nodes[Last(rows)[p].node].vals[e])
  {
    hide Flat, Off, RowOK, Distinct, Ascending;
    LeafAt(nodes, cap, rows, p);
    FlatAt(nodes, Last(rows), p, e);
  }

  /** Moving within the leaf does not change the path above it. */
  lemma EntryMoved(nodes: seq<NodeData>, rows: seq<Row>, node: seq<Node>, entry: seq<nat>, entry': seq<nat>,
      pos: seq<nat>, level: nat)
    requires OnPath(nodes, rows, node, entry, pos, level) && |entry'| == |entry| && forall l | 0 <= l < level ::
             entry'[l] == entry[l]
    ensures OnPath(nodes, rows, node, entry', pos, level)
  {
    hide Flat, Off, Exp;
    forall l | 0 <= l < level ensures StepDown(nodes, rows, entry', pos, l) {
      assert StepDown(nodes, rows, entry, pos, l);
    }
  }

  /** One entry to the left at level `bl`. */
  lemma LeftDescent(nodes: seq<NodeData>, cap: nat, rows: seq<Row>, node: seq<Node>, entry: seq<nat>, pos: seq<nat>,
      bl: nat, level: nat, entry': seq<nat>)
    requires TopOK(nodes, cap, rows) && OnPath(nodes, rows, node, entry, pos, level) && bl < level && entry[bl] > 0
    requires entry' == entry[bl := entry[bl] - 1]
    ensures pos[bl + 1] > 0 && node[bl] < |nodes| && nodes[node[bl]].Inner? && entry'[bl] < |nodes[node[bl]].tree|
    ensures Descent(nodes, rows, node, entry', pos[..bl + 1] + [pos[bl + 1] - 1], bl + 1,
            nodes[node[bl]].tree[entry'[bl]])
  {
    hide Flat, Off, RowOK, Distinct;
    InnerSlots(nodes, cap, rows, bl, pos[bl]);
    assert StepDown(nodes, rows, entry, pos, bl) && Linked(nodes, cap, rows, bl);
    var pos' := pos[..bl + 1] + [pos[bl + 1] - 1];
    FlatAt(nodes, rows[bl], pos[bl], entry'[bl]);
    forall l | 0 <= l < bl + 1 ensures StepDown(nodes, rows, entry', pos', l) {
      assert StepDown(nodes, rows, entry, pos, l);
    }
  }
}
