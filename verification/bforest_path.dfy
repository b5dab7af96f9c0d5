/** A path from the root of a B+-tree to a leaf: the cursor of the data structure.

Each method takes the rows of the tree and the positions of the path as ghost arguments and
says how the rows, the entries and the position change.
*/
module BforestPath {
  import opened Options
  import opened BforestNode
  import opened BforestShape
  import opened BforestPos
  import opened BforestPool
  import opened BforestHeal
  import opened BforestBalance
  import opened BforestSteps
  import opened BforestRemove
  import opened BforestSplit
  import opened BforestGrow
  import opened BforestFind
  import opened BforestEntries

  class Path {
    /** Number of levels of the path; zero is the off-the-end position. */
    var size: nat
    var node: seq<Node>
    var entry: seq<nat>

    ghost predicate Arrays()
      reads this
    {
      |node| == MAX_PATH && |entry| == MAX_PATH && size <= MAX_PATH
    }

    constructor ()
      ensures Arrays() && size == 0
    {
      size := 0;
      node := seq(MAX_PATH, _ => 0);
      entry := seq(MAX_PATH, _ => 0);
    }

    /** The deepest level above `level` where the path is not at its last entry. */
    method RightSiblingBranchLevel(level: nat, pool: NodePool) returns (r: Option<nat>)
      requires level <= |node| == |entry|
      requires forall l | 0 <= l < level :: node[l] < |pool.nodes| && pool.nodes[node[l]].Inner?
      ensures r.Some? ==> r.value < level && entry[r.value] < |pool.nodes[node[r.value]].keys|
      ensures forall l | (if r.Some? then r.value + 1 else 0) <= l < level :: entry[l] >= |pool.nodes[node[l]].keys|
    {
      var l: nat := level;
      while l > 0
        invariant l <= level
        invariant forall m | l <= m < level :: entry[m] >= |pool.nodes[node[m]].keys|
      {
        l := l - 1;
        if entry[l] < |pool.nodes[node[l]].keys| {
          return Some(l);
        }
      }
      r := None;
    }

    /** The deepest level above `level` where the path is not at its first entry. */
    method LeftSiblingBranchLevel(level: nat) returns (r: Option<nat>)
      requires level <= |entry|
      ensures r.Some? ==> r.value < level && entry[r.value] != 0
      ensures forall l | (if r.Some? then r.value + 1 else 0) <= l < level :: entry[l] == 0
    {
      var l: nat := level;
      while l > 0
        invariant l <= level
        invariant forall m | l <= m < level :: entry[m] == 0
      {
        l := l - 1;
        if entry[l] != 0 {
          return Some(l);
        }
      }
      r := None;
    }

    /** The right sibling of the node at `level`, with its critical key: the next item of the row. */
    method RightSibling(level: nat, pool: NodePool, ghost rows: seq<Row>, ghost pos: seq<nat>) returns (r: Option<Item>)
      requires TopOK(pool.nodes, pool.cap, rows) && |rows| == level + 1
      requires OnPath(pool.nodes, rows, node, entry, pos, level)
      ensures r == if pos[level] + 1 < |rows[level]| then Some(rows[level][pos[level] + 1]) else None
    {
      hide Flat, Off, Exp, TopOK, StepDown, FirstStep;
      PathInner(pool.nodes, pool.cap, rows, node, entry, pos, level);
      var b := RightSiblingBranchLevel(level, pool);
      match b {
        case None =>
          RightEdge(pool.nodes, pool.cap, rows, node, entry, pos, level);
          r := None;
        case Some(bl) =>
          ghost var q := RightIndices(pool.nodes, pool.cap, rows, node, entry, pos, bl, level);
          BranchCrit(pool.nodes, pool.cap, rows, pos[bl], bl, entry[bl] + 1, q, level);
          var be := entry[bl];
          var critKey := pool.nodes[node[bl]].keys[be];
          var n := pool.nodes[node[bl]].tree[be + 1];
          BranchNode(pool.nodes, pool.cap, rows, pos[bl], bl, be + 1, q, level);
          var l := bl + 1;
          while l < level
            invariant bl + 1 <= l <= level && n == rows[l][q[l]].node
          {
            FirstSlot(pool.nodes, pool.cap, rows, l, q[l]);
            FirstBelow(pool.nodes, rows, q, bl + 1, level, l);
            n := pool.nodes[n].tree[0];
            l := l + 1;
          }
          r := Some(Item(critKey, n));
      }
    }

    /** The critical key of the node at `level`, if it is not the first of its row. */
    method CurrentCritKey(level: nat, pool: NodePool, ghost rows: seq<Row>, ghost pos: seq<nat>)
        returns (r: Option<Key>)
      requires TopOK(pool.nodes, pool.cap, rows) && |rows| == level + 1
      requires OnPath(pool.nodes, rows, node, entry, pos, level)
      ensures r == if pos[level] > 0 then Some(rows[level][pos[level]].crit) else None
    {
      PathInner(pool.nodes, pool.cap, rows, node, entry, pos, level);
      var b := LeftSiblingBranchLevel(level);
      match b {
        case None =>
          LeftEdge(pool.nodes, rows, node, entry, pos, level);
          r := None;
        case Some(bl) =>
          LeftBranch(pool.nodes, pool.cap, rows, node, entry, pos, bl, level);
          BranchCrit(pool.nodes, pool.cap, rows, pos[bl], bl, entry[bl], pos, level);
          BranchPositive(pool.nodes, pool.cap, rows, pos[bl], bl, entry[bl], pos, level);
          r := Some(pool.nodes[node[bl]].keys[entry[bl] - 1]);
      }
    }

    /** Point the path from level `from` to `level` at the first entries below node `n`. */
    method FollowFirst(from: nat, level: nat, n: Node, pool: NodePool, ghost rows: seq<Row>, ghost q: seq<nat>)
        returns (r: Node)
      requires Arrays() && TopOK(pool.nodes, pool.cap, rows) && from <= level < MAX_PATH
      requires FirstChain(pool.nodes, rows, q, from, level) && rows[from][q[from]].node == n
      modifies this
      ensures Arrays() && size == old(size) && r == rows[level][q[level]].node
      ensures forall l | from <= l <= level :: node[l] == rows[l][q[l]].node && entry[l] == 0
      ensures forall l | 0 <= l < from || level < l < MAX_PATH :: node[l] == old(node[l]) && entry[l] == old(entry[l])
    {
      hide Flat, Off, Exp, TopOK;
      r := n;
      var l := from;
      while l < level
        invariant Arrays() && from <= l <= level && r == rows[l][q[l]].node && size == old(size)
        invariant forall m | 0 <= m < from || l <= m < MAX_PATH :: node[m] == old(node[m]) && entry[m] == old(entry[m])
        invariant forall m | from <= m < l :: node[m] == rows[m][q[m]].node && entry[m] == 0
      {
        FirstSlot(pool.nodes, pool.cap, rows, l, q[l]);
        assert FirstStep(pool.nodes, rows, q, l);
        node := node[l := r];
        entry := entry[l := 0];
        r := pool.nodes[r].tree[0];
        l := l + 1;
      }
      node := node[level := r];
      entry := entry[level := 0];
    }

    /** Move to the first entry of the next node of the row at `level`, or off the end. */
    method NextNode(level: nat, pool: NodePool, ghost rows: seq<Row>, ghost pos: seq<nat>)
        returns (r: Option<Node>, ghost pos': seq<nat>)
      requires Arrays() && TopOK(pool.nodes, pool.cap, rows) && level < |rows|
      requires OnPath(pool.nodes, rows, node, entry, pos, level)
      modifies this
      ensures Arrays()
      ensures pos[level] + 1 < |rows[level]| ==>
                && r == Some(rows[level][pos[level] + 1].node)
                && OnPath(pool.nodes, rows, node, entry, pos', level)
                && pos'[level] == pos[level] + 1 && entry[level] == 0 && size == old(size)
                && (forall l | level < l < MAX_PATH :: node[l] == old(node[l]) && entry[l] == old(entry[l]))
      ensures pos[level] + 1 >= |rows[level]| ==>
                r == None && size == 0 && node == old(node) && entry == old(entry)
    {
      hide Flat, Off, Exp, TopOK, StepDown, FirstStep;
      pos' := pos;
      PathInner(pool.nodes, pool.cap, rows, node, entry, pos, level);
      var b := RightSiblingBranchLevel(level, pool);
      match b {
        case None =>
          RightEdge(pool.nodes, pool.cap, rows, node, entry, pos, level);
          size := 0;
          r := None;
        case Some(bl) =>
          ghost var q := RightIndices(pool.nodes, pool.cap, rows, node, entry, pos, bl, level);
          var n, p := MoveRight(bl, level, pool, rows, pos, q);
          r, pos' := Some(n), p;
      }
    }

    /** Move to the first entry of the node at the end of the branch `q`, one entry to the right at `bl`. */
    method MoveRight(bl: nat, level: nat, pool: NodePool, ghost rows: seq<Row>, ghost pos: seq<nat>, ghost q: seq<nat>)
      returns (n: Node, ghost pos': seq<nat>)
      requires Arrays() && TopOK(pool.nodes, pool.cap, rows) && bl < level < |rows| && level < MAX_PATH
      requires OnPath(pool.nodes, rows, node, entry, pos, level)
      requires |q| == level + 1 && Branch(pool.nodes, rows, pos[bl], bl, entry[bl] + 1, q, level)
      modifies this
      ensures Arrays() && size == old(size)
      ensures n == rows[level][q[level]].node && entry[level] == 0
      ensures OnPath(pool.nodes, rows, node, entry, pos', level) && pos'[level] == q[level]
      ensures forall l | level < l < MAX_PATH :: node[l] == old(node[l]) && entry[l] == old(entry[l])
    {
      hide Flat, Off, Exp, TopOK, StepDown, FirstStep;
      BranchNode(pool.nodes, pool.cap, rows, pos[bl], bl, entry[bl] + 1, q, level);
      entry := entry[bl := entry[bl] + 1];
      n := FollowFirst(bl + 1, level, pool.nodes[node[bl]].tree[entry[bl]], pool, rows, q);
      pos' := pos[..bl + 1] + q[bl + 1..];
      NextOnPath(pool.nodes, pool.cap, rows, old(node), old(entry), pos, bl, level, q, node, entry, pos');
    }

    /** Set the critical key of the right sibling of the node at `level`. */
    method UpdateRightCritKey(level: nat, critKey: Key, pool: NodePool, ghost rows: seq<Row>, ghost pos: seq<nat>)
        returns (ghost rows': seq<Row>, ghost bl: nat)
      requires pool.Valid() && TopOK(pool.nodes, pool.cap, rows) && |rows| == level + 1
      requires OnPath(pool.nodes, rows, node, entry, pos, level) && pos[level] + 1 < |rows[level]|
      modifies pool
      ensures pool.Valid() && TopOK(pool.nodes, pool.cap, rows')
      ensures bl < level && KeyChanged(old(pool.nodes), pool.nodes, node[bl])
      ensures forall j | bl < j <= level :: pos[j] + 1 < |rows[j]|
      ensures rows' == SetCrits(rows, Nexts(pos, level), bl, critKey)
      ensures OnPath(pool.nodes, rows', node, entry, pos, level)
    {
      hide Flat, Off, Exp, TopOK, StepDown, FirstStep, FreeList;
      PathInner(pool.nodes, pool.cap, rows, node, entry, pos, level);
      var b := RightSiblingBranchLevel(level, pool);
      if b.None? {
        RightEdge(pool.nodes, pool.cap, rows, node, entry, pos, level);
        assert false;
      }
      bl := b.value;
      ghost var q := RightIndices(pool.nodes, pool.cap, rows, node, entry, pos, bl, level);
      rows' := SetBranchKey(b.value, entry[b.value] + 1, critKey, pool, rows, pos, q);
    }

    /** Write key `e - 1` of the node at level `bl`, the critical key of the branch `q`. */
    method SetBranchKey(bl: nat, e: nat, critKey: Key, pool: NodePool, ghost rows: seq<Row>, ghost pos: seq<nat>,
        ghost q: seq<nat>) returns (ghost rows': seq<Row>)
      requires pool.Valid() && TopOK(pool.nodes, pool.cap, rows)
               && OnPath(pool.nodes, rows, node, entry, pos, |rows| - 1)
      requires bl < |rows| - 1 && Branch(pool.nodes, rows, pos[bl], bl, e, q, |rows| - 1)
      modifies pool
      ensures pool.Valid() && TopOK(pool.nodes, pool.cap, rows')
      ensures KeyChanged(old(pool.nodes), pool.nodes, node[bl]) && |q| >= |rows|
      ensures forall j | bl < j < |rows| :: q[j] < |rows[j]|
      ensures rows' == SetCrits(rows, q, bl, critKey)
      ensures OnPath(pool.nodes, rows', node, entry, pos, |rows| - 1)
    {
      hide Flat, Off, Exp, TopOK, StepDown, FirstStep, FreeList;
      BranchNode(pool.nodes, pool.cap, rows, pos[bl], bl, e, q, |rows| - 1);
      BranchCrit(pool.nodes, pool.cap, rows, pos[bl], bl, e, q, |rows| - 1);
      var d := pool.nodes[node[bl]];
      pool.Put(node[bl], Inner(d.keys[e - 1 := critKey], d.tree));
      rows' := SetCrits(rows, q, bl, critKey);
      SetCritKey(old(pool.nodes), pool.nodes, pool.cap, rows, pos[bl], bl, e, q, critKey);
      KeysOnPath(old(pool.nodes), pool.nodes, pool.cap, rows, rows', node, entry, pos, |rows| - 1, node[bl]);
    }

    /** Set the critical key of the current leaf to its first key, unless it is the first leaf. */
    method UpdateCritKey(pool: NodePool, ghost rows: seq<Row>, ghost pos: seq<nat>)
        returns (ghost rows': seq<Row>, ghost bl: nat)
      requires pool.Valid() && TopOK(pool.nodes, pool.cap, rows) && |rows| == size > 0
      requires OnPath(pool.nodes, rows, node, entry, pos, size - 1)
      requires node[size - 1] < |pool.nodes| && pool.nodes[node[size - 1]].Leaf?
               && pool.nodes[node[size - 1]].keys != []
      modifies pool
      ensures pool.Valid() && TopOK(pool.nodes, pool.cap, rows') && |rows'| == |rows|
      ensures pos[size - 1] == 0 ==> rows' == rows && pool.nodes == old(pool.nodes)
      ensures pos[size - 1] > 0 ==> bl < size - 1 && KeyChanged(old(pool.nodes), pool.nodes, node[bl])
      ensures pos[size - 1] > 0 ==>
                |pos| >= |rows| && rows' == SetCrits(rows, pos, bl, old(pool.nodes)[node[size - 1]].keys[0])
      ensures OnPath(pool.nodes, rows', node, entry, pos, size - 1)
    {
      hide Flat, Off, Exp, TopOK, StepDown, FirstStep, FreeList;
      rows', bl := SetOwnCritKey(size - 1, pool.nodes[node[size - 1]].keys[0], pool, rows, pos);
    }

    /** Set the critical key of the node at `level`, unless it is the first of its row. */
    method SetOwnCritKey(level: nat, critKey: Key, pool: NodePool, ghost rows: seq<Row>, ghost pos: seq<nat>)
        returns (ghost rows': seq<Row>, ghost bl: nat)
      requires pool.Valid() && TopOK(pool.nodes, pool.cap, rows) && |rows| == level + 1
      requires OnPath(pool.nodes, rows, node, entry, pos, level)
      modifies pool
      ensures pool.Valid() && TopOK(pool.nodes, pool.cap, rows') && |rows'| == |rows|
      ensures pos[level] == 0 ==> rows' == rows && pool.nodes == old(pool.nodes)
      ensures pos[level] > 0 ==> bl < level && KeyChanged(old(pool.nodes), pool.nodes, node[bl])
      ensures pos[level] > 0 ==> |pos| >= |rows| && rows' == SetCrits(rows, pos, bl, critKey)
      ensures OnPath(pool.nodes, rows', node, entry, pos, level)
    {
      hide Flat, Off, Exp, TopOK, StepDown, FirstStep, FreeList;
      rows', bl := rows, 0;
      PathInner(pool.nodes, pool.cap, rows, node, entry, pos, level);
      var b := LeftSiblingBranchLevel(level);
      if b.None? {
        LeftEdge(pool.nodes, rows, node, entry, pos, level);
        return;
      }
      bl := b.value;
      LeftBranch(pool.nodes, pool.cap, rows, node, entry, pos, bl, level);
      BranchPositive(pool.nodes, pool.cap, rows, pos[bl], bl, entry[bl], pos, level);
      rows' := SetBranchKey(b.value, entry[b.value], critKey, pool, rows, pos, pos);
    }

    /** Bring the row at `level` back in order after an entry of its current node was removed,
    and leave the path at the same entry of the next row. Returns true if the tree is empty. */
    method HealLevel(status: Removed, level: nat, pool: NodePool, ghost leaf: bool, ghost rows: seq<Row>,
        ghost pos: seq<nat>)
      returns (empty: bool, ghost rows': seq<Row>, ghost pos': seq<nat>)
      requires size > 0 && Arrays() && pool.Valid() && Healing(pool.nodes, pool.cap, leaf, rows, node, entry, pos,
               level)
      requires status == RemovedStatus(entry[level], Slots(pool.nodes[node[level]]),
               Capacity(pool.nodes[node[level]], pool.cap))
      modifies this, pool
      ensures Arrays() && pool.Valid()
      ensures empty <==> status.Empty? && level == 0
      ensures empty ==> Owned(old(pool.nodes), pool.nodes, AllIds(rows), {})
      ensures !empty ==> Healed(old(pool.nodes), pool.nodes, pool.cap, leaf, rows, rows')
      ensures !empty ==> Landed(pool.nodes, rows', node, entry, pos', level,
              old(Target(pool.nodes, rows, entry, pos, level)), old(size), size)
      ensures !empty ==> node[0] == old(node[0])
      ensures !empty && size > 0 ==>
                forall l | level < l < MAX_PATH :: node[l] == old(node[l]) && entry[l] == old(entry[l])
      decreases level, 2
    {
      hide Flat, Off, Exp, RowOK, TopOK, FreeList, AllIds, Owned, StepDown;
      empty, rows', pos' := false, rows, pos;
      match status {
        case Healthy =>
          HealthyRow(pool.nodes, pool.cap, leaf, rows, node, entry, pos, level);
          FlatSplit(pool.nodes, rows[level], pos[level]);
        case Rightmost =>
          HealthyRow(pool.nodes, pool.cap, leaf, rows, node, entry, pos, level);
          FlatSplit(pool.nodes, rows[level], pos[level]);
          var _, p := NextNode(level, pool, rows, pos);
          pos' := p;
          if pos[level] + 1 < |rows[level]| {
            RowFirst(pool.nodes, pool.cap, leaf, rows[level], pos[level] + 1);
            FlatAt(pool.nodes, rows[level], pos[level] + 1, 0);
          } else {
            OffEnd(pool.nodes, rows[level], pos[level] + 1);
          }
        case Underflow =>
          rows', pos' := UnderflowedNode(level, pool, leaf, rows, pos);
        case Empty =>
          LiveRow(pool.nodes, pool.cap, leaf, rows[level], pos[level]);
          OwnedSame(pool.nodes, pool.cap, leaf, rows);
          empty, rows', pos' := EmptyNode(level, pool, rows, pos);
          if !empty {
            EmptyRow(old(pool.nodes), pool.nodes, pool.cap, leaf, rows[level], pos[level]);
            DropNext(rows[level], pos[level]);
          }
      }
    }

    /** Free the node at `level`, drop it from its parent and bring the rows above back in order.
    The path goes on through the right sibling, or off the end. Returns true if the tree is empty. */
    method EmptyNode(level: nat, pool: NodePool, ghost rows: seq<Row>, ghost pos: seq<nat>)
      returns (empty: bool, ghost rows': seq<Row>, ghost pos': seq<nat>)
      requires size > 0 && Arrays() && pool.Valid() && level < MAX_PATH && |rows| == level + 1
      requires TopOK(pool.nodes, pool.cap, rows) && OnPath(pool.nodes, rows, node, entry, pos, level)
      requires forall n | n in AllIds(rows) :: n < |pool.nodes| && !pool.nodes[n].Free?
      requires level > 0 ==> |rows[1]| >= 2 && Droppable(rows[level], pos[level])
      modifies this, pool
      ensures Arrays() && pool.Valid()
      ensures empty <==> level == 0
      ensures empty ==> Owned(old(pool.nodes), pool.nodes, AllIds(rows), {})
      ensures !empty ==> Dropped(old(pool.nodes), pool.nodes, pool.cap, rows, rows', pos[level])
      ensures !empty ==> if pos[level] < |rows'[level]| then
                && size == old(size) && OnPath(pool.nodes, rows', node, entry, pos', level)
                && pos'[level] == pos[level] && entry[level] == old(entry[level])
              else
                size == 0
      ensures !empty ==> node[0] == old(node[0])
      ensures !empty && size > 0 ==>
                forall l | level < l < MAX_PATH :: node[l] == old(node[l]) && entry[l] == old(entry[l])
      decreases level, 0
    {
      hide Flat, Off, Exp, RowOK, TopOK, FreeList, AllIds, Owned, StepDown, DropSlot, Droppable, InnerRemove, Distinct,
        Dropped;
      rows', pos' := rows, pos;
      TopDistinct(pool.nodes, pool.cap, rows);
      InAllIds(rows, level, pos[level]);
      pool.FreeNode(node[level]);
      if level == 0 {
        OwnedRoot(old(pool.nodes), pool.nodes, rows);
        return true, rows, pos;
      }
      empty := false;
      LastRowPut(old(pool.nodes), pool.nodes, pool.cap, rows, node, entry, pos, pos[level]);
      var rhs := RightSibling(level, pool, rows, pos);

      // Remove the node from its parent.
      var pl := level - 1;
      PathInner(old(pool.nodes), pool.cap, rows, node, entry, pos, level);
      Apart(rows, pl, pos[pl], level, pos[level]);
      var pe := entry[pl];
      var status := RemovedStatus(pe, |pool.nodes[node[pl]].tree| - 1, INNER_SIZE);
      pool.Put(node[pl], InnerRemove(pool.nodes[node[pl]], pe));
      ghost var up, nodes2 := rows[..level], pool.nodes;
      UnhookReady(old(pool.nodes), pool.nodes, pool.cap, rows, node, entry, pos, level);
      var e, up', posUp := HealLevel(status, pl, pool, false, up, pos);

      DropJoin(old(pool.nodes), nodes2, pool.nodes, pool.cap, rows, up', pos[level], pos[pl]);
      rows' := up' + [DropSlot(rows[level], pos[level])];

      // Finally update the path at this level.
      DropNext(rows[level], pos[level]);
      match rhs {
        case Some(it) =>
          node := node[level := it.node];
          pos' := posUp[..level] + [pos[level]];
          JoinPath(pool.nodes, up', rows', node, entry, posUp, pos', level);
        case None => size := 0;
      }
    }

    /** Balance the node at `level` with its right sibling `it`, and update the critical key of the
    latter. Returns true if everything was moved to the sibling. */
    method BalanceRight(level: nat, it: Item, pool: NodePool, ghost leaf: bool, ghost rows: seq<Row>,
        ghost pos: seq<nat>)
      returns (merged: bool, ghost rows': seq<Row>)
      requires Arrays() && pool.Valid() && Healing(pool.nodes, pool.cap, leaf, rows, node, entry, pos, level)
      requires Underflowed(pool.nodes, pool.cap, leaf, rows[level], pos[level]) && it == rows[level][pos[level] + 1]
      modifies pool
      ensures pool.Valid() && TopOK(pool.nodes, pool.cap, rows') && OnPath(pool.nodes, rows', node, entry, pos, level)
      ensures |rows'| == |rows| && rows'[0] == rows[0] && AllIds(rows') == AllIds(rows)
      ensures level > 0 ==> |rows'[1]| == |rows[1]|
      ensures Owned(old(pool.nodes), pool.nodes, AllIds(rows), AllIds(rows))
      ensures Shifted(old(pool.nodes), pool.nodes, pool.cap, rows[level], rows'[level], pos[level], merged)
    {
      hide Flat, Off, Exp, RowOK, TopOK, FreeList, AllIds, Owned, StepDown, Balance, Shifted;
      ghost var p := pos[level];
      ghost var n0 := pool.nodes;
      UnderflowedPair(pool.nodes, pool.cap, leaf, rows[level], p);
      var b := Balance(pool.nodes[node[level]], it.crit, pool.nodes[it.node], pool.cap);
      pool.Put(node[level], b.lhs);
      ghost var n1 := pool.nodes;
      LastRowPut(n0, n1, pool.cap, rows, node, entry, pos, p);
      var newCk := b.critKey;
      if b.critKey.None? {
        newCk := CurrentCritKey(level, pool, rows, pos);
      }
      pool.Put(it.node, b.rhs);
      ghost var n2 := pool.nodes;
      LastRowPut(n1, n2, pool.cap, rows, node, entry, pos, p + 1);
      rows' := rows;
      if newCk.Some? {
        var r, bl := UpdateRightCritKey(level, newCk.value, pool, rows, pos);
        rows' := r;
        CritKeyKept(n2, pool.nodes, pool.cap, rows, rows', node, entry, pos, bl, newCk.value, level);
      }
      merged := b.critKey.None?;
      BalanceRightDone(n0, n2, pool.nodes, pool.cap, leaf, rows, rows', p, newCk.Some?);
    }

    /** The node at `level` is below half capacity but not empty: balance it with its right
    sibling, if there is one, and leave the path at the same entry of the next row. */
    method UnderflowedNode(level: nat, pool: NodePool, ghost leaf: bool, ghost rows: seq<Row>, ghost pos: seq<nat>)
      returns (ghost rows': seq<Row>, ghost pos': seq<nat>)
      requires size > 0 && Arrays() && pool.Valid() && Healing(pool.nodes, pool.cap, leaf, rows, node, entry, pos,
               level)
      requires 0 < Slots(pool.nodes[node[level]]) && !HalfFull(pool.nodes[node[level]], pool.cap)
      modifies this, pool
      ensures Arrays() && pool.Valid()
      ensures Healed(old(pool.nodes), pool.nodes, pool.cap, leaf, rows, rows')
      ensures Landed(pool.nodes, rows', node, entry, pos', level, old(Target(pool.nodes, rows, entry, pos, level)),
              old(size), size)
      ensures node[0] == old(node[0])
      ensures size > 0 ==> forall l | level < l < MAX_PATH :: node[l] == old(node[l]) && entry[l] == old(entry[l])
      decreases level, 1
    {
      hide Flat, Off, Exp, RowOK, TopOK, FreeList, AllIds, Owned, StepDown;
      rows', pos' := rows, pos;
      var sibling := RightSibling(level, pool, rows, pos);
      match sibling {
        case Some(it) =>
          HealingUnderflowed(pool.nodes, pool.cap, leaf, rows, node, entry, pos, level);
          ghost var n0 := pool.nodes;
          LiveRow(n0, pool.cap, leaf, rows[level], pos[level]);
          OwnedSame(n0, pool.cap, leaf, rows);
          var merged, rows1 := BalanceRight(level, it, pool, leaf, rows, pos);
          rows' := rows1;
          if merged {
            ghost var n2 := pool.nodes;
            TopDistinct(n2, pool.cap, rows1);
            ShiftedReady(n0, n2, pool.cap, rows, rows1, pos[level]);
            ghost var entry0 := entry;
            var _, r, p := EmptyNode(level, pool, rows1, pos);
            rows', pos' := r, p;
            MergedDone(n0, n2, pool.nodes, pool.cap, leaf, rows, rows1, rows', old(node), entry0, pos, node, entry,
                pos', level, size);
          } else {
            SpreadDone(n0, pool.nodes, pool.cap, leaf, rows, rows1, node, entry, pos, level, size);
          }
        case None =>
          HealthyRow(pool.nodes, pool.cap, leaf, rows, node, entry, pos, level);
          OffEnd(pool.nodes, rows[level], pos[level] + 1);
          if entry[level] >= Slots(pool.nodes[node[level]]) {
            size := 0;
          }
      }
    }

    /** Discard the root while it has a single sub-tree. Returns the new root. */
    method CollapseRoot(pool: NodePool, ghost rows: seq<Row>, ghost pos: seq<nat>, ghost target: nat)
        returns (root: Node, ghost rows': seq<Row>, ghost pos': seq<nat>)
      requires Arrays() && pool.Valid() && 1 <= |rows| <= MAX_PATH
      requires TopOK(pool.nodes, pool.cap, rows) && RowOK(pool.nodes, pool.cap, true, Last(rows), -1)
               && Ascending(Content(pool.nodes, rows))
      requires forall n | n in AllIds(rows) :: n < |pool.nodes| && !pool.nodes[n].Free?
      requires |rows[0]| == 1 && node[0] == rows[0][0].node
      requires size > 0 ==> size == |rows| && OnPath(pool.nodes, rows, node, entry, pos, size - 1)
      requires Landed(pool.nodes, rows, node, entry, pos, |rows| - 1, target, |rows|, size)
      modifies this, pool
      ensures Arrays() && pool.Valid() && Collapsed(old(pool.nodes), pool.nodes, pool.cap, rows, rows')
      ensures |rows'[0]| == 1 && rows'[0][0].node == root
      ensures old(size) == 0 ==> size == 0
      ensures Landed(pool.nodes, rows', node, entry, pos', |rows'| - 1, target, |rows'|, size)
    {
      hide Flat, Off, Exp, RowOK, TopOK, FreeList, AllIds, Owned, StepDown, Ascending, SliceShift, Landed,
        TreeOK, Distinct;
      ghost var n0 := pool.nodes;
      TopDistinct(n0, pool.cap, rows);
      var ns := DescendRoot(pool, rows);
      assert size > 0 ==> node == old(node) by {
        PathSingle(n0, rows, old(node), entry, pos, size, ns, node);
      }
      FreeRoots(ns, pool, rows);
      CollapseDone(n0, pool.nodes, pool.cap, rows, ns);
      rows', pos' := rows[ns..], pos;
      ShiftAt(node, ns);
      ShiftAt(entry, ns);
      if size > 0 {
        pos' := pos[ns..];
        SuffixPath(n0, rows, node, entry, pos, size - 1, ns, SliceShift(node, ns), SliceShift(entry, ns));
        KeptPath(n0, pool.nodes, rows', SliceShift(node, ns), SliceShift(entry, ns), pos', size - 1 - ns);
        size := size - ns;
        LandedSame(n0, pool.nodes, rows, rows', old(node), old(entry), pos, SliceShift(node, ns),
            SliceShift(entry, ns), pos', target);
      } else {
        LandedEnd(n0, pool.nodes, rows, rows', old(node), old(entry), pos, SliceShift(node, ns), SliceShift(entry, ns),
            pos', target);
      }
      node := SliceShift(node, ns);
      entry := SliceShift(entry, ns);
      root := node[0];
    }

    /** Record the chain of single sub-trees from the root down, and return its length. */
    method DescendRoot(pool: NodePool, ghost rows: seq<Row>) returns (ns: nat)
      requires Arrays() && pool.Valid() && 1 <= |rows| <= MAX_PATH
      requires TopOK(pool.nodes, pool.cap, rows) && RowOK(pool.nodes, pool.cap, true, Last(rows), -1)
      requires |rows[0]| == 1 && node[0] == rows[0][0].node
      modifies this
      ensures Arrays() && ns < |rows| && size == old(size) && entry == old(entry)
      ensures forall l | 0 <= l <= ns :: |rows[l]| == 1 && node[l] == rows[l][0].node
      ensures forall l | ns < l < MAX_PATH :: node[l] == old(node[l])
      ensures rows[ns][0].node < |pool.nodes| && pool.nodes[rows[ns][0].node].Inner? ==>
              pool.nodes[rows[ns][0].node].keys != []
    {
      hide Flat, RowOK, TopOK, FreeList;
      ns := 0;
      SingleRow(pool.nodes, pool.cap, rows, 0);
      while pool.nodes[node[ns]].Inner? && pool.nodes[node[ns]].keys == []
        invariant Arrays() && ns < |rows| && size == old(size) && entry == old(entry)
        invariant forall l | 0 <= l <= ns :: |rows[l]| == 1 && node[l] == rows[l][0].node
        invariant forall l | ns < l < MAX_PATH :: node[l] == old(node[l])
        invariant node[ns] < |pool.nodes|
        decreases |rows| - ns
      {
        SingleRow(pool.nodes, pool.cap, rows, ns);
        SingleRow(pool.nodes, pool.cap, rows, ns + 1);
        ns := ns + 1;
        node := node[ns := pool.nodes[node[ns - 1]].tree[0]];
      }
    }

    method FreeRoots(ns: nat, pool: NodePool, ghost rows: seq<Row>)
      requires Arrays() && pool.Valid() && ns < |rows| <= MAX_PATH && Distinct(rows)
      requires forall n | n in AllIds(rows) :: n < |pool.nodes| && !pool.nodes[n].Free?
      requires forall l | 0 <= l <= ns :: |rows[l]| == 1 && node[l] == rows[l][0].node
      modifies pool
      ensures pool.Valid() && |pool.nodes| == |old(pool.nodes)|
      ensures forall n | 0 <= n < |pool.nodes| && n !in AllIds(rows[..ns]) :: pool.nodes[n] == old(pool.nodes)[n]
      ensures forall n | n in AllIds(rows[..ns]) :: n < |pool.nodes| && pool.nodes[n].Free?
    {
      hide AllIds, Distinct, FreeList;
      NoIds(rows[..0]);
      for l := 0 to ns
        invariant pool.Valid() && |pool.nodes| == |old(pool.nodes)|
        invariant forall n | 0 <= n < |pool.nodes| && n !in AllIds(rows[..l]) :: pool.nodes[n] == old(pool.nodes)[n]
        invariant forall n | n in AllIds(rows[..l]) :: n < |pool.nodes| && pool.nodes[n].Free?
      {
        NextId(rows, l);
        pool.FreeNode(node[l]);
      }
    }

    /** Take the current entry out of its leaf, and set its critical key right. */
    method ShrinkLeaf(pool: NodePool, ghost rows: seq<Row>, ghost pos: seq<nat>)
        returns (status: Removed, ghost nodes1: seq<NodeData>, ghost rows2: seq<Row>, ghost bl: nat)
      requires Arrays() && pool.Valid() && TreeOK(pool.nodes, pool.cap, rows) && size == |rows|
      requires OnPath(pool.nodes, rows, node, entry, pos, size - 1)
               && entry[size - 1] < |Exp(pool.nodes, rows[size - 1][pos[size - 1]])|
      modifies pool
      ensures pool.Valid() && LeafShrunk(old(pool.nodes), nodes1, pool.nodes, pool.cap, rows, rows2, node, entry, pos,
              bl)
      ensures size > 0 && LeafStatus(nodes1, pool.cap, node[size - 1], entry[size - 1], status)
    {
      hide Flat, Off, TopOK, RowOK, StepDown, FreeList, Expand, LeafRemove, TreeOK;
      ghost var n0 := pool.nodes;
      TreeParts(n0, pool.cap, rows);
      LeafAt(n0, pool.cap, rows, pos[size - 1]);
      var e, n := entry[size - 1], node[size - 1];
      var d := LeafRemove(pool.nodes[n], pool.cap, e);
      status := RemovedStatus(e, |d.vals|, pool.cap);
      pool.Put(n, d);
      nodes1, rows2, bl := pool.nodes, rows, 0;
      LastRowPut(n0, nodes1, pool.cap, rows, node, entry, pos, pos[size - 1]);
      if status != Empty && e == 0 {
        rows2, bl := UpdateCritKey(pool, rows, pos);
      }
    }

    /** Remove the current entry and advance the path to the next one. Returns the new root. */
    method Remove(pool: NodePool, ghost rows: seq<Row>, ghost pos: seq<nat>)
        returns (root: Option<Node>, ghost rows': seq<Row>, ghost pos': seq<nat>)
      requires Arrays() && pool.Valid() && TreeOK(pool.nodes, pool.cap, rows) && size == |rows|
      requires OnPath(pool.nodes, rows, node, entry, pos, size - 1)
               && entry[size - 1] < |Exp(pool.nodes, rows[size - 1][pos[size - 1]])|
      modifies this, pool
      ensures Arrays() && pool.Valid()
      ensures root.None? <==> |old(Content(pool.nodes, rows))| == 1
      ensures root.None? ==> size == 0 && Owned(old(pool.nodes), pool.nodes, AllIds(rows), {})
      ensures old(Target(pool.nodes, rows, entry, pos, size - 1)) < |old(Content(pool.nodes, rows))|
      ensures root.Some? ==>
                && TreeOK(pool.nodes, pool.cap, rows') && 1 <= |rows'| <= |rows| && |rows'[0]| == 1
                && rows'[0][0].node == root.value
                && Content(pool.nodes, rows') == RemoveAt(old(Content(pool.nodes, rows)),
                    old(Target(pool.nodes, rows, entry, pos, size - 1)))
                && Owned(old(pool.nodes), pool.nodes, AllIds(rows), AllIds(rows'))
                && Landed(pool.nodes, rows', node, entry, pos', |rows'| - 1,
                    old(Target(pool.nodes, rows, entry, pos, size - 1)), |rows'|, size)
    {
      hide Flat, Off, Exp, RowOK, TopOK, FreeList, AllIds, Owned, StepDown, Ascending, TreeOK, LeafShrunk, RemoveAt;
      TreeParts(pool.nodes, pool.cap, rows);
      ghost var n0, target := pool.nodes, Target(pool.nodes, rows, entry, pos, size - 1);
      var status, nodes1, rows2, bl := ShrinkLeaf(pool, rows, pos);
      ghost var n2 := pool.nodes;
      ShrunkHealing(n0, nodes1, n2, pool.cap, rows, rows2, node, entry, pos, bl);
      ShrunkContent(n0, nodes1, n2, pool.cap, rows, rows2, node, entry, pos, bl);
      ShrunkOwned(n0, nodes1, n2, pool.cap, rows, rows2, node, entry, pos, bl);
      EmptiedTree(n0, nodes1, n2, pool.cap, rows, rows2, node, entry, pos, bl);
      var empty, rows3, pos3 := HealLevel(status, size - 1, pool, true, rows2, pos);
      rows', pos' := rows3, pos3;
      if empty {
        size := 0;
        root := None;
        OwnedTransitive(n0, n2, pool.nodes, AllIds(rows), AllIds(rows), {});
      } else {
        ghost var n3 := pool.nodes;
        HealedTree(n0, n2, n3, pool.cap, rows, rows2, rows3, target);
        var r;
        r, rows', pos' := CollapseRoot(pool, rows3, pos3, target);
        root := Some(r);
        OwnedTransitive(n0, n3, pool.nodes, AllIds(rows), AllIds(rows3), AllIds(rows'));
      }
    }

    // ----- insertion -----

    /** Try to insert in the node at level `l - 1`; fail and leave everything alone if it is full. */
    method TryInsert(l: nat, it: Item, pool: NodePool, ghost n0: seq<NodeData>, ghost rows: seq<Row>,
        ghost low: seq<Row>, ghost pos: seq<nat>, ghost posl: seq<nat>, ghost idx: nat, ghost target: nat)
      returns (inserted: bool)
      requires Arrays() && pool.Valid() && 0 < l && size == |rows|
               && Growing(n0, pool.nodes, pool.cap, rows, l, low, node, entry, pos, posl, idx, it, target)
      modifies this`entry, pool
      ensures Arrays() && pool.Valid()
      ensures !inserted ==> pool.nodes == old(pool.nodes) && entry == old(entry)
      ensures !inserted ==> node[l - 1] < |pool.nodes| && FullNode(pool.nodes[node[l - 1]], pool.cap, entry[l - 1])
      ensures inserted ==> Complete(n0, pool.nodes, pool.cap, rows, Whole(rows, l, low), node, entry,
              JoinPos(pos, l, posl), low[|low| - 1], target)
    {
      hide Flat, Off, Exp, RowOK, TopOK, FreeList, AllIds, Owned, StepDown, Distinct, LowOK, LowPath, InsertAt,
          Pending, PendingPath, Whole;
      GrowingNode(n0, pool.nodes, pool.cap, rows, l, low, node, entry, pos, posl, idx, it, target);
      var n, index := node[l - 1], entry[l - 1];
      var d := pool.nodes[n];
      var r := if d.Leaf? then TryLeafInsert(d, pool.cap, index, it.crit, it.node)
          else TryInnerInsert(d, index, it.crit, it.node);
      match r {
        case None => return false;
        case Some(d') =>
          pool.Put(n, d');
          // If the level below moved to its new right half, follow it.
          if l < size && node[l] == it.node {
            entry := entry[l - 1 := index + 1];
          }
          GrownTop(old(pool.nodes), pool.nodes, pool.cap, rows, l, low, idx, it, node, old(entry), pos, posl, target);
          GrownPath(old(pool.nodes), pool.nodes, pool.cap, rows, l, low, idx, it, node, old(entry), pos, posl, target,
              entry);
          GrownOwned(n0, old(pool.nodes), pool.nodes, AllIds(rows), AllIds(Whole(rows, l, low)), n);
          return true;
      }
    }

    /** Split the full node at level `l - 1` and insert the waiting item in the proper half. Returns
    the right half and its critical key, which now wait to be inserted one level up. */
    method SplitLevel(l: nat, it: Item, pool: NodePool, ghost n0: seq<NodeData>, ghost rows: seq<Row>,
        ghost low: seq<Row>, ghost pos: seq<nat>, ghost posl: seq<nat>, ghost idx: nat, ghost target: nat)
      returns (it': Item, ghost low': seq<Row>, ghost posl': seq<nat>)
      requires Arrays() && pool.Valid() && 0 < l && size == |rows|
               && Growing(n0, pool.nodes, pool.cap, rows, l, low, node, entry, pos, posl, idx, it, target)
      requires node[l - 1] < |pool.nodes| && FullNode(pool.nodes[node[l - 1]], pool.cap, entry[l - 1])
      modifies this`node, this`entry, pool
      ensures Arrays() && pool.Valid()
      ensures Growing(n0, pool.nodes, pool.cap, rows, l - 1, low', node, entry, pos, posl', pos[l - 1] + 1, it', target)
      ensures low'[|low'| - 1] == low[|low| - 1] && |low'| == |low| + 1
      ensures pos[l - 1] < |rows[l - 1]| && low'[0] == InsertAt(rows[l - 1], pos[l - 1] + 1, it')
    {
      hide Flat, Off, Exp, RowOK, TopOK, FreeList, AllIds, Owned, StepDown, Distinct, LowOK, LowPath, InsertAt,
          SplitInsert, Pending, PendingPath;
      GrowingNode(n0, pool.nodes, pool.cap, rows, l, low, node, entry, pos, posl, idx, it, target);
      var n, index := node[l - 1], entry[l - 1];
      it' := SplitNode(l, it, pool, rows);
      SplitGrowing(n0, old(pool.nodes), pool.nodes, pool.cap, rows, l, low, old(node), old(entry), pos, posl, idx, it,
          target, it'.crit, it'.node, node, entry);
      low' := SplitLow(old(pool.nodes), pool.cap, rows, l, low, pos[l - 1], index, it, it'.node);
      posl' := SplitPositions(old(pool.nodes), pool.cap, n, pos[l - 1], index, it, posl);
    }

    /** Split the full node at level `l - 1`, move the path to the right half if the insertion
    belongs there, and insert. */
    method SplitNode(l: nat, it: Item, pool: NodePool, ghost rows: seq<Row>) returns (it': Item)
      requires Arrays() && pool.Valid() && 0 < l <= size == |rows|
      requires node[l - 1] < |pool.nodes| && FullNode(pool.nodes[node[l - 1]], pool.cap, entry[l - 1])
      requires pool.nodes[node[l - 1]].Leaf? == (l == |rows|)
      modifies this`node, this`entry, pool
      ensures Arrays() && pool.Valid()
      ensures SplitPool(old(pool.nodes), pool.nodes, pool.cap, old(node)[l - 1], old(entry)[l - 1], it, it')
      ensures SplitMove(pool.cap, rows, l, old(pool.nodes)[old(node)[l - 1]], it, it'.node, old(node), old(entry),
              node, entry)
    {
      hide FreeList, Split, Expand, InsertAt, HalfFull, Inserted;
      var n, index := node[l - 1], entry[l - 1];
      var d := pool.nodes[n];
      var split := Split(d, pool.cap, index);
      var rhs := HalveNode(l, split, pool);
      var critKey := split.critKey;

      // Now that there is room, insert.
      var m, e := node[l - 1], entry[l - 1];
      ghost var h := SplitInsert(d, pool.cap, index, it);
      assert h.right == (m == rhs) && e == h.at;
      pool.Put(m, Inserted(pool.nodes[m], pool.cap, e, it));
      if d.Leaf? && e == 0 && m == rhs {
        // The new front key of the right leaf is its critical key.
        critKey := it.crit;
      } else if d.Inner? && it.node == node[l] {
        // The lower level was moved to its new right half.
        entry := entry[l - 1 := e + 1];
      }
      it' := Item(critKey, rhs);
    }

    /** Put the two halves in the pool, and the path in the one where the insertion belongs. */
    method HalveNode(l: nat, split: SplitOff, pool: NodePool) returns (rhs: Node)
      requires Arrays() && pool.Valid() && 0 < l <= size
      requires node[l - 1] < |pool.nodes| && !pool.nodes[node[l - 1]].Free? && !split.lhs.Free? && !split.rhs.Free?
      modifies this`node, this`entry, pool
      ensures Arrays() && pool.Valid()
      ensures rhs < |pool.nodes| && (rhs < |old(pool.nodes)| ==> old(pool.nodes)[rhs].Free?)
      ensures |old(pool.nodes)| <= |pool.nodes| <= |old(pool.nodes)| + 1
              && (|pool.nodes| > |old(pool.nodes)| ==> rhs == |old(pool.nodes)|)
      ensures rhs != old(node)[l - 1] && pool.nodes[old(node)[l - 1]] == split.lhs && pool.nodes[rhs] == split.rhs
      ensures forall m | 0 <= m < |old(pool.nodes)| && m != old(node)[l - 1]
              && m != rhs :: pool.nodes[m] == old(pool.nodes)[m]
      ensures node == if GoesRight(split, old(entry)[l - 1]) then old(node)[l - 1 := rhs] else old(node)
      ensures entry == if GoesRight(split, old(entry)[l - 1]) then
              old(entry)[l - 1 := old(entry)[l - 1] - split.lhsEntries] else old(entry)
    {
      hide FreeList;
      var n, index := node[l - 1], entry[l - 1];
      pool.Put(n, split.lhs);
      rhs := pool.AllocNode(split.rhs);
      if index > split.lhsEntries || (index == split.lhsEntries
          && (split.lhsEntries > split.rhsEntries || split.lhs.Inner?)) {
        node := node[l - 1 := rhs];
        entry := entry[l - 1 := index - split.lhsEntries];
      }
    }

    /** Split the full leaf and then nodes upward until the waiting item finds room, or the root
    was split and a new level is added. */
    method SplitAndInsert(it0: Item, pool: NodePool, ghost n0: seq<NodeData>, ghost rows: seq<Row>,
        ghost low0: seq<Row>, ghost pos: seq<nat>, ghost posl0: seq<nat>, ghost idx0: nat, ghost target: nat)
      returns (ghost rows': seq<Row>, ghost pos': seq<nat>)
      requires Arrays() && pool.Valid() && size == |rows| && Growing(n0, pool.nodes, pool.cap, rows, size, low0, node,
               entry, pos, posl0, idx0, it0, target)
      requires node[size - 1] < |pool.nodes| && FullNode(pool.nodes[node[size - 1]], pool.cap, entry[size - 1])
      requires |low0| == 1 && |low0[0]| <= 0x1_0000_0000 && node[0] == rows[0][0].node
               && (|rows| > 1 ==> |rows[1]| >= 2)
      modifies this, pool
      ensures Arrays() && pool.Valid() && size == |rows'|
      ensures Complete(n0, pool.nodes, pool.cap, rows, rows', node, entry, pos', low0[0], target)
      ensures |rows'| > 1 ==> |rows'[1]| >= 2
    {
      hide Flat, Off, Exp, RowOK, TopOK, FreeList, AllIds, Owned, StepDown, Distinct, LowOK, LowPath, InsertAt,
          Pending, PendingPath, FullNode, Complete, Receiving;
      var origRoot := node[0];
      var l: nat, it := size, it0;
      ghost var low, posl := low0, posl0;
      ghost var idx: nat := idx0;
      while l > 0
        invariant Arrays() && pool.Valid() && size == |rows| && l <= size
        invariant Growing(n0, pool.nodes, pool.cap, rows, l, low, node, entry, pos, posl, idx, it, target)
        invariant low != [] && low[|low| - 1] == low0[0] && |low| == |rows| - l + 1
        invariant l < size ==> idx <= |rows[l]| && low[0] == InsertAt(rows[l], idx, it)
        invariant l > 0 ==> node[l - 1] < |pool.nodes| && FullNode(pool.nodes[node[l - 1]], pool.cap, entry[l - 1])
      {
        GrowingNode(n0, pool.nodes, pool.cap, rows, l, low, node, entry, pos, posl, idx, it, target);
        it, low, posl := SplitLevel(l, it, pool, n0, rows, low, pos, posl, idx, target);
        l, idx := l - 1, pos[l - 1] + 1;
        if l > 0 {
          var inserted := TryInsert(l, it, pool, n0, rows, low, pos, posl, idx, target);
          if inserted {
            rows', pos' := Whole(rows, l, low), JoinPos(pos, l, posl);
            WiderRow(rows, l, low, idx, it);
            return;
          }
        }
      }
      GrowingRoot(n0, pool.nodes, pool.cap, rows, low, node, entry, pos, posl, idx, it, target);
      DepthLeft(pool.nodes, pool.cap, rows, low, idx, it);
      rows', pos' := GrowRoot(origRoot, it, pool, n0, rows, low, pos, posl, target);
    }

    /** Add a level: a new root over the two halves of the old one. */
    method GrowRoot(origRoot: Node, it: Item, pool: NodePool, ghost n0: seq<NodeData>, ghost rows: seq<Row>,
        ghost low: seq<Row>, ghost pos: seq<nat>, ghost posl: seq<nat>, ghost target: nat)
      returns (ghost rows': seq<Row>, ghost pos': seq<nat>)
      requires Arrays() && pool.Valid() && size == |rows| < MAX_PATH
               && Growing(n0, pool.nodes, pool.cap, rows, 0, low, node, entry, pos, posl, 1, it, target)
      requires |rows[0]| == 1 && origRoot == rows[0][0].node && |low| == |rows| + 1 == |posl|
      modifies this, pool
      ensures Arrays() && pool.Valid() && size == |rows'|
      ensures Complete(n0, pool.nodes, pool.cap, rows, rows', node, entry, pos', low[|low| - 1], target)
      ensures |rows'| > 1 && |rows'[1]| == 2
    {
      hide Flat, Off, Exp, RowOK, TopOK, FreeList, AllIds, Owned, StepDown, Distinct, LowOK, LowPath, InsertAt,
          Pending, PendingPath, SliceInsert;
      ghost var nodes := pool.nodes;
      var root := pool.AllocNode(Inner([it.crit], [origRoot, it.node]));
      var e := if node[0] == it.node then 1 else 0;
      InsertFront(node, size + 1, root);
      InsertFront(entry, size + 1, e);
      var node', entry' := SliceInsert(node[..size + 1], 0, root) + node[size + 1..],
          SliceInsert(entry[..size + 1], 0, e) + entry[size + 1..];
      RootComplete(n0, nodes, pool.nodes, pool.cap, rows, low, node, entry, pos, posl, it, target, root, node', entry');
      rows', pos' := Whole(Rooted(rows, root), 1, low), [0] + posl[..|posl| - 1];
      size, node, entry := size + 1, node', entry';
    }

    /** Insert `(key, value)` at the current position, which must be the right one for the key.
    Returns the new root. */
    method Insert(key: Key, value: Value, pool: NodePool, ghost rows: seq<Row>, ghost pos: seq<nat>)
        returns (root: Node, ghost rows': seq<Row>, ghost pos': seq<nat>)
      requires Arrays() && pool.Valid() && TreeOK(pool.nodes, pool.cap, rows) && size == |rows|
      requires OnPath(pool.nodes, rows, node, entry, pos, size - 1) && |pos| >= |rows|
      requires InsertPoint(pool.nodes, rows, node, entry, pos, key, value)
      requires |Content(pool.nodes, rows)| < 0x1_0000_0000
      modifies this, pool
      ensures Arrays() && pool.Valid() && size == |rows'|
      ensures old(Target(pool.nodes, rows, entry, pos, size - 1)) <= |old(Content(pool.nodes, rows))|
      ensures TreeOK(pool.nodes, pool.cap, rows') && |rows'[0]| == 1 && rows'[0][0].node == root
      ensures Complete(old(pool.nodes), pool.nodes, pool.cap, rows, rows', node, entry, pos',
                       InsertAt(old(Content(pool.nodes, rows)), old(Target(pool.nodes, rows, entry, pos, size - 1)),
                           Item(key, value)),
                       old(Target(pool.nodes, rows, entry, pos, size - 1)))
    {
      hide Flat, Off, Exp, RowOK, TopOK, FreeList, AllIds, Owned, StepDown, Distinct, LowOK, LowPath, InsertAt,
          Pending, PendingPath, FullNode, TreeOK, Receiving, Complete;
      ghost var n0, it := pool.nodes, Item(key, value);
      TreeParts(n0, pool.cap, rows);
      TreeRoot(n0, pool.cap, rows);
      ghost var t := Target(n0, rows, entry, pos, size - 1);
      StartPending(n0, pool.cap, rows, node, entry, pos, it);
      ghost var low := [InsertAt(Content(n0, rows), t, it)];
      StartOwned(n0, pool.cap, rows);
      InsertSize(Content(n0, rows), t, it);
      var inserted := TryInsert(size, Item(key, value), pool, n0, rows, low, pos, [t], t, t);
      if inserted {
        rows', pos' := Whole(rows, size, low), JoinPos(pos, size, [t]);
      } else {
        rows', pos' := SplitAndInsert(Item(key, value), pool, n0, rows, low, pos, [t], t, t);
      }
      CompleteTree(n0, pool.nodes, pool.cap, rows, rows', node, entry, pos', low[0], t);
      root := node[0];
    }

    // ----- navigation -----

    /** The path runs from the root of the tree to entry `target`, or just past the end of a leaf. */
    ghost predicate Points(pool: NodePool, rows: seq<Row>, pos: seq<nat>, target: nat)
      reads this, pool
    {
      && Arrays() && size == |rows| > 0 && |pos| >= size && OnPath(pool.nodes, rows, node, entry, pos, size - 1)
      && entry[size - 1] <= |Exp(pool.nodes, Last(rows)[pos[size - 1]])|
      && target == Target(pool.nodes, rows, entry, pos, size - 1)
    }

    /** The path is at an entry of its leaf. */
    ghost predicate AtEntry(pool: NodePool, rows: seq<Row>, pos: seq<nat>, target: nat)
      reads this, pool
    {
      Points(pool, rows, pos, target) && entry[size - 1] < |Exp(pool.nodes, Last(rows)[pos[size - 1]])|
    }

    /** Search for `key`. If it is in the tree, return its value and leave the path there. Otherwise
    leave it where the key belongs, never at the front of a leaf but the first. */
    method Find(key: Key, root: Node, pool: NodePool, ghost rows: seq<Row>)
        returns (r: Option<Value>, ghost pos: seq<nat>, ghost t: nat)
      requires Arrays() && TreeOK(pool.nodes, pool.cap, rows) && |rows| <= MAX_PATH && rows[0][0].node == root
      modifies this
      ensures Points(pool, rows, pos, t) && At(Content(pool.nodes, rows), key, t, r.Some?)
      ensures r.Some? ==> AtEntry(pool, rows, pos, t) && Content(pool.nodes, rows)[t] == Item(key, r.value)
      ensures r.None? && entry[size - 1] == 0 ==> pos[size - 1] == 0
    {
      hide Flat, Off, Exp, RowOK, TopOK, TreeOK, StepDown, Distinct, SearchResult, At;
      TreeParts(pool.nodes, pool.cap, rows);
      var n: Node, level: nat := root, 0;
      pos := [0];
      RowKind(pool.nodes, pool.cap, rows, 0, 0);
      while !pool.nodes[n].Leaf?
        invariant Arrays() && level < |rows| && Descent(pool.nodes, rows, node, entry, pos, level, n)
                  && Under(rows[level], pos[level], key)
        invariant n < |pool.nodes| && (pool.nodes[n].Leaf? <==> level == |rows| - 1)
        decreases |rows| - level
      {
        RowKind(pool.nodes, pool.cap, rows, level, pos[level]);
        InnerKeysAscend(pool.nodes, pool.cap, rows, level, pos[level]);
        var s := Search(key, pool.nodes[n].keys);
        // Follow the >= branch of a key that is hit, or else the < branch of the next one.
        var i := if s.Ok? then s.index + 1 else s.index;
        UnderStep(pool.nodes, pool.cap, rows, level, pos[level], key, s);
        DescentStep(pool.nodes, pool.cap, rows, node, entry, pos, level, n, i, node[level := n], entry[level := i]);
        node := node[level := n];
        entry := entry[level := i];
        pos := pos + [Off(pool.nodes, rows[level], pos[level]) + i];
        n := pool.nodes[n].tree[i];
        level := level + 1;
        RowKind(pool.nodes, pool.cap, rows, level, pos[level]);
      }
      LeafKeysAscend(pool.nodes, pool.cap, rows, pos[level]);
      var s := Search(key, pool.nodes[n].keys);
      LeafSearch(pool.nodes, pool.cap, rows, pos[level], key, s);
      DescentPath(pool.nodes, rows, node, entry, pos, level, n, node[level := n], entry[level := s.index]);
      size := level + 1;
      node := node[level := n];
      entry := entry[level := s.index];
      t := Target(pool.nodes, rows, entry, pos, level);
      r := if s.Ok? then Some(pool.nodes[n].vals[s.index]) else None;
    }

    /** Point the path at the first entry of a root leaf. */
    method SetRootNode(root: Node)
      requires Arrays()
      modifies this
      ensures Arrays() && size == 1 && node == old(node)[0 := root] && entry == old(entry)[0 := 0]
    {
      size := 1;
      node := node[0 := root];
      entry := entry[0 := 0];
    }

    /** Move to the first entry of the tree and return it. */
    method First(root: Node, pool: NodePool, ghost rows: seq<Row>) returns (r: Item, ghost pos: seq<nat>)
      requires Arrays() && TreeOK(pool.nodes, pool.cap, rows) && |rows| <= MAX_PATH && rows[0][0].node == root
      modifies this
      ensures AtEntry(pool, rows, pos, 0) && Content(pool.nodes, rows) != [] && r == Content(pool.nodes, rows)[0]
    {
      hide Flat, Off, Exp, RowOK, TopOK, TreeOK, StepDown, Distinct;
      TreeParts(pool.nodes, pool.cap, rows);
      var n: Node, level: nat := root, 0;
      pos := [0];
      RowKind(pool.nodes, pool.cap, rows, 0, 0);
      while !pool.nodes[n].Leaf?
        invariant Arrays() && level < |rows| && Descent(pool.nodes, rows, node, entry, pos, level, n) && pos[level] == 0
        invariant n < |pool.nodes| && (pool.nodes[n].Leaf? <==> level == |rows| - 1)
        decreases |rows| - level
      {
        RowKind(pool.nodes, pool.cap, rows, level, pos[level]);
        OffZero(pool.nodes, rows[level]);
        DescentStep(pool.nodes, pool.cap, rows, node, entry, pos, level, n, 0, node[level := n], entry[level := 0]);
        node := node[level := n];
        entry := entry[level := 0];
        pos := pos + [Off(pool.nodes, rows[level], pos[level]) + 0];
        n := pool.nodes[n].tree[0];
        level := level + 1;
        RowKind(pool.nodes, pool.cap, rows, level, pos[level]);
      }
      DescentPath(pool.nodes, rows, node, entry, pos, level, n, node[level := n], entry[level := 0]);
      size := level + 1;
      node := node[level := n];
      entry := entry[level := 0];
      OffZero(pool.nodes, rows[level]);
      RowKind(pool.nodes, pool.cap, rows, level, pos[level]);
      LeafItem(pool.nodes, pool.cap, rows, pos[level], 0);
      r := Item(pool.nodes[n].keys[0], pool.nodes[n].vals[0]);
    }

    /** Move to the next entry and return it, or off the end. */
    method Next(pool: NodePool, ghost rows: seq<Row>, ghost pos: seq<nat>, ghost t: nat)
        returns (r: Option<Item>, ghost pos': seq<nat>)
      requires Arrays() && (size > 0 ==> TreeOK(pool.nodes, pool.cap, rows) && AtEntry(pool, rows, pos, t))
      modifies this
      ensures old(size) == 0 ==> r.None? && size == 0
      ensures Arrays()
      ensures old(size) > 0
              && t + 1 < |Content(pool.nodes, rows)| ==>
                AtEntry(pool, rows, pos', t + 1) && r == Some(Content(pool.nodes, rows)[t + 1])
      ensures old(size) > 0 && t + 1 >= |Content(pool.nodes, rows)| ==> r.None? && size == 0
    {
      hide Flat, Off, Exp, RowOK, TopOK, TreeOK, StepDown, Distinct;
      pos' := pos;
      if size == 0 {
        return None, pos;
      }
      ghost var p := pos[size - 1];
      TreeParts(pool.nodes, pool.cap, rows);
      RowKind(pool.nodes, pool.cap, rows, size - 1, p);
      FlatSplit(pool.nodes, Last(rows), p);
      var n, e := node[size - 1], entry[size - 1];
      if e + 1 < |pool.nodes[n].keys| {
        LeafItem(pool.nodes, pool.cap, rows, p, e + 1);
        EntryMoved(pool.nodes, rows, node, entry, entry[size - 1 := e + 1], pos, size - 1);
        entry := entry[size - 1 := e + 1];
        r := Some(Item(pool.nodes[n].keys[e + 1], pool.nodes[n].vals[e + 1]));
      } else {
        r, pos' := FirstOfNext(pool, rows, pos);
      }
    }

    /** Leave the current leaf for the first entry of the next one. */
    method FirstOfNext(pool: NodePool, ghost rows: seq<Row>, ghost pos: seq<nat>)
        returns (r: Option<Item>, ghost pos': seq<nat>)
      requires TreeOK(pool.nodes, pool.cap, rows) && rows != [] && exists t :: Points(pool, rows, pos, t)
      modifies this
      ensures Arrays()
      ensures var t := Off(pool.nodes, Last(rows), pos[|rows| - 1] + 1);
              if t < |Content(pool.nodes, rows)| then AtEntry(pool, rows, pos', t) && r ==
                  Some(Content(pool.nodes, rows)[t]) else r.None? && size == 0 && t == |Content(pool.nodes, rows)|
    {
      hide Flat, Off, Exp, RowOK, TopOK, TreeOK, StepDown, Distinct;
      ghost var p := pos[size - 1];
      TreeParts(pool.nodes, pool.cap, rows);
      var next;
      next, pos' := NextNode(size - 1, pool, rows, pos);
      match next {
        case Some(n) =>
          RowKind(pool.nodes, pool.cap, rows, size - 1, p + 1);
          LeafItem(pool.nodes, pool.cap, rows, p + 1, 0);
          r := Some(Item(pool.nodes[n].keys[0], pool.nodes[n].vals[0]));
        case None =>
          OffEnd(pool.nodes, Last(rows), p + 1);
          r := None;
      }
    }

    /** Move the path to an entry, or off the end. */
    method Normalize(pool: NodePool, ghost rows: seq<Row>, ghost pos: seq<nat>, ghost t: nat)
        returns (ghost pos': seq<nat>)
      requires Arrays() && TreeOK(pool.nodes, pool.cap, rows) && Points(pool, rows, pos, t)
      modifies this
      ensures Arrays()
              && if t < |Content(pool.nodes, rows)| then AtEntry(pool, rows, pos', t)
                 else size == 0 && t == |Content(pool.nodes, rows)|
    {
      hide Flat, Off, Exp, RowOK, TopOK, TreeOK, StepDown, Distinct;
      pos' := pos;
      TreeParts(pool.nodes, pool.cap, rows);
      ghost var p := pos[size - 1];
      RowKind(pool.nodes, pool.cap, rows, size - 1, p);
      FlatSplit(pool.nodes, Last(rows), p);
      if entry[size - 1] >= Slots(pool.nodes[node[size - 1]]) {
        var _, q := FirstOfNext(pool, rows, pos);
        pos' := q;
      }
    }

    /** Move to the last entry of the sub-tree of `n`, item `q` of row `level`. */
    method GotoSubtreeLast(level: nat, n0: Node, pool: NodePool, ghost rows: seq<Row>, ghost pos0: seq<nat>)
        returns (n: Node, ghost pos: seq<nat>)
      requires Arrays() && TreeOK(pool.nodes, pool.cap, rows) && level < |rows| <= MAX_PATH
      requires Descent(pool.nodes, rows, node, entry, pos0, level, n0)
      modifies this
      ensures Upto(pool.nodes, rows, level, pos0[level] + 1) > 0
      ensures AtEntry(pool, rows, pos, Upto(pool.nodes, rows, level, pos0[level] + 1) - 1) && n == node[size - 1]
    {
      hide Flat, Off, Exp, RowOK, TopOK, TreeOK, StepDown, Distinct;
      TreeParts(pool.nodes, pool.cap, rows);
      n, pos := n0, pos0;
      var l := level;
      ghost var u := Upto(pool.nodes, rows, level, pos0[level] + 1);
      RowKind(pool.nodes, pool.cap, rows, l, pos[l]);
      while !pool.nodes[n].Leaf?
        invariant Arrays() && level <= l < |rows| && Descent(pool.nodes, rows, node, entry, pos, l, n)
                  && Upto(pool.nodes, rows, l, pos[l] + 1) == u
        invariant n < |pool.nodes| && (pool.nodes[n].Leaf? <==> l == |rows| - 1)
        decreases |rows| - l
      {
        RowKind(pool.nodes, pool.cap, rows, l, pos[l]);
        var e := |pool.nodes[n].keys|;
        DescentStep(pool.nodes, pool.cap, rows, node, entry, pos, l, n, e, node[l := n], entry[l := e]);
        FlatSplit(pool.nodes, rows[l], pos[l]);
        node := node[l := n];
        entry := entry[l := e];
        pos := pos + [Off(pool.nodes, rows[l], pos[l]) + e];
        n := pool.nodes[n].tree[e];
        l := l + 1;
        RowKind(pool.nodes, pool.cap, rows, l, pos[l]);
      }
      RowKind(pool.nodes, pool.cap, rows, l, pos[l]);
      var e := |pool.nodes[n].vals| - 1;
      DescentPath(pool.nodes, rows, node, entry, pos, l, n, node[l := n], entry[l := e]);
      FlatSplit(pool.nodes, rows[l], pos[l]);
      node := node[l := n];
      entry := entry[l := e];
      size := l + 1;
    }

    /** Move to the previous entry and return it. From off the end that is the last one; at the first
    entry the path stays. */
    method Prev(root: Node, pool: NodePool, ghost rows: seq<Row>, ghost pos: seq<nat>, ghost t: nat)
        returns (r: Option<Item>, ghost pos': seq<nat>)
      requires Arrays() && TreeOK(pool.nodes, pool.cap, rows) && |rows| <= MAX_PATH && rows[0][0].node == root
      requires if size > 0 then Points(pool, rows, pos, t) else t == |Content(pool.nodes, rows)|
      modifies this
      ensures t > 0 ==>
                t <= |Content(pool.nodes, rows)| && AtEntry(pool, rows, pos', t - 1)
                && r == Some(Content(pool.nodes, rows)[t - 1])
      ensures t == 0 ==> r.None? && size == old(size) && node == old(node) && entry == old(entry)
    {
      hide Flat, Off, Exp, RowOK, TopOK, TreeOK, StepDown, Distinct;
      TreeParts(pool.nodes, pool.cap, rows);
      pos' := pos;
      if size == 0 {
        UptoAll(pool.nodes, pool.cap, rows, 0);
        var n;
        n, pos' := GotoSubtreeLast(0, root, pool, rows, [0]);
        r := CurrentItem(pool, rows, pos', t - 1);
        return;
      }
      ghost var p := pos[size - 1];
      RowKind(pool.nodes, pool.cap, rows, size - 1, p);
      FlatSplit(pool.nodes, Last(rows), p);
      var e := entry[size - 1];
      if e > 0 {
        EntryMoved(pool.nodes, rows, node, entry, entry[size - 1 := e - 1], pos, size - 1);
        entry := entry[size - 1 := e - 1];
        r := CurrentItem(pool, rows, pos, t - 1);
      } else {
        var moved;
        moved, pos' := PrevLeaf(pool, rows, pos, t);
        if moved {
          r := CurrentItem(pool, rows, pos', t - 1);
        } else {
          r := None;
        }
      }
    }

    /** The entry the path is at. */
    method CurrentItem(pool: NodePool, ghost rows: seq<Row>, ghost pos: seq<nat>, ghost t: nat)
        returns (r: Option<Item>)
      requires TreeOK(pool.nodes, pool.cap, rows) && AtEntry(pool, rows, pos, t)
      ensures t < |Content(pool.nodes, rows)| && r == Some(Content(pool.nodes, rows)[t])
    {
      hide Flat, Off, Exp, RowOK, TopOK, TreeOK, StepDown, Distinct;
      TreeParts(pool.nodes, pool.cap, rows);
      RowKind(pool.nodes, pool.cap, rows, size - 1, pos[size - 1]);
      LeafItem(pool.nodes, pool.cap, rows, pos[size - 1], entry[size - 1]);
      var n, e := node[size - 1], entry[size - 1];
      r := Some(Item(pool.nodes[n].keys[e], pool.nodes[n].vals[e]));
    }

    /** Move to the last entry of the previous leaf, if there is one. */
    method PrevLeaf(pool: NodePool, ghost rows: seq<Row>, ghost pos: seq<nat>, ghost t: nat)
        returns (moved: bool, ghost pos': seq<nat>)
      requires TreeOK(pool.nodes, pool.cap, rows) && Points(pool, rows, pos, t) && entry[size - 1] == 0
      modifies this
      ensures moved <==> t > 0
      ensures moved ==> AtEntry(pool, rows, pos', t - 1)
      ensures !moved ==> size == old(size) && node == old(node) && entry == old(entry)
    {
      hide Flat, Off, Exp, RowOK, TopOK, TreeOK, StepDown, Distinct, FirstStep;
      TreeParts(pool.nodes, pool.cap, rows);
      var level := size - 1;
      pos' := pos;
      var b := LeftSiblingBranchLevel(level);
      if b.None? {
        LeftEdge(pool.nodes, rows, node, entry, pos, level);
        OffZero(pool.nodes, Last(rows));
        return false, pos;
      }
      var bl := b.value;
      LeftBranch(pool.nodes, pool.cap, rows, node, entry, pos, bl, level);
      UptoFirst(pool.nodes, rows, pos, bl + 1);
      PathInner(pool.nodes, pool.cap, rows, node, entry, pos, level);
      LeftDescent(pool.nodes, pool.cap, rows, node, entry, pos, bl, level, entry[bl := entry[bl] - 1]);
      entry := entry[bl := entry[bl] - 1];
      var n;
      n, pos' := GotoSubtreeLast(bl + 1, pool.nodes[node[bl]].tree[entry[bl]], pool, rows,
          pos[..bl + 1] + [pos[bl + 1] - 1]);
      moved := true;
    }

    /** Write the value of the current entry. */
    method SetValue(value: Value, pool: NodePool, ghost rows: seq<Row>, ghost pos: seq<nat>, ghost t: nat)
      requires pool.Valid() && TreeOK(pool.nodes, pool.cap, rows) && AtEntry(pool, rows, pos, t)
      modifies pool
      ensures pool.Valid() && TreeOK(pool.nodes, pool.cap, rows) && AtEntry(pool, rows, pos, t)
      ensures var s := old(Content(pool.nodes, rows));
                t < |s| && Content(pool.nodes, rows) == s[t := Item(s[t].crit, value)]
      ensures Owned(old(pool.nodes), pool.nodes, AllIds(rows), AllIds(rows))
    {
      hide Flat, Off, Exp, RowOK, TopOK, TreeOK, StepDown, Distinct, FreeList, AllIds, Owned;
      TreeParts(pool.nodes, pool.cap, rows);
      ghost var p := pos[size - 1];
      RowKind(pool.nodes, pool.cap, rows, size - 1, p);
      LeafItem(pool.nodes, pool.cap, rows, p, entry[size - 1]);
      var n, e := node[size - 1], entry[size - 1];
      var d := pool.nodes[n];
      pool.Put(n, Leaf(d.keys, d.vals[e := value]));
      WriteTree(old(pool.nodes), pool.nodes, pool.cap, rows, p, e, value);
      LastRowChange(old(pool.nodes), pool.nodes, pool.cap, rows, node, entry, pos);
      StartOwned(old(pool.nodes), pool.cap, rows);
      InAllIds(rows, size - 1, p);
      GrownOwned(old(pool.nodes), old(pool.nodes), pool.nodes, AllIds(rows), AllIds(rows), n);
    }
  }
}
