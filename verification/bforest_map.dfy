/** Maps in a forest: ordered maps that share one node pool, and their cursors. */
module BforestMap {
  import opened Options
  import opened BforestNode
  import opened BforestShape
  import opened BforestPos
  import opened BforestPool
  import opened BforestHeal
  import opened BforestBalance
  import opened BforestRemove
  import opened BforestGrow
  import opened BforestFind
  import opened BforestFree
  import opened BforestEntries
  import opened BforestPath

  /** Entries a map may hold: as many as there are 32-bit keys. */
  const MAX_ENTRIES: nat := 0x1_0000_0000

  class Map {
    var root: Option<Node>
    ghost var rows: seq<Row>

    ghost predicate Valid(pool: NodePool)
      reads this, pool
    {
      && pool.Valid()
      && (root.None? ==> rows == [])
      && (root.Some? ==>
            TreeOK(pool.nodes, pool.cap, rows) && |rows[0]| == 1 && rows[0][0].node == root.value
            && |Content(pool.nodes, rows)| <= MAX_ENTRIES)
    }

    /** The entries in ascending key order. */
    ghost function Entries(pool: NodePool): (r: Row)
      requires Valid(pool)
      reads this, pool
      ensures Ascending(r)
    {
      if root.None? then [] else Content(pool.nodes, rows)
    }

    /** The finite map this map stands for. */
    ghost function AsMap(pool: NodePool): map<Key, Value>
      requires Valid(pool)
      reads this, pool
    {
      ToMap(Entries(pool))
    }

    constructor ()
      ensures root.None? && rows == []
    {
      root, rows := None, [];
    }

    /** Get the value stored for `key`. */
    method Get(key: Key, pool: NodePool) returns (r: Option<Value>)
      requires Valid(pool)
      ensures r == if key in AsMap(pool) then Some(AsMap(pool)[key]) else None
    {
      hide Flat, TreeOK, ToMap, At, FreeList;
      match root {
        case None =>
          NoEntries();
          r := None;
        case Some(n) =>
          MaxPathSuffices(pool.nodes, pool.cap, rows);
          var path := new Path();
          ghost var pos, t;
          r, pos, t := path.Find(key, n, pool, rows);
          AtMember(Entries(pool), key, t, r.Some?);
      }
    }

    /** The last entry whose key is at most `key`. */
    method GetOrLess(key: Key, pool: NodePool) returns (r: Option<Item>)
      requires Valid(pool)
      ensures LastAtMost(Entries(pool), key, r)
    {
      hide Flat, TreeOK, FreeList, At, Ascending, LastAtMost, OnPath;
      match root {
        case None =>
          NoneAtMost(key);
          r := None;
        case Some(n) =>
          MaxPathSuffices(pool.nodes, pool.cap, rows);
          var path := new Path();
          var v, pos, t := path.Find(key, n, pool, rows);
          AtBound(Entries(pool), key, t, v.Some?);
          FoundAtMost(Entries(pool), key, t, v.Some?);
          if v.Some? {
            r := Some(Item(key, v.value));
          } else {
            ghost var pos';
            r, pos' := path.Prev(n, pool, rows, pos, t);
          }
      }
    }

    /** Insert `(key, value)` and return the old value stored for `key`, if any. */
    method Insert(key: Key, value: Value, pool: NodePool) returns (r: Option<Value>)
      requires Valid(pool) && (key !in AsMap(pool) ==> |Entries(pool)| < MAX_ENTRIES)
      modifies this, pool
      ensures Valid(pool) && AsMap(pool) == old(AsMap(pool))[key := value]
      ensures r == if key in old(AsMap(pool)) then Some(old(AsMap(pool))[key]) else None
      ensures Owned(old(pool.nodes), pool.nodes, old(AllIds(rows)), AllIds(rows))
    {
      hide Flat, TreeOK, ToMap, FreeList, Ascending, Owned, AllIds;
      var c := new MapCursor(this, pool);
      r := c.Insert(key, value);
    }

    /** Remove `key` and return the removed value, if any. */
    method Remove(key: Key, pool: NodePool) returns (r: Option<Value>)
      requires Valid(pool)
      modifies this, pool
      ensures Valid(pool) && AsMap(pool) == old(AsMap(pool)) - {key}
      ensures r == if key in old(AsMap(pool)) then Some(old(AsMap(pool))[key]) else None
      ensures Owned(old(pool.nodes), pool.nodes, old(AllIds(rows)), AllIds(rows))
    {
      hide Flat, TreeOK, ToMap, FreeList, Ascending, Owned, AllIds, At, Path.AtEntry, RemoveAt, Content;
      var c := new MapCursor(this, pool);
      r := c.Goto(key);
      AtMember(Entries(pool), key, c.at, r.Some?);
      if r.Some? {
        r := c.Remove();
      } else {
        c.SameOwned();
        r := None;
      }
    }

    /** Remove all entries. */
    method Clear(pool: NodePool)
      requires Valid(pool)
      modifies this, pool
      ensures Valid(pool) && Entries(pool) == []
      ensures Owned(old(pool.nodes), pool.nodes, old(AllIds(rows)), AllIds(rows))
    {
      hide Flat, TreeOK, FreeList, Ascending, Owned, AllIds, Desc, Freed;
      ghost var n0 := pool.nodes;
      NoIds([]);
      match root {
        case None =>
          NothingOwned(n0);
        case Some(n) =>
          TreeParts(n0, pool.cap, rows);
          TreeUnfreed(n0, pool.cap, rows);
          FreeTree(n, pool, n0, rows, 0, 0);
          FreedOwned(n0, pool.nodes, pool.cap, rows);
          root, rows := None, [];
      }
    }

    /** Keep the entries for which the predicate holds, with the values it leaves in them. */
    method Retain<S>(pool: NodePool, pred: (S, Key, Value) -> Verdict<S>, state0: S) returns (state: S)
      requires Valid(pool)
      modifies this, pool
      ensures Valid(pool) && (state, Entries(pool)) == Retained(pred, state0, old(Entries(pool)))
      ensures Owned(old(pool.nodes), pool.nodes, old(AllIds(rows)), AllIds(rows))
    {
      hide Flat, TreeOK, FreeList, Ascending, Owned, AllIds, Retained, ToMap, RemoveAt;
      var c := new MapCursor(this, pool);
      var first := c.GotoFirst();
      state := state0;
      ghost var s := Entries(pool);
      ghost var kept: Row, rest := [], s;
      c.SameOwned();
      RetainedNone(pred, state0, s);
      var it := c.Current();
      while it.Some?
        modifies this, pool, c, c.path
        invariant c.Valid() && c.at == |kept| && Entries(pool) == kept + rest
        invariant it == if rest == [] then None else Some(rest[0])
        invariant var r := Retained(pred, state, rest); Retained(pred, state0, s) == (r.0, kept + r.1)
        invariant Owned(old(pool.nodes), pool.nodes, old(AllIds(rows)), AllIds(rows))
        decreases |rest|
      {
        ghost var n1, ids1 := pool.nodes, AllIds(rows);
        var v := pred(state, it.value.crit, it.value.node);
        RetainedStep(pred, state, kept, rest, v);
        it := c.RetainOne(v, kept, rest);
        OwnedTransitive(old(pool.nodes), n1, pool.nodes, old(AllIds(rows)), ids1, AllIds(rows));
        state, kept, rest := v.state, kept + Kept1(v, rest[0].crit), rest[1..];
      }
      RetainedAll(pred, state, rest);
    }
  }

  /** What a predicate decides about one entry: its own new state, the new value, and whether to keep it. */
  datatype Verdict<S> = Verdict(state: S, value: Value, keep: bool)

  /** Apply a stateful predicate to entries from left to right: its final state and the entries kept. */
  ghost function Retained<S>(f: (S, Key, Value) -> Verdict<S>, st: S, s: Row): (S, Row)
  {
    if s == [] then (st, []) else
      var v := f(st, s[0].crit, s[0].node);
      var rest := Retained(f, v.state, s[1..]);
      (rest.0, Kept1(v, s[0].crit) + rest.1)
  }

  ghost function Kept1<S>(v: Verdict<S>, key: Key): Row {
    if v.keep then [Item(key, v.value)] else []
  }

  lemma RetainedNone<S>(f: (S, Key, Value) -> Verdict<S>, st: S, s: Row)
    ensures var r := Retained(f, st, s); r == (r.0, [] + r.1)
  {
    hide Retained;
    var r := Retained(f, st, s);
    assert [] + r.1 == r.1;
  }

  /** The predicate `f` that also writes down the entries it is called with. */
  ghost function Logging<S>(f: (S, Key, Value) -> Verdict<S>): (((S, Row), Key, Value) -> Verdict<(S, Row)>) {
    (st: (S, Row), key: Key, value: Value) =>
      var v := f(st.0, key, value); Verdict((v.state, st.1 + [Item(key, value)]), v.value, v.keep)
  }

  /** The predicate is called with every entry once, in ascending order, whatever it answers. */
  lemma {:induction false} RetainedCalls<S>(f: (S, Key, Value) -> Verdict<S>, st: S, log: Row, s: Row)
    ensures Retained(Logging(f), (st, log), s) == ((Retained(f, st, s).0, log + s), Retained(f, st, s).1)
    decreases |s|
  {
    if s != [] {
      var v := f(st, s[0].crit, s[0].node);
      RetainedCalls(f, v.state, log + [s[0]], s[1..]);
      assert log + [s[0]] + s[1..] == log + s;
    } else {
      assert log + s == log;
    }
  }

  /** One round: the entry `rest[0]` is updated in place, then passed over or removed. */
  lemma RetainedStep<S>(f: (S, Key, Value) -> Verdict<S>, st: S, kept: Row, rest: Row, v: Verdict<S>)
    requires rest != [] && v == f(st, rest[0].crit, rest[0].node)
    ensures var r, r' := Retained(f, st, rest), Retained(f, v.state, rest[1..]);
            r.0 == r'.0 && kept + r.1 == kept + Kept1(v, rest[0].crit) + r'.1
  {
  }

  lemma UpdateAt(kept: Row, rest: Row, x: Item)
    requires rest != []
    ensures var s := (kept + rest)[|kept| := x]; s == kept + [x] + rest[1..] && RemoveAt(s, |kept|) == kept + rest[1..]
  {
  }

  lemma RetainedAll<S>(f: (S, Key, Value) -> Verdict<S>, st: S, s: Row)
    requires s == []
    ensures Retained(f, st, s) == (st, [])
  {
  }

  lemma NoEntries()
    ensures ToMap([]) == map[]
  {
  }

  /** `r` is the entry with the greatest key that is at most `key`, if there is one. */
  ghost predicate LastAtMost(s: Row, key: Key, r: Option<Item>) {
    match r
    case Some(it) => it in s && it.crit <= key && forall x | x in s :: x.crit <= it.crit || key < x.crit
    case None => forall x | x in s :: key < x.crit
  }

  lemma NoneAtMost(key: Key)
    ensures LastAtMost([], key, None)
  {
  }

  lemma FoundAtMost(s: Row, key: Key, t: nat, found: bool)
    requires Ascending(s) && At(s, key, t, found)
    ensures LastAtMost(s, key, if found then Some(s[t]) else if t > 0 then Some(s[t - 1]) else None)
  {
    forall x | x in s ensures key < x.crit
    || (if found then x.crit <= s[t].crit else t > 0 && x.crit <= s[t - 1].crit) {
      var i :| 0 <= i < |s| && s[i] == x;
    }
  }

  lemma AtNone(key: Key)
    ensures At([], key, 0, false)
  {
  }

  lemma AtBound(content: Row, key: Key, t: nat, found: bool)
    requires At(content, key, t, found)
    ensures t <= |content| && (found ==> t < |content|)
  {
  }

  /** A position in a map: an entry, or off the end. */
  class MapCursor {
    const map_: Map
    const pool: NodePool
    const path: Path
    ghost var pos: seq<nat>
    /** Index of the current entry; the number of entries when off the end. */
    ghost var at: nat

    ghost predicate Valid()
      reads this, map_, pool, path
    {
      && map_.Valid(pool) && path.Arrays() && at <= |map_.Entries(pool)|
      && if path.size > 0 then map_.root.Some? && path.AtEntry(pool, map_.rows, pos, at) else at == |map_.Entries(pool)|
    }

    constructor (m: Map, pool: NodePool)
      requires m.Valid(pool)
      ensures Valid() && map_ == m && this.pool == pool && fresh(path) && at == |m.Entries(pool)|
    {
      map_, this.pool := m, pool;
      path := new Path();
      pos, at := [], |m.Entries(pool)|;
    }

    /** Move to the next entry and return it. */
    method Next() returns (r: Option<Item>)
      requires Valid()
      modifies this, path
      ensures Valid() && at == if old(at) < |map_.Entries(pool)| then old(at) + 1 else old(at)
      ensures r == if at < |map_.Entries(pool)| then Some(map_.Entries(pool)[at]) else None
    {
      hide Flat, TreeOK, FreeList, Exp, Off;
      if path.size > 0 {
        EntryIndex(pool.nodes, pool.cap, map_.rows, path.node, path.entry, pos);
      }
      ghost var p;
      r, p := path.Next(pool, map_.rows, pos, at);
      pos := p;
      at := if at < |map_.Entries(pool)| then at + 1 else at;
    }

    /** Move to the previous entry and return it; stay at the first one. */
    method Prev() returns (r: Option<Item>)
      requires Valid()
      modifies this, path
      ensures Valid() && at == if old(at) > 0 then old(at) - 1 else 0
      ensures r == if old(at) > 0 then Some(map_.Entries(pool)[at]) else None
    {
      hide Flat, TreeOK, FreeList, Exp, Off;
      match map_.root {
        case None => r := None;
        case Some(root) =>
          MaxPathSuffices(pool.nodes, pool.cap, map_.rows);
          ghost var p;
          r, p := path.Prev(root, pool, map_.rows, pos, at);
          if at > 0 {
            pos, at := p, at - 1;
          }
      }
    }

    /** The current key and value, or `None` off the end. */
    method Current() returns (r: Option<Item>)
      requires Valid()
      ensures r == if at < |map_.Entries(pool)| then Some(map_.Entries(pool)[at]) else None
    {
      hide Flat, TreeOK, FreeList, Exp, Off;
      if path.size == 0 {
        return None;
      }
      r := path.CurrentItem(pool, map_.rows, pos, at);
    }

    /** Move to `key`, or to the next larger key or the end if it is absent. */
    method Goto(key: Key) returns (r: Option<Value>)
      requires Valid()
      modifies this, path
      ensures Valid() && At(map_.Entries(pool), key, at, r.Some?)
      ensures r.Some? ==> map_.Entries(pool)[at] == Item(key, r.value)
    {
      hide Flat, TreeOK, FreeList, Exp, Off, At, OnPath, Ascending;
      match map_.root {
        case None =>
          AtNone(key);
          r := None;
        case Some(root) =>
          MaxPathSuffices(pool.nodes, pool.cap, map_.rows);
          ghost var p, t;
          r, p, t := path.Find(key, root, pool, map_.rows);
          AtBound(map_.Entries(pool), key, t, r.Some?);
          pos, at := p, t;
          if r.None? {
            p := path.Normalize(pool, map_.rows, p, t);
            pos := p;
          }
      }
    }

    /** Move to the first entry. */
    method GotoFirst() returns (r: Option<Value>)
      requires Valid()
      modifies this, path
      ensures Valid() && at == 0
      ensures r == if map_.Entries(pool) == [] then None else Some(map_.Entries(pool)[0].node)
    {
      hide Flat, TreeOK, FreeList, Exp, Off;
      match map_.root {
        case None => r := None;
        case Some(root) =>
          MaxPathSuffices(pool.nodes, pool.cap, map_.rows);
          var it, p := path.First(root, pool, map_.rows);
          pos, at := p, 0;
          r := Some(it.node);
      }
    }

    /** Insert `(key, value)`, or replace the value if the key is present, and leave the cursor there.
    Returns the old value. */
    method Insert(key: Key, value: Value) returns (r: Option<Value>)
      requires Valid() && (key !in map_.AsMap(pool) ==> |map_.Entries(pool)| < MAX_ENTRIES)
      modifies this, path, map_, pool
      ensures Valid() && at < |map_.Entries(pool)| && map_.Entries(pool)[at] == Item(key, value)
      ensures map_.AsMap(pool) == old(map_.AsMap(pool))[key := value]
      ensures r == if key in old(map_.AsMap(pool)) then Some(old(map_.AsMap(pool))[key]) else None
      ensures Owned(old(pool.nodes), pool.nodes, old(AllIds(map_.rows)), AllIds(map_.rows))
    {
      hide Flat, TreeOK, FreeList, Exp, Off, At, ToMap, AllIds, Owned, InsertAt, OnPath, Ascending;
      match map_.root {
        case None =>
          var root := pool.AllocNode(Leaf([key], [value]));
          map_.root, map_.rows := Some(root), [[Item(0, root)]];
          path.SetRootNode(root);
          FirstLeaf(old(pool.nodes), pool.nodes, pool.cap, path.node, path.entry, root, key, value);
          pos, at := [0], 0;
          NoEntries();
          r := None;
        case Some(root) =>
          MaxPathSuffices(pool.nodes, pool.cap, map_.rows);
          ghost var p, t;
          r, p, t := path.Find(key, root, pool, map_.rows);
          AtMember(map_.Entries(pool), key, t, r.Some?);
          pos, at := p, t;
          if r.Some? {
            ToMapUpdate(map_.Entries(pool), t, value);
            path.SetValue(value, pool, map_.rows, p, t);
          } else {
            InsertHere(key, value);
          }
      }
    }

    /** Insert at the place where `key` was searched for and not found. */
    method InsertHere(key: Key, value: Value)
      requires map_.Valid(pool) && map_.root.Some? && path.Points(pool, map_.rows, pos, at)
               && At(map_.Entries(pool), key, at, false)
      requires path.entry[path.size - 1] == 0 ==> pos[path.size - 1] == 0
      requires |map_.Entries(pool)| < MAX_ENTRIES
      modifies this, path, map_, pool
      ensures Valid() && at < |map_.Entries(pool)| && map_.Entries(pool)[at] == Item(key, value)
      ensures map_.AsMap(pool) == old(map_.AsMap(pool))[key := value]
      ensures Owned(old(pool.nodes), pool.nodes, old(AllIds(map_.rows)), AllIds(map_.rows))
    {
      hide Flat, TreeOK, FreeList, Exp, Off, ToMap, AllIds, Owned, InsertAt, StepDown, At, Ascending, TopOK, RowOK;
      ghost var s, t := map_.Entries(pool), at;
      ToMapInsert(s, key, value, t);
      PointToInsert(pool.nodes, pool.cap, map_.rows, path.node, path.entry, pos, key, value, t);
      InsertSize(s, t, Item(key, value));
      ghost var rows', p;
      var root;
      root, rows', p := path.Insert(key, value, pool, map_.rows, pos);
      map_.root, map_.rows := Some(root), rows';
      pos := p;
      InsertAtIndex(s, t, Item(key, value));
    }

    /** Overwrite the value of the current entry. */
    method SetValue(value: Value)
      requires Valid() && at < |map_.Entries(pool)|
      modifies pool
      ensures Valid() && map_.Entries(pool) == old(map_.Entries(pool)[at := Item(map_.Entries(pool)[at].crit, value)])
      ensures Owned(old(pool.nodes), pool.nodes, AllIds(map_.rows), AllIds(map_.rows))
    {
      hide Flat, TreeOK, FreeList, Exp, Off, AllIds, Owned, OnPath, Ascending;
      path.SetValue(value, pool, map_.rows, pos, at);
    }

    /** Remove the current entry, if any, and return its value; the cursor moves on to the next entry. */
    method Remove() returns (r: Option<Value>)
      requires Valid()
      modifies this, path, map_, pool
      ensures Valid() && at == old(at)
      ensures old(at) < |old(map_.Entries(pool))| ==>
                && r == Some(old(map_.Entries(pool)[at].node))
                && map_.Entries(pool) == RemoveAt(old(map_.Entries(pool)), at)
                && map_.AsMap(pool) == old(map_.AsMap(pool)) - {old(map_.Entries(pool)[at].crit)}
      ensures old(at) >= |old(map_.Entries(pool))| ==> r.None? && map_.Entries(pool) == old(map_.Entries(pool))
      ensures Owned(old(pool.nodes), pool.nodes, old(AllIds(map_.rows)), AllIds(map_.rows))
    {
      hide Flat, TreeOK, FreeList, Exp, Off, ToMap, AllIds, Owned, OnPath, Landed, Ascending, RemoveAt;
      var it := Current();
      if it.None? {
        SameOwned();
        return None;
      }
      ghost var s := map_.Entries(pool);
      ToMapRemove(s, at);
      RemoveSize(s, at);
      ghost var rows', p;
      var root;
      root, rows', p := path.Remove(pool, map_.rows, pos);
      map_.root, map_.rows := root, if root.None? then [] else rows';
      NoIds([]);
      pos := p;
      if root.Some? {
        LandedAt(pool.nodes, map_.rows, path.node, path.entry, pos, at, path.size);
      }
      r := Some(it.value.node);
    }

    /** Write the new value of the current entry, then pass over it or remove it. */
    method RetainOne<S>(v: Verdict<S>, ghost kept: Row, ghost rest: Row) returns (it: Option<Item>)
      requires Valid() && rest != [] && at == |kept| && map_.Entries(pool) == kept + rest
      modifies this, path, map_, pool
      ensures var kept' := kept + Kept1(v, rest[0].crit);
                Valid() && at == |kept'| && map_.Entries(pool) == kept' + rest[1..]
      ensures it == if rest[1..] == [] then None else Some(rest[1..][0])
      ensures Owned(old(pool.nodes), pool.nodes, old(AllIds(map_.rows)), AllIds(map_.rows))
    {
      hide Flat, TreeOK, FreeList, Exp, Off, AllIds, Owned, Path.AtEntry, Ascending, ToMap, RemoveAt, Content;
      SetValue(v.value);
      UpdateAt(kept, rest, Item(rest[0].crit, v.value));
      if v.keep {
        it := Next();
      } else {
        ghost var n1, ids1 := pool.nodes, AllIds(map_.rows);
        var _ := Remove();
        OwnedTransitive(old(pool.nodes), n1, pool.nodes, old(AllIds(map_.rows)), ids1, AllIds(map_.rows));
        it := Current();
      }
    }

    lemma SameOwned()
      requires Valid()
      ensures Owned(pool.nodes, pool.nodes, AllIds(map_.rows), AllIds(map_.rows))
    {
      hide Flat, TreeOK, FreeList, AllIds, Owned;
      if map_.root.Some? {
        StartOwned(pool.nodes, pool.cap, map_.rows);
      } else {
        NoIds([]);
        NothingOwned(pool.nodes);
      }
    }
  }

  /** The path is at entry `t`. */
  ghost predicate AtPlace(nodes: seq<NodeData>, rows: seq<Row>, node: seq<Node>, entry: seq<nat>, pos: seq<nat>,
      t: nat, size: nat) {
    && rows != [] && size == |rows| <= |pos| && OnPath(nodes, rows, node, entry, pos, size - 1)
    && entry[size - 1] < |Exp(nodes, Last(rows)[pos[size - 1]])| && Target(nodes, rows, entry, pos, size - 1) == t
  }

  lemma LandedAt(nodes: seq<NodeData>, rows: seq<Row>, node: seq<Node>, entry: seq<nat>, pos: seq<nat>, t: nat,
      size: nat)
    requires rows != [] && Landed(nodes, rows, node, entry, pos, |rows| - 1, t, |rows|, size)
    ensures if t < |Content(nodes, rows)| then AtPlace(nodes, rows, node, entry, pos, t, size) else size == 0
  {
    hide Flat, Off, Exp, StepDown;
  }

  lemma TreeUnfreed(nodes: seq<NodeData>, cap: nat, rows: seq<Row>)
    requires TreeOK(nodes, cap, rows)
    ensures SameOn(nodes, nodes, Desc(nodes, rows, 0, 0, 1))
  {
    hide TreeOK, AllIds, Desc;
    TreeDesc(nodes, cap, rows);
    StartOwned(nodes, cap, rows);
  }

  lemma TreeDesc(nodes: seq<NodeData>, cap: nat, rows: seq<Row>)
    requires TreeOK(nodes, cap, rows)
    ensures Desc(nodes, rows, 0, 0, 1) == AllIds(rows)
  {
    hide RowOK, Distinct, AllIds, Ascending, Desc, Flat;
    DescAll(nodes, cap, rows, 0);
    assert rows[0..] == rows;
  }

  lemma FreedOwned(nodes: seq<NodeData>, nodes': seq<NodeData>, cap: nat, rows: seq<Row>)
    requires TreeOK(nodes, cap, rows) && Freed(nodes, nodes', Desc(nodes, rows, 0, 0, 1))
    ensures Owned(nodes, nodes', AllIds(rows), {})
  {
    hide TreeOK, AllIds, Desc;
    TreeDesc(nodes, cap, rows);
  }

  lemma NothingOwned(nodes: seq<NodeData>)
    ensures Owned(nodes, nodes, {}, {})
  {
  }

  lemma RemoveSize(s: Row, t: nat)
    requires t < |s|
    ensures |RemoveAt(s, t)| == |s| - 1
  {
  }

  /** A place found for an absent key is a proper place to insert it. */
  lemma PointToInsert(nodes: seq<NodeData>, cap: nat, rows: seq<Row>, node: seq<Node>, entry: seq<nat>, pos: seq<nat>,
      key: Key, value: Value, t: nat)
    requires TreeOK(nodes, cap, rows) && rows != [] && OnPath(nodes, rows, node, entry, pos, |rows| - 1)
    requires entry[|rows| - 1] <= |Exp(nodes, Last(rows)[pos[|rows| - 1]])| && t ==
             Target(nodes, rows, entry, pos, |rows| - 1)
    requires At(Content(nodes, rows), key, t, false) && (entry[|rows| - 1] == 0 ==> pos[|rows| - 1] == 0)
    ensures InsertPoint(nodes, rows, node, entry, pos, key, value)
  {
    hide Flat, Off, RowOK, TopOK, StepDown, InsertAt;
    AtInsert(Content(nodes, rows), key, value, t);
    LeafAt(nodes, cap, rows, pos[|rows| - 1]);
  }

  /** A single leaf with one entry is a tree. */
  lemma FirstLeaf(nodes: seq<NodeData>, nodes': seq<NodeData>, cap: nat, node: seq<Node>, entry: seq<nat>, root: Node,
      key: Key, value: Value)
    requires LeafCapacity(cap) && |node| == |entry| > 0 && node[0] == root && entry[0] == 0
    requires root < |nodes| ==> nodes[root].Free? && nodes' == nodes[root := Leaf([key], [value])]
    requires root >= |nodes| ==> root == |nodes| && nodes' == nodes + [Leaf([key], [value])]
    ensures var rows := [[Item(0, root)]];
            && TreeOK(nodes', cap, rows) && Content(nodes', rows) == [Item(key, value)]
            && OnPath(nodes', rows, node, entry, [0], 0) && |Exp(nodes', rows[0][0])| == 1
            && Target(nodes', rows, entry, [0], 0) == 0
            && Owned(nodes, nodes', AllIds([]), AllIds(rows))
    ensures ToMap([Item(key, value)]) == map[][key := value]
  {
    var row := [Item(0, root)];
    var rows := [row];
    FlatSingle(nodes', row[0]);
    assert Exp(nodes', row[0]) == [Item(key, value)];
    assert ItemOK(nodes', cap, true, row, 0) && Occupied(nodes', cap, row, 0);
    OneDistinct(rows);
    OffZero(nodes', row);
    OneRowIds(row);
    assert Ids(row) == {root} by { assert row[0].node == root; }
    OneOwned(nodes, nodes', root);
    OneEntry(key, value);
  }

  lemma OneEntry(key: Key, value: Value)
    ensures Ascending([Item(key, value)]) && ToMap([Item(key, value)]) == map[key := value]
  {
    var s := [Item(key, value)];
    InMap(s, 0);
  }

  lemma OneOwned(nodes: seq<NodeData>, nodes': seq<NodeData>, n: Node)
    requires n < |nodes'| && !nodes'[n].Free?
    requires n < |nodes| ==> nodes[n].Free? && nodes' == nodes[n := nodes'[n]]
    requires n >= |nodes| ==> n == |nodes| && nodes' == nodes + [nodes'[n]]
    ensures Owned(nodes, nodes', {}, {n})
  {
  }

  /** An iterator over the entries of a map. */
  class MapIter {
    const map_: Map
    const pool: NodePool
    const path: Path
    /** The root before the first entry was returned, `None` afterwards. */
    var root: Option<Node>
    ghost var pos: seq<nat>
    /** Number of entries returned. */
    ghost var count: nat

    ghost predicate Valid()
      reads this, map_, pool, path
    {
      && map_.Valid(pool) && path.Arrays()
      && if root.Some? then root == map_.root && count == 0
         else if path.size > 0 then count > 0 && map_.root.Some? && path.AtEntry(pool, map_.rows, pos, count - 1)
         else count == |map_.Entries(pool)|
    }

    constructor (m: Map, pool: NodePool)
      requires m.Valid(pool)
      ensures Valid() && map_ == m && this.pool == pool && fresh(path) && count == 0
    {
      map_, this.pool, root := m, pool, m.root;
      path := new Path();
      pos, count := [], 0;
    }

    /** The next entry in key order; `None` for ever once all were returned. */
    method Next() returns (r: Option<Item>)
      requires Valid()
      modifies this, path
      ensures Valid()
      ensures old(count) < |map_.Entries(pool)| ==> r == Some(map_.Entries(pool)[old(count)]) && count == old(count) + 1
      ensures old(count) >= |map_.Entries(pool)| ==> r.None? && count == old(count)
    {
      hide Flat, TreeOK, FreeList, Exp, Off, OnPath;
      ghost var p;
      match root {
        case Some(n) =>
          MaxPathSuffices(pool.nodes, pool.cap, map_.rows);
          root := None;
          var it;
          it, p := path.First(n, pool, map_.rows);
          r, pos, count := Some(it), p, 1;
        case None =>
          if path.size > 0 {
            EntryIndex(pool.nodes, pool.cap, map_.rows, path.node, path.entry, pos);
          }
          r, p := path.Next(pool, map_.rows, pos, if count > 0 then count - 1 else 0);
          pos, count := p, if count < |map_.Entries(pool)| then count + 1 else count;
      }
    }
  }

  /** The entry a path is at exists. */
  lemma EntryIndex(nodes: seq<NodeData>, cap: nat, rows: seq<Row>, node: seq<Node>, entry: seq<nat>, pos: seq<nat>)
    requires TreeOK(nodes, cap, rows) && OnPath(nodes, rows, node, entry, pos, |rows| - 1)
    requires entry[|rows| - 1] < |Exp(nodes, Last(rows)[pos[|rows| - 1]])|
    ensures Target(nodes, rows, entry, pos, |rows| - 1) < |Content(nodes, rows)|
  {
    hide Flat, Off, Exp, TreeOK;
    TreeParts(nodes, cap, rows);
    LeafItem(nodes, cap, rows, pos[|rows| - 1], entry[|rows| - 1]);
  }
}
