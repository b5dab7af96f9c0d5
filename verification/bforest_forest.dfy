/** A forest: several maps that share one pool, over any sequence of operations. */
module BforestForest {
  import opened Options
  import opened BforestNode
  import opened BforestShape
  import opened BforestPool
  import opened BforestHeal
  import opened BforestGrow
  import opened BforestRemove
  import opened BforestEntries
  import opened BforestMap

  type Dict = map<Key, Value>

  datatype Op =
    | Insert(key: Key, value: Value)
    | Remove(key: Key)
    | Clear
    | Retain(update: (Key, Value) -> Option<Value>)

  /** What an operation means for the finite map that a map stands for. */
  ghost function Apply(m: Dict, op: Op): Dict {
    match op
    case Insert(key, value) => m[key := value]
    case Remove(key) => m - {key}
    case Clear => map[]
    case Retain(update) => map k | k in m && update(k, m[k]).Some? :: update(k, m[k]).value
  }

  /** There is room for every key inserted. */
  ghost predicate Fits(m: Dict, op: Op) {
    op.Insert? && op.key !in m ==> |m| < MAX_ENTRIES
  }

  datatype Command = Command(target: nat, op: Op)

  ghost predicate RunFits(model: seq<Dict>, run: seq<Command>)
    decreases |run|
  {
    run == [] ||
    (&& run[0].target < |model| && Fits(model[run[0].target], run[0].op)
     && RunFits(model[run[0].target := Apply(model[run[0].target], run[0].op)], run[1..]))
  }

  ghost function RunModel(model: seq<Dict>, run: seq<Command>): seq<Dict>
    requires RunFits(model, run)
    decreases |run|
  {
    if run == [] then model
    else RunModel(model[run[0].target := Apply(model[run[0].target], run[0].op)], run[1..])
  }

  // ----- the nodes of a forest -----

  /** The nodes in use are exactly the nodes of the trees, and no two trees share one. */
  ghost predicate Partition(nodes: seq<NodeData>, trees: seq<set<Node>>) {
    && (forall i, n | 0 <= i < |trees| && n in trees[i] :: n < |nodes| && !nodes[n].Free?)
    && (forall i, j | 0 <= i < j < |trees| :: trees[i] !! trees[j])
    && (forall n | 0 <= n < |nodes| && !nodes[n].Free? :: InSome(trees, n))
  }

  ghost predicate InSome(trees: seq<set<Node>>, n: Node) {
    exists i | 0 <= i < |trees| :: n in trees[i]
  }

  /** An operation on one tree that accounts for its own nodes keeps the partition. */
  lemma PartitionStep(nodes: seq<NodeData>, nodes': seq<NodeData>, trees: seq<set<Node>>, t: nat, ids: set<Node>)
    requires Partition(nodes, trees) && t < |trees| && Owned(nodes, nodes', trees[t], ids)
    requires forall n | n in ids :: n < |nodes'| && !nodes'[n].Free?
    ensures Partition(nodes', trees[t := ids])
  {
    var trees' := trees[t := ids];
    forall j | 0 <= j < |trees| && j != t ensures trees[j] !! ids
    && forall n | n in trees[j] :: n < |nodes'| && !nodes'[n].Free? {
      assert trees[j] !! trees[t];
      forall n | n in trees[j] ensures n !in ids && n < |nodes'| && !nodes'[n].Free? {}
    }
    forall n | 0 <= n < |nodes'| && !nodes'[n].Free? ensures InSome(trees', n) {
      if n in ids {
        assert n in trees'[t];
      } else {
        var i :| 0 <= i < |trees| && n in trees[i];
        assert n in trees'[i];
      }
    }
  }

  ghost function Trees(maps: seq<Map>): (r: seq<set<Node>>)
    reads maps
    ensures |r| == |maps| && forall i | 0 <= i < |maps| :: r[i] == AllIds(maps[i].rows)
  {
    if maps == [] then [] else
      var front := maps[..|maps| - 1];
      assert forall m | m in front :: m in maps;
      Trees(front) + [AllIds(maps[|maps| - 1].rows)]
  }

  ghost predicate Different(maps: seq<Map>) {
    forall i, j | 0 <= i < j < |maps| :: maps[i] != maps[j]
  }

  /** The maps stand for `model`. */
  ghost predicate Stands(pool: NodePool, maps: seq<Map>, model: seq<Dict>)
    reads pool, maps
  {
    |model| == |maps| && forall i | 0 <= i < |maps| :: maps[i].Valid(pool) && maps[i].AsMap(pool) == model[i]
  }

  /** A pool with a proper free list, all of whose other nodes belong to one of the maps. */
  ghost predicate Forest(pool: NodePool, maps: seq<Map>, model: seq<Dict>)
    reads pool, maps
  {
    pool.Valid() && Different(maps) && Stands(pool, maps, model) && Partition(pool.nodes, Trees(maps))
  }

  // ----- retaining with a predicate that has no state -----

  function Stateless(update: (Key, Value) -> Option<Value>): (((), Key, Value) -> Verdict<()>) {
    (st: (), key: Key, value: Value) =>
      match update(key, value)
      case Some(v) => Verdict((), v, true)
      case None => Verdict((), value, false)
  }

  ghost function Updated(update: (Key, Value) -> Option<Value>, s: Row): Row {
    Retained(Stateless(update), (), s).1
  }

  lemma {:induction false} UpdatedFrom(update: (Key, Value) -> Option<Value>, s: Row, i: nat) returns (j: nat)
    requires i < |Updated(update, s)|
    ensures j < |s| && s[j].crit == Updated(update, s)[i].crit && update(s[j].crit, s[j].node) ==
            Some(Updated(update, s)[i].node)
    decreases |s|
  {
    if s != [] {
      var first := if update(s[0].crit, s[0].node).Some? then 1 else 0;
      if i < first {
        j := 0;
      } else {
        j := UpdatedFrom(update, s[1..], i - first);
        j := j + 1;
      }
    }
  }

  lemma {:induction false} UpdatedTo(update: (Key, Value) -> Option<Value>, s: Row, j: nat) returns (i: nat)
    requires j < |s| && update(s[j].crit, s[j].node).Some?
    ensures i < |Updated(update, s)| && Updated(update, s)[i] == Item(s[j].crit, update(s[j].crit, s[j].node).value)
    decreases |s|
  {
    if j == 0 {
      i := 0;
    } else {
      i := UpdatedTo(update, s[1..], j - 1);
      i := i + if update(s[0].crit, s[0].node).Some? then 1 else 0;
    }
  }

  /** Retaining with a predicate on single entries is filtering the finite map. */
  lemma RetainFilters(update: (Key, Value) -> Option<Value>, s: Row)
    requires Ascending(s) && Ascending(Updated(update, s))
    ensures ToMap(Updated(update, s)) == Apply(ToMap(s), Retain(update))
  {
    hide ToMap, Ascending, Updated;
    var m, m' := Apply(ToMap(s), Retain(update)), ToMap(Updated(update, s));
    forall k | k in m' ensures k in m && m[k] == m'[k] {
      var i := FromMap(Updated(update, s), k);
      var j := UpdatedFrom(update, s, i);
      InMap(s, j);
    }
    forall k | k in m ensures k in m' {
      var j := FromMap(s, k);
      var i := UpdatedTo(update, s, j);
      InMap(Updated(update, s), i);
    }
  }

  lemma {:induction false} ToMapSize(s: Row)
    requires Ascending(s)
    ensures |ToMap(s)| == |s|
    decreases |s|
  {
    hide ToMap, Ascending;
    if s == [] {
      NoEntries();
    } else {
      ToMapRemove(s, 0);
      assert RemoveAt(s, 0) == s[1..];
      ToMapSize(s[1..]);
      InMap(s, 0);
      DropKey(ToMap(s), s[0].crit);
    }
  }

  lemma DropKey(m: Dict, k: Key)
    requires k in m
    ensures |m - {k}| == |m| - 1
  {
    assert (m - {k}).Keys == m.Keys - {k};
  }

  // ----- operations on one map of a forest -----

  /** One operation, seen from the map it is for. */
  method Perform(m: Map, op: Op, pool: NodePool)
    requires m.Valid(pool) && Fits(m.AsMap(pool), op)
    modifies m, pool
    ensures m.Valid(pool) && m.AsMap(pool) == Apply(old(m.AsMap(pool)), op)
    ensures Owned(old(pool.nodes), pool.nodes, old(AllIds(m.rows)), AllIds(m.rows))
  {
    hide Flat, TreeOK, FreeList, Ascending, Owned, AllIds, ToMap;
    ghost var s := m.Entries(pool);
    ToMapSize(s);
    match op {
      case Insert(key, value) =>
        var _ := m.Insert(key, value, pool);
      case Remove(key) =>
        var _ := m.Remove(key, pool);
      case Clear =>
        m.Clear(pool);
        NoEntries();
      case Retain(update) =>
        var _ := m.Retain(pool, Stateless(update), ());
        RetainFilters(update, s);
    }
  }

  /** One operation, seen from the whole forest: the other maps stay as they are. */
  method Step(pool: NodePool, maps: seq<Map>, c: Command, ghost model: seq<Dict>)
    requires Forest(pool, maps, model) && c.target < |maps| && Fits(model[c.target], c.op)
    modifies pool, maps[c.target]
    ensures Forest(pool, maps, model[c.target := Apply(model[c.target], c.op)])
  {
    hide Flat, TreeOK, FreeList, Ascending, Owned, AllIds, ToMap, Partition, Apply;
    var i := c.target;
    ghost var nodes, trees := pool.nodes, Trees(maps);
    Perform(maps[i], c.op, pool);
    TreeLive(maps[i], pool);
    PartitionStep(nodes, pool.nodes, trees, i, AllIds(maps[i].rows));
    assert Trees(maps) == trees[i := AllIds(maps[i].rows)];
    forall j | 0 <= j < |maps| && j != i ensures maps[j].Valid(pool) && maps[j].AsMap(pool) == model[j] {
      PartitionApart(nodes, trees, j, i);
      if maps[j].root.Some? {
        OtherTree(nodes, pool.nodes, pool.cap, trees[i], AllIds(maps[i].rows), maps[j].rows);
      }
    }
  }

  lemma PartitionApart(nodes: seq<NodeData>, trees: seq<set<Node>>, i: nat, j: nat)
    requires Partition(nodes, trees) && i < |trees| && j < |trees| && i != j
    ensures trees[i] !! trees[j]
  {
    if j < i {
      assert trees[j] !! trees[i];
    }
  }

  lemma TreeLive(m: Map, pool: NodePool)
    requires m.Valid(pool)
    ensures forall n | n in AllIds(m.rows) :: n < |pool.nodes| && !pool.nodes[n].Free?
  {
    hide TreeOK, AllIds, FreeList;
    if m.root.Some? {
      StartOwned(pool.nodes, pool.cap, m.rows);
    } else {
      NoIds([]);
    }
  }

  /** Any run of operations on the maps of a forest: at every moment the pool is split exactly into
  the free list and disjoint trees, and each map holds what the operations on it alone would give. */
  method Run(pool: NodePool, maps: seq<Map>, run: seq<Command>, ghost model: seq<Dict>)
    requires Forest(pool, maps, model) && RunFits(model, run)
    modifies pool, maps
    ensures Forest(pool, maps, RunModel(model, run))
  {
    hide Forest, Apply, Fits;
    ghost var now, rest := model, run;
    for k := 0 to |run|
      invariant Forest(pool, maps, now) && rest == run[k..] && RunFits(now, rest) && RunModel(now, rest) ==
                RunModel(model, run)
    {
      assert |now| == |maps| by { ForestSize(pool, maps, now); }
      Step(pool, maps, run[k], now);
      now, rest := now[run[k].target := Apply(now[run[k].target], run[k].op)], rest[1..];
    }
  }

  lemma ForestSize(pool: NodePool, maps: seq<Map>, model: seq<Dict>)
    requires Forest(pool, maps, model)
    ensures |model| == |maps|
  {
  }

  /** Each map ends up as if the operations on it had been done alone. */
  lemma {:induction false} RunSeparate(model: seq<Dict>, run: seq<Command>, i: nat)
    requires RunFits(model, run) && i < |model|
    ensures |RunModel(model, run)| == |model| && RunModel(model, run)[i] == ApplyAll(model[i], For(run, i))
    decreases |run|
  {
    hide Apply, Fits;
    if run != [] {
      RunSeparate(model[run[0].target := Apply(model[run[0].target], run[0].op)], run[1..], i);
      assert For(run, i) == if run[0].target == i then [run[0].op] + For(run[1..], i) else For(run[1..], i);
    }
  }

  /** The operations of a run that are for map `i`. */
  ghost function For(run: seq<Command>, i: nat): seq<Op> {
    if run == [] then [] else (if run[0].target == i then [run[0].op] else []) + For(run[1..], i)
  }

  ghost function ApplyAll(m: Dict, ops: seq<Op>): Dict
    decreases |ops|
  {
    if ops == [] then m else ApplyAll(Apply(m, ops[0]), ops[1..])
  }

  /** An empty forest. */
  method NewForest(cap: nat, count: nat) returns (pool: NodePool, maps: seq<Map>)
    requires LeafCapacity(cap)
    ensures fresh(pool) && pool.cap == cap && |maps| == count && (forall m | m in maps :: fresh(m))
    ensures Forest(pool, maps, seq(count, i => map[]))
  {
    hide FreeList, AllIds, ToMap, TreeOK;
    pool := new NodePool(cap);
    maps := [];
    for k := 0 to count
      invariant pool.Valid() && pool.nodes == [] && |maps| == k
      invariant fresh(pool) && forall m | m in maps :: fresh(m) && m.root == None && m.rows == []
      invariant Different(maps)
    {
      var m := new Map();
      maps := maps + [m];
    }
    EmptyMaps(pool, maps);
  }

  lemma EmptyMaps(pool: NodePool, maps: seq<Map>)
    requires pool.Valid() && pool.nodes == [] && Different(maps)
             && forall m | m in maps :: m.root == None && m.rows == []
    ensures Forest(pool, maps, seq(|maps|, i => map[]))
  {
    hide FreeList, AllIds, ToMap, TreeOK, Different;
    NoIds([]);
    NoEntries();
    forall i | 0 <= i < |maps| ensures maps[i].Valid(pool) && maps[i].AsMap(pool) == map[] && AllIds(maps[i].rows) ==
        {} {
      assert maps[i] in maps;
    }
  }
}
