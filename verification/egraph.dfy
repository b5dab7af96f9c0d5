/** Building an e-graph: value numbering of pure instructions and rewriting by rules. */
module Egraph {
  import opened EgraphValues
  import opened EgraphClasses
  import opened EgraphTable

  const REWRITE_LIMIT: nat := 5
  const MATCHES_LIMIT: nat := 5

  /** The value of an entry means what the instruction means, and is available wherever its operands are. */
  ghost predicate BucketOK(dom: (Block, Block) -> bool, entry: Block, sem: (Op, seq<int>) -> int, avail: Avail,
      m: Meanings, b: Bucket) {
    && AllIn(b.args, avail) && AllIn(b.args, m) && b.value in avail && b.value in m
    && m[b.value] == sem(b.op, Means(m, b.args))
    && (forall d | Deepest(dom, entry, avail, b.args, d) :: dom(avail[b.value], d))
  }

  lemma BucketGrows(dom: (Block, Block) -> bool, entry: Block, sem: (Op, seq<int>) -> int, a: Avail, m: Meanings,
      a': Avail, m': Meanings, b: Bucket)
    requires BucketOK(dom, entry, sem, a, m, b) && Grows(a, m, a', m')
    ensures BucketOK(dom, entry, sem, a', m', b)
  {
    assert Means(m', b.args) == Means(m, b.args);
    forall d | Deepest(dom, entry, a', b.args, d) ensures dom(a'[b.value], d) {
      if b.args != [] {
        var i :| 0 <= i < |b.args| && a'[b.args[i]] == d;
        assert a[b.args[i]] == d;
      }
      assert Deepest(dom, entry, a, b.args, d);
    }
  }

  /** An entry whose operands are of the same classes as `args` serves for them. */
  lemma BucketServes(dom: (Block, Block) -> bool, entry: Block, sem: (Op, seq<int>) -> int, cls: Classes, avail: Avail,
      m: Meanings, b: Bucket, args: seq<Value>, d: Block)
    requires BucketOK(dom, entry, sem, avail, m, b) && ClassesOK(cls, avail, m)
    requires AllIn(args, avail) && SameClasses(cls, b.args, args) && Deepest(dom, entry, avail, args, d)
    ensures AllIn(args, m) && m[b.value] == sem(b.op, Means(m, args)) && dom(avail[b.value], d)
  {
    SameMeans(cls, avail, m, b.args, args);
    assert SameClasses(cls, args, b.args);
    SameDeepest(dom, entry, cls, avail, m, args, b.args, d);
  }

  datatype EnodeInst = New(op: Op, args: seq<Value>) | Existing(result: Value, op: Op, args: seq<Value>)

  /** No value leaves the classes, and all values that were added are new. */
  ghost predicate NewOnly(cls: Classes, cls': Classes, next: nat) {
    (forall v | v in cls :: v in cls') && forall v | v in cls' && v !in cls :: v >= next
  }

  /** No value is replaced differently than before. */
  ghost predicate OptGrows(opt: map<Value, Value>, opt': map<Value, Value>) {
    forall w | w in opt :: w in opt' && opt'[w] == opt[w]
  }

  ghost predicate Permuted(xs: seq<Value>, ys: seq<Value>) {
    multiset(xs) == multiset(ys)
  }

  // ----- the graph and its steps -----

  ghost predicate GraphOK(dom: (Block, Block) -> bool, entry: Block, sem: (Op, seq<int>) -> int,
      next: nat, avail: Avail, cls: Classes, defs: Defs, gvn: seq<Bucket>, m: Meanings) {
    && ClassesOK(cls, avail, m) && DefsOK(dom, sem, defs, avail, m)
    && (forall v | v in avail :: dom(entry, avail[v]))
    && (forall i | 0 <= i < |gvn| :: BucketOK(dom, entry, sem, avail, m, gvn[i]))
    && (forall v | v in cls :: v < next && cls[v] in cls)
    && (forall v | v in m :: v < next)
  }

  lemma GraphGrows(dom: (Block, Block) -> bool, entry: Block, sem: (Op, seq<int>) -> int,
      avail: Avail, m: Meanings, defs: Defs, gvn: seq<Bucket>, avail': Avail, m': Meanings)
    requires Grows(avail, m, avail', m') && DefsOK(dom, sem, defs, avail, m) && forall i | 0 <= i < |gvn| ::
             BucketOK(dom, entry, sem, avail, m, gvn[i])
    ensures DefsOK(dom, sem, defs, avail', m') && forall i | 0 <= i < |gvn| ::
            BucketOK(dom, entry, sem, avail', m', gvn[i])
  {
    hide BucketOK, DefsOK;
    DefsGrow(dom, sem, defs, avail, m, avail', m');
    forall i | 0 <= i < |gvn| ensures BucketOK(dom, entry, sem, avail', m', gvn[i]) {
      BucketGrows(dom, entry, sem, avail, m, avail', m', gvn[i]);
    }
  }

  /** A new value with a given meaning, in a class of its own. */
  lemma MakeValue(dom: (Block, Block) -> bool, entry: Block, sem: (Op, seq<int>) -> int,
      next: nat, avail: Avail, cls: Classes, defs: Defs, gvn: seq<Bucket>, m: Meanings, x: int)
    requires GraphOK(dom, entry, sem, next, avail, cls, defs, gvn, m)
    ensures GraphOK(dom, entry, sem, next + 1, avail, cls[next := next], defs, gvn, m[next := x])
    ensures Isolated(cls[next := next], avail, next) && next !in defs
    ensures Grows(avail, m, avail, m[next := x])
  {
    hide BucketOK, DefsOK, DefOK;
    GraphGrows(dom, entry, sem, avail, m, defs, gvn, avail, m[next := x]);
    assert next !in avail;
    if next in defs {
      DefAvail(dom, sem, defs, avail, m, next);
    }
  }

  lemma DefAvail(dom: (Block, Block) -> bool, sem: (Op, seq<int>) -> int, defs: Defs, avail: Avail, m: Meanings,
      v: Value)
    requires DefsOK(dom, sem, defs, avail, m) && v in defs
    ensures v in avail && v in m
  {
    assert DefOK(dom, sem, defs, avail, m, v);
  }

  /** A value of the original function gets a class of its own. */
  lemma AddClass(dom: (Block, Block) -> bool, entry: Block, sem: (Op, seq<int>) -> int,
      next: nat, avail: Avail, cls: Classes, defs: Defs, gvn: seq<Bucket>, m: Meanings, v: Value)
    requires GraphOK(dom, entry, sem, next, avail, cls, defs, gvn, m) && v !in cls && v < next
    ensures GraphOK(dom, entry, sem, next, avail, cls[v := v], defs, gvn, m) && Isolated(cls[v := v], avail, v)
  {
    hide BucketOK, DefsOK;
  }

  /** A value of the skeleton is available in its own block. */
  lemma PlaceSkeleton(dom: (Block, Block) -> bool, entry: Block, sem: (Op, seq<int>) -> int,
      next: nat, avail: Avail, cls: Classes, defs: Defs, gvn: seq<Bucket>, m: Meanings, v: Value, b: Block)
    requires GraphOK(dom, entry, sem, next, avail, cls, defs, gvn, m) && Isolated(cls, avail, v) && v in m
             && dom(entry, b)
    ensures GraphOK(dom, entry, sem, next, avail[v := b], cls, defs, gvn, m) && Grows(avail, m, avail[v := b], m)
  {
    hide BucketOK, DefsOK, ClassesOK, Grows;
    AddOK(cls, avail, m, v, b);
    GraphGrows(dom, entry, sem, avail, m, defs, gvn, avail[v := b], m);
  }

  lemma DefsAdd(dom: (Block, Block) -> bool, sem: (Op, seq<int>) -> int, defs: Defs, avail: Avail, m: Meanings,
      v: Value, def: Def)
    requires DefsOK(dom, sem, defs, avail, m) && DefOK(dom, sem, defs[v := def], avail, m, v)
    ensures DefsOK(dom, sem, defs[v := def], avail, m)
  {
    var defs' := defs[v := def];
    forall u | u in defs' ensures DefOK(dom, sem, defs', avail, m, u) {
      if u != v {
        assert DefOK(dom, sem, defs, avail, m, u);
      }
    }
  }

  /** An isolated value gets its block and definition. */
  lemma PlaceValue(dom: (Block, Block) -> bool, entry: Block, sem: (Op, seq<int>) -> int,
      next: nat, avail: Avail, cls: Classes, defs: Defs, gvn: seq<Bucket>, m: Meanings, v: Value, b: Block, def: Def)
    requires GraphOK(dom, entry, sem, next, avail, cls, defs, gvn, m) && Isolated(cls, avail, v) && v in m
             && dom(entry, b)
    requires DefOK(dom, sem, defs[v := def], avail[v := b], m, v)
    ensures GraphOK(dom, entry, sem, next, avail[v := b], cls, defs[v := def], gvn, m)
    ensures Grows(avail, m, avail[v := b], m)
  {
    hide BucketOK, ClassesOK, Grows, DefsOK;
    AddOK(cls, avail, m, v, b);
    GraphGrows(dom, entry, sem, avail, m, defs, gvn, avail[v := b], m);
    DefsAdd(dom, sem, defs, avail[v := b], m, v, def);
  }

  /** Merging two classes. */
  lemma MergeGraph(dom: (Block, Block) -> bool, entry: Block, sem: (Op, seq<int>) -> int,
      next: nat, avail: Avail, p: Partition, defs: Defs, gvn: seq<Bucket>, m: Meanings, a: Value, b: Value)
    requires GraphOK(dom, entry, sem, next, avail, p.cls, defs, gvn, m) && a in avail && b in avail && avail[a] ==
             avail[b] && m[a] == m[b]
    ensures a in p.cls && b in p.cls && GraphOK(dom, entry, sem, next, avail, United(p, a, b).cls, defs, gvn, m)
  {
    hide BucketOK, DefsOK;
    MergeOK(p, avail, m, a, b);
  }

  /** An entry for the operands of an instruction. */
  lemma PutBucket(dom: (Block, Block) -> bool, entry: Block, sem: (Op, seq<int>) -> int,
      next: nat, avail: Avail, cls: Classes, defs: Defs, gvn: seq<Bucket>, m: Meanings, k: int, h: nat,
      op: Op, args: seq<Value>, v: Value, d: Block)
    requires GraphOK(dom, entry, sem, next, avail, cls, defs, gvn, m) && TreeOrder(dom, entry)
    requires AllIn(args, m) && v in avail && m[v] == sem(op, Means(m, args)) && Deepest(dom, entry, avail, args, d)
             && dom(avail[v], d) && dom(entry, d)
    requires k < |gvn| && (k >= 0 ==> gvn[k].op == op && SameClasses(cls, gvn[k].args, args))
    ensures GraphOK(dom, entry, sem, next, avail, cls, defs, Put(gvn, k, h, op, args, v), m)
  {
    hide DefsOK, TreeOrder;
    var gvn' := Put(gvn, k, h, op, args, v);
    forall i | 0 <= i < |gvn'| ensures BucketOK(dom, entry, sem, avail, m, gvn'[i]) {
      if i == k || i == |gvn| {
        var b := gvn'[i];
        assert SameClasses(cls, args, b.args) && SameClasses(cls, b.args, args);
        SameMeans(cls, avail, m, args, b.args);
        forall e | Deepest(dom, entry, avail, b.args, e) ensures dom(avail[v], e) {
          SameDeepest(dom, entry, cls, avail, m, b.args, args, e);
          DeepestUnique(dom, entry, avail, args, d, e);
        }
      }
    }
  }

  lemma DeepestUnique(dom: (Block, Block) -> bool, entry: Block, avail: Avail, args: seq<Value>, d: Block, e: Block)
    requires TreeOrder(dom, entry) && dom(entry, d) && Deepest(dom, entry, avail, args, d)
             && Deepest(dom, entry, avail, args, e)
    ensures d == e
  {
  }

  // ----- how the graph changes -----

  /** The graph at one time. */
  datatype Graph = Graph(next: nat, avail: Avail, part: Partition, defs: Defs, gvn: seq<Bucket>,
    opt: map<Value, Value>, depth: nat, subsume: set<Value>, meaning: Meanings)

  /** Values, replacements and entries of the table stay, and classes are only merged. */
  ghost predicate Later(g: Graph, g': Graph) {
    && Grows(g.avail, g.meaning, g'.avail, g'.meaning) && g.next <= g'.next
    && NewOnly(g.part.cls, g'.part.cls, g.next) && OptGrows(g.opt, g'.opt)
    && Evolves(g.part, g'.part) && TableGrows(g.gvn, g'.gvn) && g'.depth == g.depth
    && g.subsume <= g'.subsume
  }

  lemma LaterSelf(g: Graph)
    ensures Later(g, g)
  {
  }

  lemma LaterTrans(g: Graph, g': Graph, g'': Graph)
    requires Later(g, g') && Later(g', g'')
    ensures Later(g, g'')
  {
    hide Evolves;
    GrowsTrans(g.avail, g.meaning, g'.avail, g'.meaning, g''.avail, g''.meaning);
    EvolvesTrans(g.part, g'.part, g''.part);
  }

  /** Nothing changes but what values are replaced by. */
  ghost predicate Untouched(g: Graph, g': Graph) {
    g' == g.(opt := g'.opt)
  }

  // ----- what is joined when a value is rewritten -----

  /** The last value, and those before `c` that are not `orig`. */
  ghost function Chosen(values: seq<Value>, orig: Value, c: nat): set<Value>
    requires c <= |values| && values != []
  {
    (set i | 0 <= i < c && values[i] != orig :: values[i]) + {values[|values| - 1]}
  }

  /** The result of joining `values`: the first that subsumes, or a node for all that were joined. The last value is not
  looked up among those that subsume, and `orig` takes part only as the last. */
  ghost predicate Outcome(cls: Classes, cls': Classes, values: seq<Value>, orig: Value, subsume: set<Value>, u: Value,
      cut: nat) {
    && cut < |values| && var n := |values| - 1;
    && (forall i | 0 <= i < cut :: values[i] == orig || values[i] !in subsume)
    && (cut < n ==> values[cut] != orig && values[cut] in subsume && u == values[cut])
    && Fused(cls, cls', Chosen(values, orig, cut + 1))
    && u in cls' && values[n] in cls' && cls'[u] == cls'[values[n]]
    && (cut == n && (forall i | 0 <= i < n :: values[i] == orig) ==> u == values[n])
  }

  /** The original value joins the others exactly if it is the last, or was in the class of one of them before. */
  lemma OrigJoins(cls: Classes, cls': Classes, values: seq<Value>, orig: Value, subsume: set<Value>, u: Value, cut: nat)
    requires Outcome(cls, cls', values, orig, subsume, u, cut) && orig in cls && AllIn(values, cls)
    ensures orig in cls' && (cls'[orig] == cls'[u] <==>
              values[|values| - 1] == orig
              || exists x :: x in Chosen(values, orig, cut + 1) && x in cls && cls[x] == cls[orig])
  {
    var last, s := values[|values| - 1], Chosen(values, orig, cut + 1);
    assert FusedAt(cls, cls', s, orig, last);
    assert last in s;
    assert Meets(cls, last, s);
  }

  /** How a value was rewritten: the graph when all candidates had been built, the candidates, the highest block of
  theirs, those that were chosen, and the place among them of the one that subsumes the others. */
  datatype Rewrite = Rewrite(graph: Graph, candidates: seq<Value>, best: Block, chosen: seq<Value>, cut: nat)

  /** All values of the highest block are chosen, or as many as the limit allows. */
  ghost predicate ChosenOK(dom: (Block, Block) -> bool, avail: Avail, values: seq<Value>, best: Block,
      chosen: seq<Value>) {
    && AllIn(values, avail) && (forall i | 0 <= i < |values| :: dom(best, avail[values[i]]))
    && 0 < |chosen| <= MATCHES_LIMIT
    && (forall i | 0 <= i < |chosen| :: chosen[i] in values && chosen[i] in avail && avail[chosen[i]] == best)
    && (|chosen| < MATCHES_LIMIT ==> forall i | 0 <= i < |values| && avail[values[i]] == best :: values[i] in chosen)
  }

  /** The candidates are one for each match, and the value itself. */
  ghost predicate CandidatesOK(matches: seq<Match>, v: Value, w: Rewrite) {
    && |w.candidates| == |matches| + 1 && w.candidates[|matches|] == v
    && (forall i | 0 <= i < |matches| && matches[i].subsume :: w.candidates[i] in w.graph.subsume)
  }

  lemma ChosenNone(values: seq<Value>, orig: Value)
    requires values != []
    ensures Chosen(values, orig, 0) == {values[|values| - 1]}
  {
  }

  lemma ChosenLast(values: seq<Value>, orig: Value)
    requires values != []
    ensures Chosen(values, orig, |values|) == Chosen(values, orig, |values| - 1)
  {
    ChosenNext(values, orig, |values| - 1);
  }

  lemma ChosenNext(values: seq<Value>, orig: Value, i: nat)
    requires i < |values|
    ensures Chosen(values, orig, i + 1) ==
            if values[i] == orig then Chosen(values, orig, i) else Chosen(values, orig, i) + {values[i]}
    ensures values[|values| - 1] in Chosen(values, orig, i)
  {
  }

  class OptimizeCtx {
    const dom: (Block, Block) -> bool
    const entry: Block
    const sem: (Op, seq<int>) -> int
    const rules: (Defs, Value) -> seq<Match>
    const hash: (Op, seq<Value>) -> nat
    const shuffle: seq<Value> -> seq<Value>
    const eclasses: UnionFind

    var numValues: nat
    var defs: Defs
    var valueToOptValue: map<Value, Value>
    var gvnMap: seq<Bucket>
    var availableBlock: Avail
    var rewriteDepth: nat
    var subsumeValues: set<Value>
    /** What each value means in the original function. */
    ghost var meaning: Meanings

    ghost predicate Valid()
      reads this, eclasses
    {
      && eclasses.Valid() && rewriteDepth <= REWRITE_LIMIT + 1
      && TreeOrder(dom, entry) && RulesOK(dom, sem, rules) && (forall xs :: Permuted(xs, shuffle(xs)))
      && GraphOK(dom, entry, sem, numValues, availableBlock, eclasses.cls, defs, gvnMap, meaning)
      && TableOK(hash, eclasses.View(), gvnMap)
      && (forall v | v in valueToOptValue :: OptOK(availableBlock, eclasses.cls, meaning, v, valueToOptValue[v]))
    }

    ghost function Now(): Graph
      reads this, eclasses
    {
      Graph(numValues, availableBlock, eclasses.View(), defs, gvnMap, valueToOptValue, rewriteDepth, subsumeValues,
          meaning)
    }

    /** The table has the value `v` for the instruction. */
    ghost predicate HasValue(op: Op, args: seq<Value>, v: Value)
      reads this, eclasses
    {
      Holds(hash, eclasses.cls, gvnMap, op, args, v)
    }

    /** Nothing is known yet but the values of the original function. */
    constructor (dom: (Block, Block) -> bool, entry: Block, sem: (Op, seq<int>) -> int,
        rules: (Defs, Value) -> seq<Match>,
        hash: (Op, seq<Value>) -> nat, shuffle: seq<Value> -> seq<Value>, numValues: nat, ghost meaning: Meanings)
      requires TreeOrder(dom, entry) && RulesOK(dom, sem, rules) && (forall xs :: Permuted(xs, shuffle(xs)))
               && forall v | v in meaning :: v < numValues
      ensures Valid() && Now() == Graph(numValues, map[], Partition(map[], map[], 0), map[], [], map[], 0, {}, meaning)
      ensures this.dom == dom && this.entry == entry && this.sem == sem && fresh(eclasses)
    {
      this.dom, this.entry, this.sem, this.rules, this.hash, this.shuffle := dom, entry, sem, rules, hash, shuffle;
      this.numValues, defs, valueToOptValue, gvnMap, availableBlock, rewriteDepth, subsumeValues := numValues, map[],
          map[], [], map[], 0, {};
      this.meaning := meaning;
      eclasses := new UnionFind();
    }

    /** Before an instruction of the function, no value is known to subsume others. */
    method ForgetSubsumed()
      requires Valid()
      modifies this`subsumeValues
      ensures Valid() && subsumeValues == {}
    {
      subsumeValues := {};
    }

    /** Put a value of the original function in a class of its own. */
    method AddValue(v: Value)
      requires Valid() && v in meaning && v !in eclasses.cls
      modifies eclasses
      ensures Valid() && Isolated(eclasses.cls, availableBlock, v) && v !in valueToOptValue
      ensures eclasses.View() == Added(old(eclasses.View()), v)
    {
      hide TreeOrder, RulesOK, GraphOK, TableOK, Evolves, UnionFind.Valid;
      ValueNumber(dom, entry, sem, numValues, availableBlock, eclasses.cls, defs, gvnMap, meaning, v);
      AddClass(dom, entry, sem, numValues, availableBlock, eclasses.cls, defs, gvnMap, meaning, v);
      AddedEvolves(eclasses.View(), v);
      TableEvolves(hash, eclasses.View(), Added(eclasses.View(), v), gvnMap);
      eclasses.Add(v);
    }

    /** Make a value of the skeleton available in its block. */
    method SetBlock(v: Value, b: Block)
      requires Valid() && v in meaning && Isolated(eclasses.cls, availableBlock, v) && dom(entry, b)
      modifies this`availableBlock
      ensures Valid() && availableBlock == old(availableBlock)[v := b]
              && Grows(old(availableBlock), meaning, availableBlock, meaning)
    {
      hide TreeOrder, RulesOK, GraphOK, TableOK, UnionFind.Valid;
      PlaceSkeleton(dom, entry, sem, numValues, availableBlock, eclasses.cls, defs, gvnMap, meaning, v, b);
      availableBlock := availableBlock[v := b];
    }

    /** Replace `v` by `w` from here on. */
    method SetOptValue(v: Value, w: Value)
      requires Valid() && v !in valueToOptValue && OptOK(availableBlock, eclasses.cls, meaning, v, w)
      modifies this`valueToOptValue
      ensures Valid() && valueToOptValue == old(valueToOptValue)[v := w]
    {
      hide TreeOrder, RulesOK, GraphOK, TableOK, UnionFind.Valid;
      valueToOptValue := valueToOptValue[v := w];
    }

    /** The block closest to the root where all operands are available. */
    method GetAvailableBlock(args: seq<Value>, ghost at: Block) returns (b: Block)
      requires TreeOrder(dom, entry) && AvailAt(dom, availableBlock, args, at) && dom(entry, at)
      ensures Deepest(dom, entry, availableBlock, args, b)
    {
      if args == [] {
        return entry;
      }
      b := availableBlock[args[0]];
      for i := 1 to |args|
        invariant forall j | 0 <= j < i :: dom(availableBlock[args[j]], b)
        invariant exists j | 0 <= j < i :: availableBlock[args[j]] == b
      {
        var y := availableBlock[args[i]];
        if dom(b, y) {
          b := y;
        }
      }
    }

    /** The representatives of the operands' classes. */
    method Representatives(args: seq<Value>) returns (r: seq<Value>)
      requires eclasses.Valid() && AllIn(args, eclasses.cls)
      ensures r == Canonical(eclasses.cls, args)
    {
      hide UnionFind.Valid;
      r := [];
      for i := 0 to |args|
        invariant |r| == i && forall j | 0 <= j < i :: r[j] == eclasses.cls[args[j]]
      {
        var x := eclasses.Find(args[i]);
        r := r + [x];
      }
    }

    /** Find the entry for an instruction: the operation, operands of the same classes now, and the same hash. */
    method GvnFind(op: Op, args: seq<Value>) returns (k: int)
      requires eclasses.Valid() && AllIn(args, eclasses.cls)
               && forall i | 0 <= i < |gvnMap| :: AllIn(gvnMap[i].args, eclasses.cls)
      ensures -1 <= k < |gvnMap|
      ensures k >= 0 ==> FoundAt(hash, eclasses.cls, gvnMap, op, args, k)
      ensures k < 0 ==> Missing(hash, eclasses.cls, gvnMap, op, args)
    {
      hide UnionFind.Valid, Canonical;
      var reps := Representatives(args);
      var h := hash(op, reps);
      for i := 0 to |gvnMap|
        invariant Missing(hash, eclasses.cls, gvnMap[..i], op, args)
      {
        var b := gvnMap[i];
        if b.hash == h && b.op == op {
          var xs := Representatives(b.args);
          CanonicalIff(eclasses.cls, b.args, args);
          if xs == reps {
            return i;
          }
        }
        assert gvnMap[..i + 1] == gvnMap[..i] + [b];
      }
      assert gvnMap[..|gvnMap|] == gvnMap;
      k := -1;
    }

    /** Insert a pure instruction: reuse the value that is known for it, or add it and rewrite it by the rules. The
    result means what the instruction means, is available wherever its operands are, and is known for it then. */
    method InsertPureEnode(inst: EnodeInst, ghost at: Block) returns (r: Value)
      requires Valid() && AvailAt(dom, availableBlock, inst.args, at) && dom(entry, at)
      requires inst.Existing? ==> NewResult(inst.result, inst.op, inst.args)
      modifies this, eclasses
      ensures Valid() && Later(old(Now()), Now())
      ensures r in availableBlock && r in meaning && dom(availableBlock[r], at)
      ensures AllIn(inst.args, meaning) && meaning[r] == sem(inst.op, Means(meaning, inst.args))
      ensures inst.Existing? ==> inst.result in valueToOptValue && valueToOptValue[inst.result] == r
      ensures HasValue(inst.op, inst.args, r)
      ensures forall v | old(HasValue(inst.op, inst.args, v)) :: r == v && Untouched(old(Now()), Now())
      decreases REWRITE_LIMIT + 2 - rewriteDepth, 2
    {
      hide TreeOrder, RulesOK, GraphOK, TableOK, UnionFind.Valid, FoundAt, Missing, Evolves, Deepest, Isolated,
          Holds;
      ArgsMean(dom, entry, sem, numValues, availableBlock, eclasses.cls, defs, gvnMap, meaning, inst.args);
      BucketArgs(dom, entry, sem, numValues, availableBlock, eclasses.cls, defs, gvnMap, meaning);
      var k := GvnFind(inst.op, inst.args);
      var b := GetAvailableBlock(inst.args, at);
      DeepestOver(dom, entry, availableBlock, inst.args, b, at);
      forall v | old(HasValue(inst.op, inst.args, v)) ensures 0 <= k < |gvnMap| && gvnMap[k].value == v {
        HoldsOne(hash, eclasses.cls, gvnMap, inst.op, inst.args, v, k);
      }
      if k >= 0 {
        r := gvnMap[k].value;
        HitServes(dom, entry, sem, hash, numValues, availableBlock, eclasses.cls, defs, gvnMap, meaning, inst.op,
            inst.args, k, b);
        TreeTrans(dom, entry, availableBlock[r], b, at);
        LaterSelf(Now());
        if inst.Existing? {
          // A hit is always available where the instruction is.
          assert dom(availableBlock[r], b);
          IsolatedNew(eclasses.cls, availableBlock, inst.result);
          valueToOptValue := valueToOptValue[inst.result := r];
        }
      } else {
        r := AddEnode(inst, at);
      }
    }

    /** Add an instruction that is not in the table, and rewrite it. */
    method AddEnode(inst: EnodeInst, ghost at: Block) returns (r: Value)
      requires Valid() && AvailAt(dom, availableBlock, inst.args, at) && dom(entry, at)
      requires inst.Existing? ==> NewResult(inst.result, inst.op, inst.args)
      modifies this, eclasses
      ensures Valid() && Later(old(Now()), Now())
      ensures r in availableBlock && r in meaning && dom(availableBlock[r], at)
      ensures AllIn(inst.args, meaning) && meaning[r] == sem(inst.op, Means(meaning, inst.args))
      ensures inst.Existing? ==> inst.result in valueToOptValue && valueToOptValue[inst.result] == r
      ensures HasValue(inst.op, inst.args, r)
      decreases REWRITE_LIMIT + 2 - rewriteDepth, 1
    {
      hide TreeOrder, RulesOK, GraphOK, DefOK, BucketOK, Isolated, Deepest, TableOK, UnionFind.Valid, Evolves, Later,
          Holds;
      var args := inst.args;
      ghost var g := Now();
      ArgsMean(dom, entry, sem, numValues, availableBlock, eclasses.cls, defs, gvnMap, meaning, args);
      var result;
      match inst {
        case New(op, _) =>
          result := MakeResult(sem(op, Means(meaning, args)));
        case Existing(v, _, _) =>
          LaterSelf(g);
          result := v;
      }
      ghost var g' := Now();
      LaterParts(g, g');
      GrowsArgs(dom, g.avail, g.meaning, availableBlock, meaning, args, at);
      var b := GetAvailableBlock(args, at);
      DeepestOver(dom, entry, availableBlock, args, b, at);
      DeepestEntry(dom, entry, sem, numValues, availableBlock, eclasses.cls, defs, gvnMap, meaning, args, b);
      r := PlaceAndOptimize(result, inst.op, args, b, at);
      LaterTrans(g, g', Now());
      LaterParts(g', Now());
      GrowsArgs(dom, g'.avail, g'.meaning, availableBlock, meaning, args, at);
    }

    /** A new value, in a class of its own. */
    method MakeResult(ghost x: int) returns (v: Value)
      requires Valid()
      modifies this`numValues, this`meaning, eclasses
      ensures Valid() && Later(old(Now()), Now()) && v == old(numValues)
      ensures Isolated(eclasses.cls, availableBlock, v) && v !in valueToOptValue && v !in defs
      ensures numValues == v + 1 && meaning == old(meaning)[v := x]
              && eclasses.View() == Added(old(eclasses.View()), v)
    {
      hide TreeOrder, RulesOK, GraphOK, TableOK, UnionFind.Valid, Evolves, Isolated;
      v := numValues;
      NewNumber(dom, entry, sem, numValues, availableBlock, eclasses.cls, defs, gvnMap, meaning);
      MakeValue(dom, entry, sem, numValues, availableBlock, eclasses.cls, defs, gvnMap, meaning, x);
      AddedEvolves(eclasses.View(), v);
      TableEvolves(hash, eclasses.View(), Added(eclasses.View(), v), gvnMap);
      numValues := numValues + 1;
      eclasses.Add(v);
      meaning := meaning[v := x];
    }

    /** Give an isolated value its block, rewrite it, and enter it in the table. */
    method PlaceAndOptimize(result: Value, op: Op, args: seq<Value>, b: Block, ghost at: Block) returns (r: Value)
      requires Valid() && Isolated(eclasses.cls, availableBlock, result) && result in meaning
               && result !in valueToOptValue && AllIn(args, meaning) && meaning[result] == sem(op, Means(meaning, args))
      requires Deepest(dom, entry, availableBlock, args, b) && dom(entry, b) && dom(b, at)
      modifies this, eclasses
      ensures Valid() && Later(old(Now()), Now())
      ensures r in availableBlock && r in meaning && dom(availableBlock[r], at) && meaning[r] == old(meaning[result])
      ensures result in valueToOptValue && valueToOptValue[result] == r
      ensures HasValue(op, args, r)
      decreases REWRITE_LIMIT + 2 - rewriteDepth, 0, 1
    {
      hide TreeOrder, RulesOK, GraphOK, BucketOK, Deepest, Means, TableOK, UnionFind.Valid, Evolves, Isolated, Holds,
          TableGrows, Later, Grows, CandidatesOK, ChosenOK, Outcome, AvailAt;
      ghost var g := Now();
      DeepestAvail(dom, entry, availableBlock, args, b);
      PlaceResult(result, op, args, b);
      ghost var g' := Now();
      LaterParts(g, g');
      GrowsDeepest(dom, entry, g.avail, g.meaning, availableBlock, meaning, args, b);
      var r', _ := OptimizePureEnode(result);
      r := r';
      ghost var g'' := Now();
      LaterTrans(g, g', g'');
      LaterParts(g, g'');
      LaterParts(g', g'');
      GrowsDeepest(dom, entry, g'.avail, g'.meaning, availableBlock, meaning, args, b);
      GrowsArgs(dom, g.avail, g.meaning, availableBlock, meaning, args, b);
      TreeTrans(dom, entry, availableBlock[r], b, at);
      EnterPinned(op, args, r, b);
      LaterTrans(g, g'', Now());
      LaterParts(g, Now());
      LaterOpt(g, Now(), result, r);
      valueToOptValue := valueToOptValue[result := r];
    }

    /** An isolated value gets its block and its definition. */
    method PlaceResult(result: Value, op: Op, args: seq<Value>, b: Block)
      requires Valid() && Isolated(eclasses.cls, availableBlock, result) && result in meaning && AllIn(args, meaning)
               && meaning[result] == sem(op, Means(meaning, args))
      requires Deepest(dom, entry, availableBlock, args, b) && dom(entry, b)
      modifies this`availableBlock, this`defs
      ensures Valid() && Later(old(Now()), Now()) && AvailAt(dom, availableBlock, args, b) && result in eclasses.cls
      ensures availableBlock == old(availableBlock)[result := b] && defs == old(defs)[result := Pure(op, args)]
    {
      hide TreeOrder, RulesOK, GraphOK, TableOK, UnionFind.Valid, Evolves, Deepest, Means;
      ghost var avail := availableBlock;
      DeepestAvail(dom, entry, availableBlock, args, b);
      PlacePure(dom, entry, sem, numValues, availableBlock, eclasses.cls, defs, gvnMap, meaning, result, op, args, b);
      availableBlock := availableBlock[result := b];
      defs := defs[result := Pure(op, args)];
      EvolvesSelf(eclasses.View());
      GrowsArgs(dom, avail, meaning, availableBlock, meaning, args, b);
    }

    /** Enter the value `r` for an instruction in the table, with its operands pinned. */
    method EnterPinned(op: Op, args: seq<Value>, r: Value, ghost d: Block)
      requires Valid() && AllIn(args, meaning) && r in availableBlock && r in meaning && meaning[r] ==
               sem(op, Means(meaning, args))
      requires Deepest(dom, entry, availableBlock, args, d) && dom(availableBlock[r], d) && dom(entry, d)
      modifies this`gvnMap, eclasses
      ensures Valid() && Later(old(Now()), Now()) && HasValue(op, args, r)
    {
      hide TreeOrder, RulesOK, GraphOK, BucketOK, Deepest, Means, TableOK, UnionFind.Valid, Evolves, Holds, TableGrows,
          Pinned, FoundAt, Missing;
      BucketArgs(dom, entry, sem, numValues, availableBlock, eclasses.cls, defs, gvnMap, meaning);
      DeepestAvail(dom, entry, availableBlock, args, d);
      ghost var gvn := gvnMap;
      PinArgs(args);
      GvnInsert(op, args, r, d);
      InsertedHere(hash, eclasses.cls, gvn, gvnMap, op, args, r, args);
    }

    /** Make the classes of the operands keep their representatives. */
    method PinArgs(args: seq<Value>)
      requires Valid() && AllIn(args, eclasses.cls)
      modifies eclasses
      ensures Valid() && eclasses.cls == old(eclasses.cls)
              && eclasses.pinnedUnionCount == old(eclasses.pinnedUnionCount)
      ensures Evolves(old(eclasses.View()), eclasses.View())
      ensures forall i | 0 <= i < |args| :: Pinned(eclasses.View(), args[i])
    {
      hide TreeOrder, RulesOK, GraphOK, TableOK, UnionFind.Valid, Evolves;
      EvolvesSelf(eclasses.View());
      for i := 0 to |args|
        invariant Valid() && eclasses.cls == old(eclasses.cls)
                  && eclasses.pinnedUnionCount == old(eclasses.pinnedUnionCount)
        invariant Evolves(old(eclasses.View()), eclasses.View())
        invariant forall j | 0 <= j < i :: Pinned(eclasses.View(), args[j])
      {
        ghost var p := eclasses.View();
        PinEvolves(p, args[i]);
        TableEvolves(hash, p, WithPin(p, args[i]), gvnMap);
        EvolvesTrans(old(eclasses.View()), p, WithPin(p, args[i]));
        var _ := eclasses.PinIndex(args[i]);
      }
    }

    /** Enter the value `v` for an instruction in the table. */
    method GvnInsert(op: Op, args: seq<Value>, v: Value, ghost d: Block)
      requires Valid() && AllIn(args, meaning) && v in availableBlock && v in meaning && meaning[v] ==
               sem(op, Means(meaning, args))
      requires Deepest(dom, entry, availableBlock, args, d) && dom(availableBlock[v], d) && dom(entry, d)
      requires AllIn(args, eclasses.cls) && forall i | 0 <= i < |args| :: Pinned(eclasses.View(), args[i])
      modifies this`gvnMap
      ensures Valid() && TableGrows(old(gvnMap), gvnMap)
      ensures Inserted(hash, eclasses.cls, old(gvnMap), gvnMap, op, args, v)
    {
      hide TreeOrder, RulesOK, GraphOK, BucketOK, Means, TableOK, UnionFind.Valid, FoundAt, Missing, TableGrows, Pinned;
      BucketArgs(dom, entry, sem, numValues, availableBlock, eclasses.cls, defs, gvnMap, meaning);
      var k := GvnFind(op, args);
      var reps := Representatives(args);
      var h := hash(op, reps);
      if k >= 0 {
        FoundFor(hash, eclasses.cls, gvnMap, op, args, k);
      }
      PutBucket(dom, entry, sem, numValues, availableBlock, eclasses.cls, defs, gvnMap, meaning, k, h, op, args, v, d);
      ghost var gvn := gvnMap;
      gvnMap := Put(gvnMap, k, h, op, args, v);
      InsertedTable(hash, eclasses.View(), gvn, gvnMap, op, args, v);
    }

    /** Rewrite a value by the rules: join the rewritten forms that are available in the highest block. */
    method OptimizePureEnode(v: Value) returns (u: Value, ghost w: Rewrite)
      requires Valid() && v in defs
      modifies this, eclasses
      ensures Valid() && Later(old(Now()), Now())
      ensures v in old(availableBlock) && u in availableBlock && u in meaning && meaning[u] == meaning[v]
              && dom(availableBlock[u], availableBlock[v])
      ensures rewriteDepth > REWRITE_LIMIT ==> u == v && Now() == old(Now())
      ensures rewriteDepth <= REWRITE_LIMIT ==>
                && CandidatesOK(rules(old(defs), v), v, w)
                && ChosenOK(dom, w.graph.avail, w.candidates, w.best, w.chosen)
                && Outcome(w.graph.part.cls, eclasses.cls, w.chosen, v, w.graph.subsume, u, w.cut)
      decreases REWRITE_LIMIT + 2 - rewriteDepth, 0, 0
    {
      hide TreeOrder, RulesOK, GraphOK, Isolated, TableOK, UnionFind.Valid, Evolves, Outcome,
          ChosenOK;
      DefFacts(dom, entry, sem, numValues, availableBlock, eclasses.cls, defs, gvnMap, meaning, v);
      AvailEntry(dom, entry, sem, numValues, availableBlock, eclasses.cls, defs, gvnMap, meaning, v);
      TreeSelf(dom, entry, availableBlock[v]);
      LaterSelf(Now());
      if rewriteDepth > REWRITE_LIMIT {
        w := Rewrite(Now(), [], availableBlock[v], [], 0);
        return v, w;
      }
      rewriteDepth := rewriteDepth + 1;
      ghost var g := Now();
      var matches := rules(defs, v);
      RulesMatch(dom, entry, sem, rules, numValues, availableBlock, eclasses.cls, defs, gvnMap, meaning, v);
      var values := Simplify(matches, v);
      ghost var g' := Now();
      values := values + [v];
      var chosen, best := Choose(values, availableBlock[v], meaning[v]);
      assert values[|values| - 1] == v;
      ChosenAlike(dom, availableBlock, meaning, values, best, chosen, availableBlock[v], meaning[v], v);
      ghost var cut;
      u, cut := UnionAll(chosen, v, best, meaning[v]);
      LaterTrans(g, g', Now());
      w := Rewrite(g', values, best, chosen, cut);
      rewriteDepth := rewriteDepth - 1;
    }

    /** Choose candidates of the highest block, in any order, up to the limit. */
    method Choose(values: seq<Value>, ghost b: Block, ghost x: int) returns (chosen: seq<Value>, best: Block)
      requires Valid() && dom(entry, b) && values != [] && Cands(dom, availableBlock, meaning, values, b, x)
      ensures ChosenOK(dom, availableBlock, values, best, chosen)
    {
      hide RulesOK, GraphOK, TableOK, UnionFind.Valid, TreeOrder;
      AllEntry(dom, entry, sem, numValues, availableBlock, eclasses.cls, defs, gvnMap, meaning, values);
      var kept;
      kept, best := KeepBest(values, b, x);
      chosen := shuffle(kept);
      Shuffled(kept, chosen);
      if |chosen| > MATCHES_LIMIT {
        chosen := chosen[..MATCHES_LIMIT];
      }
    }

    /** Build the right-hand sides of all matches. */
    method Simplify(matches: seq<Match>, v: Value) returns (values: seq<Value>)
      requires Valid() && MatchesOK(dom, sem, availableBlock, meaning, matches, v)
      modifies this, eclasses
      ensures Valid() && Later(old(Now()), Now())
      ensures v in availableBlock && v in meaning && Cands(dom, availableBlock, meaning, values, availableBlock[v],
              meaning[v])
      ensures |values| == |matches|
      ensures forall i | 0 <= i < |matches| && matches[i].subsume :: values[i] in subsumeValues
      decreases REWRITE_LIMIT + 2 - rewriteDepth, 4
    {
      hide TreeOrder, RulesOK, GraphOK, Isolated, TermOK, TermMeans, TableOK, UnionFind.Valid, Evolves;
      values := [];
      ghost var g, b := Now(), availableBlock[v];
      AvailEntry(dom, entry, sem, numValues, availableBlock, eclasses.cls, defs, gvnMap, meaning, v);
      LaterSelf(g);
      for i := 0 to |matches|
        invariant Valid() && Later(g, Now()) && Cands(dom, availableBlock, meaning, values, b, g.meaning[v])
        invariant |values| == i && forall j | 0 <= j < i && matches[j].subsume :: values[j] in subsumeValues
      {
        TermGrows(dom, sem, g.avail, g.meaning, availableBlock, meaning, matches[i].term, b);
        ghost var g' := Now();
        var x := BuildTerm(matches[i].term, b);
        LaterTrans(g, g', Now());
        CandsGrow(dom, g'.avail, g'.meaning, availableBlock, meaning, values, b, g.meaning[v]);
        values := values + [x];
        if matches[i].subsume {
          subsumeValues := subsumeValues + {x};
        }
      }
    }

    /** Build a term from the bottom up. */
    method BuildTerm(t: Term, ghost at: Block) returns (r: Value)
      requires Valid() && TermOK(dom, availableBlock, meaning, t, at) && dom(entry, at)
      modifies this, eclasses
      ensures Valid() && Later(old(Now()), Now())
      ensures r in availableBlock && r in meaning && dom(availableBlock[r], at) && meaning[r] ==
              TermMeans(sem, old(meaning), t)
      decreases REWRITE_LIMIT + 2 - rewriteDepth, 3, t
    {
      hide TreeOrder, RulesOK, GraphOK, Isolated, TableOK, UnionFind.Valid, Evolves, Holds;
      ghost var g := Now();
      LaterSelf(g);
      match t {
        case Use(v) => r := v;
        case Make(op, ts) =>
          var args: seq<Value> := [];
          for i := 0 to |ts|
            invariant Valid() && Later(g, Now())
            invariant |args| == i && AvailAt(dom, availableBlock, args, at) && AllIn(args, meaning)
            invariant forall j | 0 <= j < i :: meaning[args[j]] == TermMeans(sem, g.meaning, ts[j])
          {
            TermGrows(dom, sem, g.avail, g.meaning, availableBlock, meaning, ts[i], at);
            ghost var g' := Now();
            var x := BuildTerm(ts[i], at);
            LaterTrans(g, g', Now());
            GrowsArgs(dom, g'.avail, g'.meaning, availableBlock, meaning, args, at);
            args := args + [x];
          }
          ghost var g' := Now();
          r := InsertPureEnode(New(op, args), at);
          LaterTrans(g, g', Now());
          assert Means(meaning, args) == seq(|ts|, i requires 0 <= i < |ts| => TermMeans(sem, g.meaning, ts[i]));
      }
    }

    /** Keep only the values that are available in the block closest to the root. */
    method KeepBest(values: seq<Value>, ghost b: Block, ghost x: int) returns (r: seq<Value>, best: Block)
      requires TreeOrder(dom, entry) && dom(entry, b) && values != []
               && Cands(dom, availableBlock, meaning, values, b, x)
               && forall i | 0 <= i < |values| :: dom(entry, availableBlock[values[i]])
      ensures r != [] && forall i | 0 <= i < |r| :: r[i] in values && availableBlock[r[i]] == best
      ensures forall i | 0 <= i < |values| && availableBlock[values[i]] == best :: values[i] in r
      ensures forall i | 0 <= i < |values| :: dom(best, availableBlock[values[i]])
    {
      r := values;
      best := availableBlock[r[|r| - 1]];
      var idx := |r| - 1;
      while idx > 0
        invariant 0 <= idx < |r| && idx < |values|
        invariant forall j | 0 <= j < idx :: r[j] == values[j]
        invariant forall j | idx <= j < |r| :: r[j] in values && availableBlock[r[j]] == best
        invariant forall j | idx <= j < |values| :: dom(best, availableBlock[values[j]])
        invariant forall j | idx <= j < |values| && availableBlock[values[j]] == best :: values[j] in r[idx..]
        invariant dom(best, b)
      {
        idx := idx - 1;
        var block := availableBlock[r[idx]];
        assert r[idx] == values[idx] && r[idx..] == [r[idx]] + r[idx + 1..];
        if block != best {
          if dom(block, best) {
            r := r[..idx + 1];
            best := block;
          } else {
            assert dom(best, block);
            SwapRemoved(r, idx);
            r := r[idx := r[|r| - 1]][..|r| - 1];
            assert |r| > idx;
          }
        }
      }
    }

    /** Join values that are available in one block and mean the same, up to one that subsumes the others. */
    method UnionAll(values: seq<Value>, orig: Value, best: Block, ghost x: int) returns (u: Value, ghost cut: nat)
      requires Valid() && values != [] && forall i | 0 <= i < |values| ::
               Alike(availableBlock, meaning, values[i], best, x)
      modifies this, eclasses
      ensures Valid() && Later(old(Now()), Now()) && Alike(availableBlock, meaning, u, best, x)
      ensures subsumeValues == old(subsumeValues)
      ensures Outcome(old(eclasses.cls), eclasses.cls, values, orig, subsumeValues, u, cut)
    {
      hide TreeOrder, RulesOK, GraphOK, Isolated, TableOK, UnionFind.Valid, Evolves, Fused, Joined, United, Chosen,
          NewOnly, OptGrows, TableGrows;
      var n := |values| - 1;
      u := values[n];
      ghost var g0 := Now();
      LaterSelf(g0);
      AllInClasses(dom, entry, sem, numValues, availableBlock, eclasses.cls, defs, gvnMap, meaning, values);
      ghost var cls0 := eclasses.cls;
      FusedOne(cls0, u);
      ChosenNone(values, orig);
      for i := 0 to n
        invariant Valid() && Later(g0, Now()) && subsumeValues == g0.subsume
        invariant Alike(availableBlock, meaning, u, best, x) && forall i | 0 <= i < |values| ::
                  Alike(availableBlock, meaning, values[i], best, x)
        invariant forall j | 0 <= j < i :: values[j] == orig || values[j] !in subsumeValues
        invariant Fused(cls0, eclasses.cls, Chosen(values, orig, i))
        invariant u in eclasses.cls && values[n] in eclasses.cls && eclasses.cls[u] == eclasses.cls[values[n]]
        invariant (forall j | 0 <= j < i :: values[j] == orig) ==> u == values[n]
      {
        var y := values[i];
        assert Alike(availableBlock, meaning, y, best, x);
        ghost var g := Now();
        ChosenNext(values, orig, i);
        if y != orig {
          if y in subsumeValues {
            Unite(y, u);
            UnitedJoined(g.part, y, u);
            JoinedSwap(g.part.cls, eclasses.cls, y, u);
            FusedMore(cls0, g.part.cls, eclasses.cls, Chosen(values, orig, i), values[n], u, y);
            JoinedSame(g.part.cls, eclasses.cls, u, y, values[n]);
            LaterTrans(g0, g, Now());
            return y, i;
          }
          var u' := Join(u, y, best, x);
          FusedMore(cls0, g.part.cls, eclasses.cls, Chosen(values, orig, i), values[n], u, y);
          JoinedSame(g.part.cls, eclasses.cls, u, y, values[n]);
          LaterTrans(g0, g, Now());
          u := u';
        }
      }
      ChosenLast(values, orig);
      cut := n;
    }

    /** Merge the classes of two values that are available in one block and mean the same. */
    method Unite(a: Value, b: Value)
      requires Valid() && a in availableBlock && b in availableBlock && availableBlock[a] == availableBlock[b]
               && a in meaning && b in meaning && meaning[a] == meaning[b]
      modifies eclasses
      ensures Valid() && Later(old(Now()), Now())
      ensures a in old(eclasses.cls) && b in old(eclasses.cls)
              && eclasses.View() == United(old(eclasses.View()), a, b)
    {
      hide TreeOrder, RulesOK, GraphOK, TableOK, UnionFind.Valid, Evolves, United;
      ghost var p := eclasses.View();
      MergeGraph(dom, entry, sem, numValues, availableBlock, p, defs, gvnMap, meaning, a, b);
      UnitedEvolves(p, a, b);
      TableEvolves(hash, p, United(p, a, b), gvnMap);
      UnitedKeys(p, a, b);
      eclasses.Union(a, b);
    }

    /** A new node that joins `u` and `y`. */
    method Join(u: Value, y: Value, best: Block, ghost x: int) returns (r: Value)
      requires Valid() && Alike(availableBlock, meaning, u, best, x) && Alike(availableBlock, meaning, y, best, x)
      modifies this, eclasses
      ensures Valid() && Later(old(Now()), Now()) && Alike(availableBlock, meaning, r, best, x)
      ensures subsumeValues == old(subsumeValues) && r == old(numValues) && numValues == r + 1
              && defs == old(defs)[r := Union(u, y)]
      ensures u in old(eclasses.cls) && y in old(eclasses.cls) && Joined(old(eclasses.cls), eclasses.cls, u, y)
      ensures r in eclasses.cls && u in eclasses.cls && eclasses.cls[r] == eclasses.cls[u]
    {
      hide TreeOrder, RulesOK, GraphOK, TableOK, UnionFind.Valid, Evolves, Joined, United, Grows, NewOnly, TableGrows;
      ghost var g := Now();
      AvailClass(dom, entry, sem, numValues, availableBlock, eclasses.cls, defs, gvnMap, meaning, u, y);
      NewNumber(dom, entry, sem, numValues, availableBlock, eclasses.cls, defs, gvnMap, meaning);
      r := MakeUnion(u, y, best, x);
      ghost var g1 := Now();
      Unite(u, y);
      ghost var g2 := Now();
      LaterTrans(g, g1, g2);
      Unite(u, r);
      LaterTrans(g, g2, Now());
      UnitedJoined(g1.part, u, y);
      UnitedJoined(g2.part, u, r);
      JoinedUnder(g.part.cls, g2.part.cls, eclasses.cls, u, y, r);
    }

    /** A new node for `u` and `y`, in a class of its own. */
    method MakeUnion(u: Value, y: Value, best: Block, ghost x: int) returns (r: Value)
      requires Valid() && Alike(availableBlock, meaning, u, best, x) && Alike(availableBlock, meaning, y, best, x)
      modifies this`numValues, this`meaning, this`availableBlock, this`defs, eclasses
      ensures Valid() && Later(old(Now()), Now()) && Alike(availableBlock, meaning, r, best, x)
      ensures Alike(availableBlock, meaning, u, best, x) && Alike(availableBlock, meaning, y, best, x)
      ensures r == old(numValues) && numValues == r + 1 && defs == old(defs)[r := Union(u, y)]
              && eclasses.View() == Added(old(eclasses.View()), r)
    {
      hide TreeOrder, RulesOK, GraphOK, Isolated, TableOK, UnionFind.Valid, Evolves;
      ghost var g := Now();
      AvailEntry(dom, entry, sem, numValues, availableBlock, eclasses.cls, defs, gvnMap, meaning, u);
      r := MakeResult(x);
      ghost var g1 := Now();
      IsolatedNew(eclasses.cls, availableBlock, r);
      PlaceValue(dom, entry, sem, numValues, availableBlock, eclasses.cls, defs, gvnMap, meaning, r, best, Union(u, y));
      availableBlock := availableBlock[r := best];
      defs := defs[r := Union(u, y)];
      EvolvesSelf(g1.part);
      LaterTrans(g, g1, Now());
    }

    ghost predicate NewResult(v: Value, op: Op, args: seq<Value>)
      reads this, eclasses
    {
      v in meaning && v !in valueToOptValue && Isolated(eclasses.cls, availableBlock, v) && AllIn(args, meaning)
          && meaning[v] == sem(op, Means(meaning, args))
    }
  }

  /** A value that was not replaced before is replaced now. */
  lemma LaterOpt(g: Graph, g': Graph, v: Value, w: Value)
    requires Later(g, g') && v !in g.opt
    ensures Later(g, g'.(opt := g'.opt[v := w]))
  {
    hide Evolves;
  }

  /** An entry that is found serves for the instruction. */
  lemma HitServes(dom: (Block, Block) -> bool, entry: Block, sem: (Op, seq<int>) -> int,
      hash: (Op, seq<Value>) -> nat, next: nat, avail: Avail, cls: Classes, defs: Defs, gvn: seq<Bucket>, m: Meanings,
      op: Op, args: seq<Value>, k: nat, d: Block)
    requires GraphOK(dom, entry, sem, next, avail, cls, defs, gvn, m) && FoundAt(hash, cls, gvn, op, args, k)
    requires AllIn(args, avail) && Deepest(dom, entry, avail, args, d)
    ensures k < |gvn| && gvn[k].value in avail && gvn[k].value in m && dom(avail[gvn[k].value], d)
    ensures AllIn(args, m) && m[gvn[k].value] == sem(op, Means(m, args))
    ensures Holds(hash, cls, gvn, op, args, gvn[k].value)
  {
    hide DefsOK, Deepest;
    FoundFor(hash, cls, gvn, op, args, k);
    BucketServes(dom, entry, sem, cls, avail, m, gvn[k], args, d);
  }

  lemma AllEntry(dom: (Block, Block) -> bool, entry: Block, sem: (Op, seq<int>) -> int,
      next: nat, avail: Avail, cls: Classes, defs: Defs, gvn: seq<Bucket>, m: Meanings, xs: seq<Value>)
    requires GraphOK(dom, entry, sem, next, avail, cls, defs, gvn, m) && AllIn(xs, avail)
    ensures forall i | 0 <= i < |xs| :: dom(entry, avail[xs[i]])
  {
    hide BucketOK, DefsOK;
  }

  lemma AllInClasses(dom: (Block, Block) -> bool, entry: Block, sem: (Op, seq<int>) -> int,
      next: nat, avail: Avail, cls: Classes, defs: Defs, gvn: seq<Bucket>, m: Meanings, xs: seq<Value>)
    requires GraphOK(dom, entry, sem, next, avail, cls, defs, gvn, m) && AllIn(xs, avail)
    ensures AllIn(xs, cls)
  {
    hide BucketOK, DefsOK;
  }

  lemma LaterParts(g: Graph, g': Graph)
    requires Later(g, g')
    ensures Grows(g.avail, g.meaning, g'.avail, g'.meaning) && g'.depth == g.depth
    ensures forall v | v in g.meaning :: v in g'.meaning && g'.meaning[v] == g.meaning[v]
    ensures forall v | v in g.avail :: v in g'.avail && g'.avail[v] == g.avail[v]
    ensures forall v | v in g.part.cls :: v in g'.part.cls
  {
  }

  /** The values are available where block `b` is, and mean `x`. */
  ghost predicate Cands(dom: (Block, Block) -> bool, avail: Avail, m: Meanings, xs: seq<Value>, b: Block, x: int) {
    forall i | 0 <= i < |xs| :: xs[i] in avail && xs[i] in m && dom(avail[xs[i]], b) && m[xs[i]] == x
  }

  lemma CandsGrow(dom: (Block, Block) -> bool, a: Avail, m: Meanings, a': Avail, m': Meanings, xs: seq<Value>,
      b: Block, x: int)
    requires Cands(dom, a, m, xs, b, x) && Grows(a, m, a', m')
    ensures Cands(dom, a', m', xs, b, x)
  {
  }

  ghost predicate Alike(avail: Avail, m: Meanings, v: Value, b: Block, x: int) {
    v in avail && v in m && avail[v] == b && m[v] == x
  }

  lemma ChosenAlike(dom: (Block, Block) -> bool, avail: Avail, m: Meanings, values: seq<Value>, best: Block,
      chosen: seq<Value>, b: Block, x: int, v: Value)
    requires ChosenOK(dom, avail, values, best, chosen) && Cands(dom, avail, m, values, b, x) && v in values
    ensures chosen != [] && (forall i | 0 <= i < |chosen| :: Alike(avail, m, chosen[i], best, x))
    ensures v in avail && dom(best, avail[v])
  {
  }

  /** Replacing an element by the last one loses only that. */
  lemma SwapRemoved(r: seq<Value>, idx: nat)
    requires idx < |r| - 1
    ensures var r' := r[idx := r[|r| - 1]][..|r| - 1]; forall x | x in r[idx + 1..] :: x in r'[idx..]
  {
    var r' := r[idx := r[|r| - 1]][..|r| - 1];
    forall x | x in r[idx + 1..] ensures x in r'[idx..] {
      var j :| 0 <= j < |r[idx + 1..]| && r[idx + 1..][j] == x;
      assert r'[idx..][0] == r[|r| - 1];
      if j < |r| - idx - 2 {
        assert r'[idx..][j + 1] == x;
      }
    }
  }

  lemma Shuffled(xs: seq<Value>, ys: seq<Value>)
    requires Permuted(xs, ys)
    ensures |ys| == |xs| && (forall i | 0 <= i < |ys| :: ys[i] in xs) && forall x | x in xs :: x in ys
  {
    assert |multiset(xs)| == |multiset(ys)|;
    forall x | x in xs ensures x in ys {
      assert x in multiset(xs);
    }
    forall i | 0 <= i < |ys| ensures ys[i] in xs {
      assert ys[i] in multiset(ys);
    }
  }

  lemma TreeTrans(dom: (Block, Block) -> bool, entry: Block, a: Block, b: Block, c: Block)
    requires TreeOrder(dom, entry) && dom(a, b) && dom(b, c)
    ensures dom(a, c)
  {
  }

  lemma TreeSelf(dom: (Block, Block) -> bool, entry: Block, a: Block)
    requires TreeOrder(dom, entry)
    ensures dom(a, a)
  {
  }

  lemma IsolatedNew(cls: Classes, avail: Avail, v: Value)
    requires Isolated(cls, avail, v)
    ensures v in cls && v !in avail
  {
  }

  lemma AvailEntry(dom: (Block, Block) -> bool, entry: Block, sem: (Op, seq<int>) -> int,
      next: nat, avail: Avail, cls: Classes, defs: Defs, gvn: seq<Bucket>, m: Meanings, v: Value)
    requires GraphOK(dom, entry, sem, next, avail, cls, defs, gvn, m) && v in avail
    ensures dom(entry, avail[v]) && v in m
  {
    hide BucketOK, DefsOK;
  }

  lemma AvailClass(dom: (Block, Block) -> bool, entry: Block, sem: (Op, seq<int>) -> int,
      next: nat, avail: Avail, cls: Classes, defs: Defs, gvn: seq<Bucket>, m: Meanings, v: Value, w: Value)
    requires GraphOK(dom, entry, sem, next, avail, cls, defs, gvn, m) && v in avail && w in avail
    ensures v in cls && w in cls
  {
    hide BucketOK, DefsOK;
  }

  lemma DeepestEntry(dom: (Block, Block) -> bool, entry: Block, sem: (Op, seq<int>) -> int,
      next: nat, avail: Avail, cls: Classes, defs: Defs, gvn: seq<Bucket>, m: Meanings, args: seq<Value>, b: Block)
    requires GraphOK(dom, entry, sem, next, avail, cls, defs, gvn, m) && Deepest(dom, entry, avail, args, b)
             && TreeOrder(dom, entry)
    ensures dom(entry, b)
  {
    hide BucketOK, DefsOK;
  }

  lemma ValueNumber(dom: (Block, Block) -> bool, entry: Block, sem: (Op, seq<int>) -> int,
      next: nat, avail: Avail, cls: Classes, defs: Defs, gvn: seq<Bucket>, m: Meanings, v: Value)
    requires GraphOK(dom, entry, sem, next, avail, cls, defs, gvn, m) && v in m
    ensures v < next
  {
  }

  lemma NewNumber(dom: (Block, Block) -> bool, entry: Block, sem: (Op, seq<int>) -> int,
      next: nat, avail: Avail, cls: Classes, defs: Defs, gvn: seq<Bucket>, m: Meanings)
    requires GraphOK(dom, entry, sem, next, avail, cls, defs, gvn, m)
    ensures next !in m && next !in cls && forall v | v in cls :: cls[v] in cls
  {
  }

  lemma DeepestAvail(dom: (Block, Block) -> bool, entry: Block, avail: Avail, args: seq<Value>, b: Block)
    requires Deepest(dom, entry, avail, args, b)
    ensures AvailAt(dom, avail, args, b)
  {
  }

  lemma DefFacts(dom: (Block, Block) -> bool, entry: Block, sem: (Op, seq<int>) -> int,
      next: nat, avail: Avail, cls: Classes, defs: Defs, gvn: seq<Bucket>, m: Meanings, v: Value)
    requires GraphOK(dom, entry, sem, next, avail, cls, defs, gvn, m) && v in defs
    ensures v in avail && v in m
  {
    hide BucketOK, DefsOK;
    DefAvail(dom, sem, defs, avail, m, v);
  }

  lemma BucketArgs(dom: (Block, Block) -> bool, entry: Block, sem: (Op, seq<int>) -> int,
      next: nat, avail: Avail, cls: Classes, defs: Defs, gvn: seq<Bucket>, m: Meanings)
    requires GraphOK(dom, entry, sem, next, avail, cls, defs, gvn, m)
    ensures forall i | 0 <= i < |gvn| :: AllIn(gvn[i].args, cls)
    ensures forall v | v in avail :: v in cls
  {
    hide DefsOK;
    forall i | 0 <= i < |gvn| ensures AllIn(gvn[i].args, cls) {
      assert BucketOK(dom, entry, sem, avail, m, gvn[i]);
    }
  }

  lemma PlacePure(dom: (Block, Block) -> bool, entry: Block, sem: (Op, seq<int>) -> int,
      next: nat, avail: Avail, cls: Classes, defs: Defs, gvn: seq<Bucket>, m: Meanings, v: Value, op: Op,
      args: seq<Value>, b: Block)
    requires GraphOK(dom, entry, sem, next, avail, cls, defs, gvn, m) && Isolated(cls, avail, v) && v in m
             && dom(entry, b)
    requires AvailAt(dom, avail, args, b) && AllIn(args, m) && m[v] == sem(op, Means(m, args))
    ensures GraphOK(dom, entry, sem, next, avail[v := b], cls, defs[v := Pure(op, args)], gvn, m)
    ensures Grows(avail, m, avail[v := b], m)
  {
    hide GraphOK;
    assert v !in avail;
    assert AvailAt(dom, avail[v := b], args, b);
    assert DefOK(dom, sem, defs[v := Pure(op, args)], avail[v := b], m, v);
    PlaceValue(dom, entry, sem, next, avail, cls, defs, gvn, m, v, b, Pure(op, args));
  }

  lemma RulesMatch(dom: (Block, Block) -> bool, entry: Block, sem: (Op, seq<int>) -> int,
      rules: (Defs, Value) -> seq<Match>,
      next: nat, avail: Avail, cls: Classes, defs: Defs, gvn: seq<Bucket>, m: Meanings, v: Value)
    requires GraphOK(dom, entry, sem, next, avail, cls, defs, gvn, m) && v in defs && RulesOK(dom, sem, rules)
    ensures MatchesOK(dom, sem, avail, m, rules(defs, v), v)
  {
    hide BucketOK, DefsOK, MatchesOK;
  }

  lemma ArgsMean(dom: (Block, Block) -> bool, entry: Block, sem: (Op, seq<int>) -> int,
      next: nat, avail: Avail, cls: Classes, defs: Defs, gvn: seq<Bucket>, m: Meanings, args: seq<Value>)
    requires GraphOK(dom, entry, sem, next, avail, cls, defs, gvn, m) && AllIn(args, avail)
    ensures AllIn(args, m)
  {
    hide BucketOK, DefsOK;
  }

  /** What replaces a value means the same. */
  ghost predicate OptOK(avail: Avail, cls: Classes, m: Meanings, v: Value, w: Value) {
    v in cls && w in avail && w in m && v in m && m[w] == m[v]
  }
}
