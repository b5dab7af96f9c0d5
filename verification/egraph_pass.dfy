/** The pass over a function that builds the e-graph: blocks in dominator-tree order, with a scoped table for
instructions that stay in place but may be merged. */
module EgraphPass {
  import opened EgraphValues
  import opened EgraphClasses
  import opened EgraphTable
  import opened Egraph
  import T = DomtreeTree
  import D = DomtreeOrder
  import W = EgraphWalk

  /** A pure instruction, an instruction that may be merged with an equal one before it, or any other. */
  datatype Stmt =
    | PureInst(result: Value, op: Op, args: seq<Value>)
    | Mergeable(result: Value, op: Op, args: seq<Value>)
    | Skeleton(results: seq<Value>, args: seq<Value>)

  datatype Body = Body(params: seq<Value>, insts: seq<Stmt>)

  type Func = seq<Body>

  datatype Key = Key(op: Op, args: seq<Value>)

  type Scope = map<Key, Value>

  /** Enter a value in the innermost scope. */
  function Entered(scopes: seq<Scope>, key: Key, v: Value): seq<Scope>
    requires scopes != []
  {
    var last: Scope := scopes[|scopes| - 1][key := v];
    scopes[|scopes| - 1 := last]
  }

  function Results(s: Stmt): seq<Value> {
    if s.Skeleton? then s.results else [s.result]
  }

  ghost function AsSet(vs: seq<Value>): set<Value> {
    set v | v in vs
  }

  /** The values defined by the parameters of a block and its first `n` instructions. */
  ghost function Defined(b: Body, n: nat): set<Value>
    requires n <= |b.insts|
  {
    if n == 0 then AsSet(b.params) else Defined(b, n - 1) + AsSet(Results(b.insts[n - 1]))
  }

  ghost function All(b: Body): set<Value> {
    Defined(b, |b.insts|)
  }

  // ----- what is known of the function -----

  /** Every value is defined once. */
  ghost predicate Once(f: Func) {
    && (forall b | 0 <= b < |f| :: D.Unique(f[b].params))
    && (forall b, n | 0 <= b < |f| && 0 <= n < |f[b].insts| :: OnceAt(f[b], n))
    && (forall b, c | 0 <= b < |f| && 0 <= c < |f| && b != c :: All(f[b]) !! All(f[c]))
  }

  ghost predicate OnceAt(b: Body, n: nat)
    requires n < |b.insts|
  {
    D.Unique(Results(b.insts[n])) && forall v | v in Results(b.insts[n]) :: v !in Defined(b, n)
  }

  /** Every operand is defined earlier in the block, or in a block that dominates it. */
  ghost predicate UseOK(t: T.Tree, f: Func, b: Block, n: nat, a: Value)
    requires b < |f| && n < |f[b].insts|
  {
    a in Defined(f[b], n) || exists h | 0 <= h < |f| && h != b && D.Over(t, h, b) :: a in All(f[h])
  }

  ghost predicate UsesOK(t: T.Tree, post: seq<Block>, f: Func) {
    forall b, n, a | b in post && b < |f| && 0 <= n < |f[b].insts| && a in f[b].insts[n].args :: UseOK(t, f, b, n, a)
  }

  /** What the values of reachable blocks mean in the original function. */
  ghost predicate StmtMeans(sem: (Op, seq<int>) -> int, eff: (Op, seq<int>) -> int, m: Meanings, s: Stmt) {
    && AllIn(Results(s), m) && AllIn(s.args, m)
    && (s.PureInst? ==> s.result in m && m[s.result] == sem(s.op, Means(m, s.args)))
    && (s.Mergeable? ==> s.result in m && m[s.result] == eff(s.op, Means(m, s.args)))
  }

  ghost predicate FuncMeans(sem: (Op, seq<int>) -> int, eff: (Op, seq<int>) -> int, post: seq<Block>, f: Func,
      m: Meanings) {
    && (forall b | b in post && b < |f| :: AllIn(f[b].params, m))
    && (forall b, n | b in post && b < |f| && 0 <= n < |f[b].insts| :: StmtMeans(sem, eff, m, f[b].insts[n]))
  }

  // ----- what the pass keeps -----

  /** The values `vs` have been replaced by values that are available at block `b`. */
  ghost predicate Placed(dom: (Block, Block) -> bool, opt: map<Value, Value>, avail: Avail, vs: set<Value>, b: Block) {
    forall v | v in vs :: v in opt && opt[v] in avail && dom(avail[opt[v]], b)
  }

  lemma PlacedGrows(dom: (Block, Block) -> bool, opt: map<Value, Value>, avail: Avail, m: Meanings,
      opt': map<Value, Value>, avail': Avail, m': Meanings, vs: set<Value>, b: Block)
    requires Placed(dom, opt, avail, vs, b) && OptGrows(opt, opt') && Grows(avail, m, avail', m')
    ensures Placed(dom, opt', avail', vs, b)
  {
  }

  /** Operands as they were replaced. */
  function Replaced(opt: map<Value, Value>, args: seq<Value>): seq<Value> {
    seq(|args|, i requires 0 <= i < |args| => if args[i] in opt then opt[args[i]] else args[i])
  }

  /** All values of the instruction have been replaced. */
  ghost predicate Known(opt: map<Value, Value>, s: Stmt) {
    AllIn(s.args, opt) && AllIn(Results(s), opt)
  }

  /** What a mergeable instruction is looked up under. */
  ghost function KeyOf(opt: map<Value, Value>, s: Stmt): Key
    requires s.Mergeable?
  {
    Key(s.op, Replaced(opt, s.args))
  }

  /** The instruction at `h`, `j` is a mergeable one that defines `v` and was kept. */
  ghost predicate KeptAt(f: Func, opt: map<Value, Value>, v: Value, h: Block, j: nat) {
    && h < |f| && j < |f[h].insts| && f[h].insts[j].Mergeable? && f[h].insts[j].result == v
    && v in opt && opt[v] == v
  }

  /** The same, with its operation and operands. */
  ghost predicate KeptAs(f: Func, opt: map<Value, Value>, key: Key, v: Value, h: Block, j: nat) {
    KeptAt(f, opt, v, h, j) && Known(opt, f[h].insts[j]) && KeyOf(opt, f[h].insts[j]) == key
  }

  /** What is kept under a key stays so, and nothing else becomes so. */
  lemma KeptAsGrows(f: Func, opt: map<Value, Value>, opt': map<Value, Value>, key: Key, v: Value, h: Block, j: nat)
    requires h < |f| && j < |f[h].insts| && Known(opt, f[h].insts[j]) && OptGrows(opt, opt')
    ensures KeptAs(f, opt, key, v, h, j) <==> KeptAs(f, opt', key, v, h, j)
  {
    var s := f[h].insts[j];
    assert Replaced(opt', s.args) == Replaced(opt, s.args);
    assert s.Mergeable? ==> Results(s)[0] == s.result;
  }

  /** Instruction `j` of block `h` comes before instruction `n` of block `b` on every way to it. */
  ghost predicate Earlier(t: T.Tree, h: Block, j: nat, b: Block, n: nat) {
    if h == b then j < n else D.Over(t, h, b)
  }

  /** If the instruction at `h`, `j` is kept and is the same as `s`, it replaces `s`. */
  ghost predicate Replaces(f: Func, opt: map<Value, Value>, h: Block, j: nat, s: Stmt)
    requires h < |f| && j < |f[h].insts| && s.Mergeable? && s.result in opt
  {
    && Known(opt, f[h].insts[j])
    && forall v | KeptAs(f, opt, KeyOf(opt, s), v, h, j) :: opt[s.result] == v != s.result
  }

  /** A mergeable instruction is merged with the kept one of the same operation and operands before it, and is kept if
  there is none. */
  ghost predicate MergedOK(t: T.Tree, f: Func, opt: map<Value, Value>, b: Block, n: nat)
    requires b < |f| && n < |f[b].insts|
  {
    var s := f[b].insts[n];
    s.Mergeable? ==>
      && Known(opt, s) && s.result in opt
      && (opt[s.result] == s.result
          || exists h, j :: KeptAs(f, opt, KeyOf(opt, s), opt[s.result], h, j) && Earlier(t, h, j, b, n))
      && forall h, j | 0 <= h < |f| && 0 <= j < |f[h].insts| && Earlier(t, h, j, b, n) :: Replaces(f, opt, h, j, s)
  }

  lemma ReplacesGrows(f: Func, opt: map<Value, Value>, opt': map<Value, Value>, h: Block, j: nat, s: Stmt)
    requires h < |f| && j < |f[h].insts| && s.Mergeable? && s.result in opt && Known(opt, s) && OptGrows(opt, opt')
    requires Replaces(f, opt, h, j, s)
    ensures Replaces(f, opt', h, j, s)
  {
    assert Replaced(opt', s.args) == Replaced(opt, s.args);
    forall v | KeptAs(f, opt', KeyOf(opt', s), v, h, j) ensures opt'[s.result] == v != s.result {
      KeptAsGrows(f, opt, opt', KeyOf(opt, s), v, h, j);
    }
  }

  lemma MergedGrows(t: T.Tree, f: Func, opt: map<Value, Value>, opt': map<Value, Value>, b: Block, n: nat)
    requires b < |f| && n < |f[b].insts| && MergedOK(t, f, opt, b, n) && OptGrows(opt, opt')
    ensures MergedOK(t, f, opt', b, n)
  {
    hide Replaces, KeptAs, Earlier;
    var s := f[b].insts[n];
    if s.Mergeable? {
      assert KeyOf(opt', s) == KeyOf(opt, s);
      if opt[s.result] != s.result {
        var h, j :| KeptAs(f, opt, KeyOf(opt, s), opt[s.result], h, j) && Earlier(t, h, j, b, n);
        KeptAsKnown(f, opt, KeyOf(opt, s), opt[s.result], h, j);
        KeptAsGrows(f, opt, opt', KeyOf(opt, s), opt[s.result], h, j);
      }
      forall h, j | 0 <= h < |f| && 0 <= j < |f[h].insts| && Earlier(t, h, j, b, n)
        ensures Replaces(f, opt', h, j, s)
      {
        ReplacesGrows(f, opt, opt', h, j, s);
      }
    }
  }

  lemma KeptAsKnown(f: Func, opt: map<Value, Value>, key: Key, v: Value, h: Block, j: nat)
    requires KeptAs(f, opt, key, v, h, j)
    ensures h < |f| && j < |f[h].insts| && Known(opt, f[h].insts[j])
  {
  }

  /** An entry of a scope: a kept instruction among the first `n` of block `b`, with the meaning of the key. */
  ghost predicate EntryOK(f: Func, eff: (Op, seq<int>) -> int, opt: map<Value, Value>, avail: Avail, m: Meanings,
      key: Key, v: Value, b: Block, n: nat) {
    && (exists j | 0 <= j < n :: KeptAs(f, opt, key, v, b, j))
    && v in avail && avail[v] == b && v in m && AllIn(key.args, m) && m[v] == eff(key.op, Means(m, key.args))
  }

  /** If the instruction is kept, it is in the scope. */
  ghost predicate InScope(opt: map<Value, Value>, scope: Scope, s: Stmt) {
    && Known(opt, s)
    && (s.Mergeable? && s.result in opt && opt[s.result] == s.result ==>
          KeyOf(opt, s) in scope && scope[KeyOf(opt, s)] == s.result)
  }

  /** The entries of the scope are the kept instructions among the first `n` of block `b`. */
  ghost predicate ScopeOK(f: Func, eff: (Op, seq<int>) -> int, opt: map<Value, Value>, avail: Avail, m: Meanings,
      scope: Scope, b: Block, n: nat) {
    && (forall key | key in scope :: EntryOK(f, eff, opt, avail, m, key, scope[key], b, n))
    && b < |f| && n <= |f[b].insts| && forall j | 0 <= j < n :: InScope(opt, scope, f[b].insts[j])
  }

  ghost function Limit(f: Func, path: seq<Block>, i: nat, n: nat): nat
    requires i < |path| && path[i] < |f|
  {
    if i == |path| - 1 then n else |f[path[i]].insts|
  }

  /** No key is in two scopes. */
  ghost predicate Apart(scopes: seq<Scope>) {
    forall i, k, key | 0 <= i < k < |scopes| && key in scopes[i] :: key !in scopes[k]
  }

  /** One scope for each block being visited; the last block has been processed up to instruction `n`. */
  ghost predicate ScopesOK(f: Func, eff: (Op, seq<int>) -> int, opt: map<Value, Value>, avail: Avail, m: Meanings,
      scopes: seq<Scope>, path: seq<Block>, n: nat) {
    && |scopes| == |path| && (forall i | 0 <= i < |path| :: path[i] < |f|) && Apart(scopes)
    && (forall i | 0 <= i < |path| :: ScopeOK(f, eff, opt, avail, m, scopes[i], path[i], Limit(f, path, i, n)))
  }

  lemma EntryGrows(f: Func, eff: (Op, seq<int>) -> int, opt: map<Value, Value>, avail: Avail, m: Meanings,
      opt': map<Value, Value>, avail': Avail, m': Meanings, key: Key, v: Value, b: Block, n: nat)
    requires EntryOK(f, eff, opt, avail, m, key, v, b, n) && OptGrows(opt, opt') && Grows(avail, m, avail', m')
    ensures EntryOK(f, eff, opt', avail', m', key, v, b, n)
  {
    hide KeptAs;
    var j :| 0 <= j < n && KeptAs(f, opt, key, v, b, j);
    KeptAsKnown(f, opt, key, v, b, j);
    KeptAsGrows(f, opt, opt', key, v, b, j);
    assert Means(m', key.args) == Means(m, key.args);
  }

  lemma InScopeGrows(opt: map<Value, Value>, opt': map<Value, Value>, scope: Scope, s: Stmt)
    requires InScope(opt, scope, s) && OptGrows(opt, opt')
    ensures InScope(opt', scope, s)
  {
    assert Replaced(opt', s.args) == Replaced(opt, s.args);
    assert s.Mergeable? ==> Results(s)[0] == s.result;
  }

  lemma ScopesGrow(f: Func, eff: (Op, seq<int>) -> int, opt: map<Value, Value>, avail: Avail, m: Meanings,
      opt': map<Value, Value>, avail': Avail, m': Meanings, scopes: seq<Scope>, path: seq<Block>, n: nat)
    requires ScopesOK(f, eff, opt, avail, m, scopes, path, n) && OptGrows(opt, opt') && Grows(avail, m, avail', m')
    ensures ScopesOK(f, eff, opt', avail', m', scopes, path, n)
  {
    hide EntryOK, InScope;
    forall i | 0 <= i < |path| ensures ScopeOK(f, eff, opt', avail', m', scopes[i], path[i], Limit(f, path, i, n)) {
      var k := Limit(f, path, i, n);
      assert ScopeOK(f, eff, opt, avail, m, scopes[i], path[i], k);
      forall key | key in scopes[i] ensures EntryOK(f, eff, opt', avail', m', key, scopes[i][key], path[i], k) {
        EntryGrows(f, eff, opt, avail, m, opt', avail', m', key, scopes[i][key], path[i], k);
      }
      forall j | 0 <= j < k ensures InScope(opt', scopes[i], f[path[i]].insts[j]) {
        InScopeGrows(opt, opt', scopes[i], f[path[i]].insts[j]);
      }
    }
  }

  /** One more instruction, which is in the scope if it is kept. */
  lemma ScopesNext(f: Func, eff: (Op, seq<int>) -> int, opt: map<Value, Value>, avail: Avail, m: Meanings,
      scopes: seq<Scope>, path: seq<Block>, b: Block, n: nat)
    requires ScopesOK(f, eff, opt, avail, m, scopes, path, n) && path != [] && path[|path| - 1] == b
    requires b < |f| && n < |f[b].insts| && InScope(opt, scopes[|path| - 1], f[b].insts[n])
    ensures ScopesOK(f, eff, opt, avail, m, scopes, path, n + 1)
  {
    hide KeptAs, InScope;
    forall i | 0 <= i < |path| ensures ScopeOK(f, eff, opt, avail, m, scopes[i], path[i], Limit(f, path, i, n + 1)) {
      assert ScopeOK(f, eff, opt, avail, m, scopes[i], path[i], Limit(f, path, i, n));
      if i == |path| - 1 {
        forall key | key in scopes[i] ensures EntryOK(f, eff, opt, avail, m, key, scopes[i][key], b, n + 1) {
          assert EntryOK(f, eff, opt, avail, m, key, scopes[i][key], b, n);
        }
      }
    }
  }

  lemma StmtGrows(sem: (Op, seq<int>) -> int, eff: (Op, seq<int>) -> int, avail: Avail, m: Meanings, avail': Avail,
      m': Meanings, s: Stmt)
    requires StmtMeans(sem, eff, m, s) && Grows(avail, m, avail', m')
    ensures StmtMeans(sem, eff, m', s)
  {
    assert Means(m', s.args) == Means(m, s.args);
  }

  /** Operands and what they are replaced by mean the same. */
  lemma ArgsReplaced(cls: Classes, opt: map<Value, Value>, avail: Avail, m: Meanings, args: seq<Value>,
      args': seq<Value>)
    requires |args'| == |args| && AllIn(args, m)
    requires forall i | 0 <= i < |args| ::
               args[i] in opt && args'[i] == opt[args[i]] && OptOK(avail, cls, m, args[i], opt[args[i]])
    ensures AllIn(args', m) && AllIn(args', avail) && Means(m, args') == Means(m, args)
  {
  }

  lemma DefinedGrows(b: Body, n: nat, k: nat, v: Value)
    requires n <= k <= |b.insts| && v in Defined(b, n)
    ensures v in Defined(b, k)
  {
  }

  // ----- the state of the pass -----

  /** What is assumed of the function and its dominator tree. */
  ghost predicate Program(t: T.Tree, post: seq<Block>, f: Func, dom: (Block, Block) -> bool, entry: Block,
      sem: (Op, seq<int>) -> int, eff: (Op, seq<int>) -> int, n0: nat, m0: Meanings) {
    && D.Ordered(t, post) && entry == post[|post| - 1] && |f| == |t| && TreeOrder(dom, entry)
    && (forall a, b | a in post && b in post :: dom(a, b) == D.Over(t, a, b))
    && (forall b | b in post :: b < |f|)
    && Once(f) && UsesOK(t, post, f) && FuncMeans(sem, eff, post, f, m0)
    && (forall b, v | 0 <= b < |f| && v in All(f[b]) :: v < n0)
  }

  ghost predicate InDone(f: Func, done: set<Block>, v: Value) {
    exists b | b in done && b < |f| :: v in All(f[b])
  }

  /** Values of the original function that are in classes were defined in a block that is done, or by the first
  `n` instructions of block `b`. */
  ghost predicate SeenOK(f: Func, cls: Classes, done: set<Block>, b: Block, n: nat, n0: nat)
    requires b < |f| && n <= |f[b].insts|
  {
    forall v | v in cls :: v >= n0 || InDone(f, done, v) || v in Defined(f[b], n)
  }

  ghost predicate BlockDone(t: T.Tree, f: Func, dom: (Block, Block) -> bool, opt: map<Value, Value>, avail: Avail,
      b: Block) {
    b < |f| && Placed(dom, opt, avail, All(f[b]), b) && forall n | 0 <= n < |f[b].insts| :: MergedOK(t, f, opt, b, n)
  }

  /** Whatever replaces a value of the original function means the same. */
  ghost predicate Preserved(m0: Meanings, opt: map<Value, Value>, m: Meanings) {
    forall v | v in opt && v in m0 :: opt[v] in m && m[opt[v]] == m0[v]
  }

  ghost predicate BlocksDone(t: T.Tree, f: Func, dom: (Block, Block) -> bool, opt: map<Value, Value>, avail: Avail,
      done: set<Block>) {
    forall b | b in done :: BlockDone(t, f, dom, opt, avail, b)
  }

  lemma DoneGrows(t: T.Tree, f: Func, dom: (Block, Block) -> bool, opt: map<Value, Value>, avail: Avail, m: Meanings,
      opt': map<Value, Value>, avail': Avail, m': Meanings, done: set<Block>)
    requires BlocksDone(t, f, dom, opt, avail, done) && OptGrows(opt, opt') && Grows(avail, m, avail', m')
    ensures BlocksDone(t, f, dom, opt', avail', done)
  {
    hide MergedOK, Placed;
    forall b | b in done ensures BlockDone(t, f, dom, opt', avail', b) {
      assert BlockDone(t, f, dom, opt, avail, b);
      PlacedGrows(dom, opt, avail, m, opt', avail', m', All(f[b]), b);
      forall n | 0 <= n < |f[b].insts| ensures MergedOK(t, f, opt', b, n) {
        MergedGrows(t, f, opt, opt', b, n);
      }
    }
  }

  /** The operands of an instruction have been replaced by values that are available in its block. */
  lemma ArgsPlaced(t: T.Tree, post: seq<Block>, f: Func, dom: (Block, Block) -> bool, entry: Block,
      sem: (Op, seq<int>) -> int, eff: (Op, seq<int>) -> int, n0: nat, m0: Meanings,
      opt: map<Value, Value>, avail: Avail, w: W.Walk, b: Block, n: nat)
    requires Program(t, post, f, dom, entry, sem, eff, n0, m0) && W.WalkOK(t, post, w) && W.Next(w, b) && b in post
             && n < |f[b].insts|
    requires BlocksDone(t, f, dom, opt, avail, w.done) && Placed(dom, opt, avail, Defined(f[b], n), b)
    ensures Placed(dom, opt, avail, AsSet(f[b].insts[n].args), b)
  {
    hide FuncMeans, MergedOK, Once, Defined;
    forall a | a in f[b].insts[n].args ensures a in opt && opt[a] in avail && dom(avail[opt[a]], b) {
      assert UseOK(t, f, b, n, a);
      if a !in Defined(f[b], n) {
        var h :| 0 <= h < |f| && h != b && D.Over(t, h, b) && a in All(f[h]);
        W.NextOver(t, post, w, b, h);
        assert BlockDone(t, f, dom, opt, avail, h);
        TreeTrans(dom, entry, avail[opt[a]], h, b);
      }
    }
  }

  /** The same when all blocks are done. */
  lemma OperandsPlaced(t: T.Tree, post: seq<Block>, f: Func, dom: (Block, Block) -> bool, entry: Block,
      sem: (Op, seq<int>) -> int, eff: (Op, seq<int>) -> int, n0: nat, m0: Meanings,
      opt: map<Value, Value>, avail: Avail, b: Block, n: nat)
    requires Program(t, post, f, dom, entry, sem, eff, n0, m0) && b in post && b < |f| && n < |f[b].insts|
    requires forall c | c in post :: BlockDone(t, f, dom, opt, avail, c)
    ensures Placed(dom, opt, avail, AsSet(f[b].insts[n].args), b) && AllIn(f[b].insts[n].args, m0)
  {
    hide MergedOK, Once, Defined, D.Over, D.Ordered;
    assert StmtMeans(sem, eff, m0, f[b].insts[n]);
    forall a | a in f[b].insts[n].args ensures a in opt && opt[a] in avail && dom(avail[opt[a]], b) {
      assert UseOK(t, f, b, n, a);
      if a in Defined(f[b], n) {
        DefinedGrows(f[b], n, |f[b].insts|, a);
      } else {
        var h :| 0 <= h < |f| && h != b && D.Over(t, h, b) && a in All(f[h]);
        W.OverIn(t, post, h, b);
        TreeTrans(dom, entry, avail[opt[a]], h, b);
      }
    }
  }

  /** The results of an instruction are new. */
  lemma ResultsNew(t: T.Tree, post: seq<Block>, f: Func, dom: (Block, Block) -> bool, entry: Block,
      sem: (Op, seq<int>) -> int, eff: (Op, seq<int>) -> int, n0: nat, m0: Meanings,
      cls: Classes, done: set<Block>, b: Block, n: nat)
    requires Program(t, post, f, dom, entry, sem, eff, n0, m0) && b in post && b !in done && n < |f[b].insts|
             && SeenOK(f, cls, done, b, n, n0)
    ensures OnceAt(f[b], n) && forall v | v in Results(f[b].insts[n]) :: v !in cls
  {
    assert OnceAt(f[b], n);
    forall v | v in Results(f[b].insts[n]) ensures v !in cls {
      assert v in Defined(f[b], n + 1);
      DefinedGrows(f[b], n + 1, |f[b].insts|, v);
      NotElsewhere(f, done, b, v);
    }
  }

  lemma NotElsewhere(f: Func, done: set<Block>, b: Block, v: Value)
    requires Once(f) && b < |f| && b !in done && v in All(f[b])
    ensures !InDone(f, done, v)
  {
  }

  lemma ParamsNew(t: T.Tree, post: seq<Block>, f: Func, dom: (Block, Block) -> bool, entry: Block,
      sem: (Op, seq<int>) -> int, eff: (Op, seq<int>) -> int, n0: nat, m0: Meanings,
      cls: Classes, done: set<Block>, b: Block)
    requires Program(t, post, f, dom, entry, sem, eff, n0, m0) && b in post && b !in done
    requires forall v | v in cls :: v >= n0 || InDone(f, done, v)
    ensures D.Unique(f[b].params) && forall v | v in f[b].params :: v !in cls
  {
    forall v | v in f[b].params ensures v !in cls {
      assert v in Defined(f[b], 0);
      DefinedGrows(f[b], 0, |f[b].insts|, v);
      NotElsewhere(f, done, b, v);
    }
  }

  // ----- what is left of a block -----

  /** The instruction with its operands replaced. */
  function Rewritten(opt: map<Value, Value>, s: Stmt): Stmt {
    s.(args := Replaced(opt, s.args))
  }

  /** The instruction stays in its block, if it is neither pure nor merged with another. */
  predicate Stays(opt: map<Value, Value>, s: Stmt) {
    s.Skeleton? || (s.Mergeable? && s.result in opt && opt[s.result] == s.result)
  }

  function Left(opt: map<Value, Value>, s: Stmt): seq<Stmt> {
    if Stays(opt, s) then [Rewritten(opt, s)] else []
  }

  /** What is left of the first `n` instructions, in their order. */
  ghost function Kept(b: Body, opt: map<Value, Value>, n: nat): seq<Stmt>
    requires n <= |b.insts|
  {
    if n == 0 then [] else Kept(b, opt, n - 1) + Left(opt, b.insts[n - 1])
  }

  type Layout = map<Block, seq<Stmt>>

  /** The layout of block `b` is what is left of its first `n` instructions. */
  ghost predicate Laid(f: Func, opt: map<Value, Value>, layout: Layout, b: Block, n: nat) {
    && b < |f| && n <= |f[b].insts| && b in layout && layout[b] == Kept(f[b], opt, n)
    && forall k | 0 <= k < n :: Known(opt, f[b].insts[k])
  }

  ghost predicate LaidAll(f: Func, opt: map<Value, Value>, layout: Layout, done: set<Block>) {
    forall b | b in done :: b < |f| && Laid(f, opt, layout, b, |f[b].insts|)
  }

  lemma ReplacedGrows(dom: (Block, Block) -> bool, opt: map<Value, Value>, avail: Avail, opt': map<Value, Value>,
      args: seq<Value>, b: Block)
    requires Placed(dom, opt, avail, AsSet(args), b) && OptGrows(opt, opt')
    ensures Replaced(opt', args) == Replaced(opt, args)
  {
    assert forall i | 0 <= i < |args| :: args[i] in AsSet(args);
  }

  lemma LeftGrows(opt: map<Value, Value>, opt': map<Value, Value>, s: Stmt)
    requires Known(opt, s) && OptGrows(opt, opt')
    ensures Known(opt', s) && Left(opt', s) == Left(opt, s)
  {
    assert Replaced(opt', s.args) == Replaced(opt, s.args);
    if s.Mergeable? {
      assert Results(s)[0] == s.result;
    }
  }

  lemma {:induction false} KeptGrows(b: Body, opt: map<Value, Value>, opt': map<Value, Value>, n: nat)
    requires n <= |b.insts| && OptGrows(opt, opt') && forall k | 0 <= k < n :: Known(opt, b.insts[k])
    ensures Kept(b, opt', n) == Kept(b, opt, n) && forall k | 0 <= k < n :: Known(opt', b.insts[k])
    decreases n
  {
    hide Known, Left;
    if n > 0 {
      KeptGrows(b, opt, opt', n - 1);
      LeftGrows(opt, opt', b.insts[n - 1]);
    }
  }

  /** One more instruction. */
  lemma LaidStep(f: Func, opt: map<Value, Value>, opt': map<Value, Value>, layout: Layout, layout': Layout, b: Block,
      n: nat)
    requires Laid(f, opt, layout, b, n) && n < |f[b].insts| && OptGrows(opt, opt') && Known(opt', f[b].insts[n])
    requires layout' == layout[b := layout[b] + Left(opt', f[b].insts[n])]
    ensures Laid(f, opt', layout', b, n + 1)
  {
    hide Known, Left;
    KeptGrows(f[b], opt, opt', n);
  }

  lemma LaidGrows(f: Func, opt: map<Value, Value>, opt': map<Value, Value>, layout: Layout, layout': Layout, b: Block,
      done: set<Block>)
    requires LaidAll(f, opt, layout, done) && OptGrows(opt, opt') && b !in done
    requires forall c | c in layout && c != b :: c in layout' && layout'[c] == layout[c]
    ensures LaidAll(f, opt', layout', done)
  {
    forall c | c in done ensures c < |f| && Laid(f, opt', layout', c, |f[c].insts|) {
      KeptGrows(f[c], opt, opt', |f[c].insts|);
    }
  }

  lemma PlacedKnown(dom: (Block, Block) -> bool, opt: map<Value, Value>, avail: Avail, opt': map<Value, Value>,
      avail': Avail, s: Stmt, b: Block)
    requires Placed(dom, opt, avail, AsSet(s.args), b) && Placed(dom, opt', avail', AsSet(Results(s)), b)
             && OptGrows(opt, opt')
    ensures Known(opt', s)
  {
    assert forall i | 0 <= i < |s.args| :: s.args[i] in AsSet(s.args);
    assert forall i | 0 <= i < |Results(s)| :: Results(s)[i] in AsSet(Results(s));
  }

  lemma LaidIn(f: Func, opt: map<Value, Value>, layout: Layout, b: Block, n: nat)
    requires Laid(f, opt, layout, b, n)
    ensures b in layout
  {
  }

  lemma LaidNone(f: Func, opt: map<Value, Value>, layout: Layout, b: Block)
    requires b < |f| && b in layout && layout[b] == []
    ensures Laid(f, opt, layout, b, 0)
  {
  }

  lemma LaidFinished(f: Func, opt: map<Value, Value>, layout: Layout, done: set<Block>, b: Block)
    requires b < |f| && LaidAll(f, opt, layout, done) && Laid(f, opt, layout, b, |f[b].insts|)
    ensures LaidAll(f, opt, layout, done + {b})
  {
    hide Laid;
  }

  lemma LaidAt(f: Func, opt: map<Value, Value>, layout: Layout, done: set<Block>, b: Block)
    requires LaidAll(f, opt, layout, done) && b in done
    ensures b < |f| && Laid(f, opt, layout, b, |f[b].insts|)
  {
  }

  lemma NoneLeft(opt: map<Value, Value>, s: Stmt, layout: Layout, b: Block)
    requires s.PureInst? && b in layout
    ensures layout == layout[b := layout[b] + Left(opt, s)]
  {
    assert layout[b] + [] == layout[b];
  }

  lemma SkeletonLeft(dom: (Block, Block) -> bool, opt: map<Value, Value>, avail: Avail, opt': map<Value, Value>,
      s: Stmt, b: Block)
    requires s.Skeleton? && Placed(dom, opt, avail, AsSet(s.args), b) && OptGrows(opt, opt')
    ensures Left(opt', s) == [Skeleton(s.results, Replaced(opt, s.args))]
  {
    ReplacedGrows(dom, opt, avail, opt', s.args, b);
  }

  /** What is left of a block uses values that mean what the original operands mean and are available in the block. */
  ghost predicate LeftOK(dom: (Block, Block) -> bool, opt: map<Value, Value>, avail: Avail, m0: Meanings, m: Meanings,
      s: Stmt, b: Block) {
    && AllIn(s.args, opt) && AvailAt(dom, avail, Replaced(opt, s.args), b) && AllIn(s.args, m0)
    && AllIn(Replaced(opt, s.args), m)
    && Means(m, Replaced(opt, s.args)) == Means(m0, s.args)
  }

  lemma PlacedLeft(dom: (Block, Block) -> bool, opt: map<Value, Value>, avail: Avail, m0: Meanings, m: Meanings,
      s: Stmt, b: Block)
    requires Placed(dom, opt, avail, AsSet(s.args), b) && Preserved(m0, opt, m) && AllIn(s.args, m0)
    ensures LeftOK(dom, opt, avail, m0, m, s, b)
  {
    assert forall i | 0 <= i < |s.args| :: s.args[i] in AsSet(s.args);
  }

  class Pass {
    const f: Func
    const ctx: OptimizeCtx
    const children: Block -> seq<Block>
    var scopes: seq<Scope>
    /** The instructions that stay, by block. */
    var layout: Layout
    ghost const t: T.Tree
    ghost const post: seq<Block>
    /** What mergeable instructions compute. */
    ghost const eff: (Op, seq<int>) -> int
    /** Values of the original function and what they mean. */
    ghost const n0: nat
    ghost const m0: Meanings

    ghost predicate Assumed() {
      Program(t, post, f, ctx.dom, ctx.entry, ctx.sem, eff, n0, m0) && W.ChildrenOK(t, post, children)
    }

    constructor (f: Func, ctx: OptimizeCtx, children: Block -> seq<Block>, ghost t: T.Tree, ghost post: seq<Block>,
        ghost eff: (Op, seq<int>) -> int)
      ensures this.f == f && this.ctx == ctx && this.children == children && scopes == [] && layout == map[]
              && this.t == t && this.post == post && this.eff == eff
      ensures n0 == ctx.numValues && m0 == ctx.meaning
    {
      this.f, this.ctx, this.children, scopes, layout := f, ctx, children, [], map[];
      this.t, this.post, this.eff, n0, m0 := t, post, eff, ctx.numValues, ctx.meaning;
    }

    /** Everything that was known before still is. */
    twostate predicate Advanced()
      reads ctx, ctx.eclasses
    {
      && Grows(old(ctx.availableBlock), old(ctx.meaning), ctx.availableBlock, ctx.meaning)
      && OptGrows(old(ctx.valueToOptValue), ctx.valueToOptValue)
      && (forall v | v in old(ctx.eclasses.cls) :: v in ctx.eclasses.cls)
      && ctx.numValues >= old(ctx.numValues)
    }

    /** Values of the skeleton stand for themselves, in their own block. */
    method PlaceAll(vs: seq<Value>, b: Block)
      requires ctx.Valid() && D.Unique(vs) && AllIn(vs, ctx.meaning) && (forall v | v in vs :: v !in ctx.eclasses.cls)
               && ctx.dom(ctx.entry, b)
      modifies ctx, ctx.eclasses
      ensures ctx.Valid() && Advanced()
      ensures forall v | v in ctx.eclasses.cls :: v in old(ctx.eclasses.cls) || v in vs
      ensures forall v | v in vs ::
                v in ctx.valueToOptValue && ctx.valueToOptValue[v] == v && v in ctx.availableBlock
                && ctx.availableBlock[v] == b
    {
      hide OptimizeCtx.Valid;
      for i := 0 to |vs|
        invariant ctx.Valid() && Advanced() && ctx.meaning == old(ctx.meaning)
        invariant forall v | v in ctx.eclasses.cls :: v in old(ctx.eclasses.cls) || v in vs[..i]
        invariant forall v | v in vs[..i] ::
                    v in ctx.valueToOptValue && ctx.valueToOptValue[v] == v && v in ctx.availableBlock
                    && ctx.availableBlock[v] == b
      {
        var v := vs[i];
        assert v !in vs[..i];
        ctx.AddValue(v);
        IsolatedNew(ctx.eclasses.cls, ctx.availableBlock, v);
        ctx.SetBlock(v, b);
        ctx.SetOptValue(v, v);
        assert vs[..i + 1] == vs[..i] + [v];
      }
      assert vs[..|vs|] == vs;
    }

    /** Replace operands by what they were replaced by. */
    method RewriteArgs(args: seq<Value>, ghost b: Block) returns (r: seq<Value>)
      requires ctx.Valid() && AllIn(args, ctx.meaning) && Placed(ctx.dom, ctx.valueToOptValue, ctx.availableBlock,
               AsSet(args), b)
      ensures AvailAt(ctx.dom, ctx.availableBlock, r, b) && AllIn(r, ctx.meaning) && Means(ctx.meaning, r) ==
              Means(ctx.meaning, args)
      ensures r == Replaced(ctx.valueToOptValue, args)
    {
      hide TreeOrder, RulesOK, GraphOK;
      assert forall i | 0 <= i < |args| :: args[i] in AsSet(args);
      r := Replaced(ctx.valueToOptValue, args);
      ArgsReplaced(ctx.eclasses.cls, ctx.valueToOptValue, ctx.availableBlock, ctx.meaning, args, r);
    }

    method VisitPure(result: Value, op: Op, args: seq<Value>, b: Block)
      requires ctx.Valid() && ctx.dom(ctx.entry, b) && result in ctx.meaning && result !in ctx.eclasses.cls
      requires AllIn(args, ctx.meaning) && ctx.meaning[result] == ctx.sem(op, Means(ctx.meaning, args))
      requires Placed(ctx.dom, ctx.valueToOptValue, ctx.availableBlock, AsSet(args), b)
      modifies ctx, ctx.eclasses
      ensures ctx.Valid() && Advanced()
              && forall v | v in ctx.eclasses.cls ::
                   v in old(ctx.eclasses.cls) || v == result || v >= old(ctx.numValues)
      ensures Placed(ctx.dom, ctx.valueToOptValue, ctx.availableBlock, {result}, b)
      ensures result in ctx.valueToOptValue
              && ctx.HasValue(op, Replaced(old(ctx.valueToOptValue), args), ctx.valueToOptValue[result])
      ensures forall v | old(ctx.HasValue(op, Replaced(ctx.valueToOptValue, args), v)) ::
                ctx.valueToOptValue[result] == v && NothingMade(result)
    {
      hide OptimizeCtx.Valid, Holds, Replaced, TableOK;
      ctx.ForgetSubsumed();
      ghost var g := ctx.Now();
      TableInOrder(ctx);
      ctx.AddValue(result);
      var args' := RewriteArgs(args, b);
      forall v | old(ctx.HasValue(op, Replaced(ctx.valueToOptValue, args), v)) ensures ctx.HasValue(op, args', v) {
        HeldStill(ctx, g, result, op, args', v);
      }
      var _ := ctx.InsertPureEnode(Existing(result, op, args'), b);
    }

    /** The graph is the same but for the class of `result`. */
    twostate predicate NothingMade(result: Value)
      reads ctx, ctx.eclasses
    {
      && ctx.numValues == old(ctx.numValues) && ctx.defs == old(ctx.defs) && ctx.gvnMap == old(ctx.gvnMap)
      && ctx.eclasses.View() == Added(old(ctx.eclasses.View()), result)
    }

    /** The instruction stays in block `b`. */
    method Keep(b: Block, s: Stmt)
      requires b in layout
      modifies this`layout
      ensures layout == old(layout)[b := old(layout)[b] + [s]]
    {
      layout := layout[b := layout[b] + [s]];
    }

    /** Any other instruction stays, with its operands replaced. */
    method VisitSkeleton(results: seq<Value>, args: seq<Value>, b: Block)
      requires ctx.Valid() && ctx.dom(ctx.entry, b) && ctx.dom(b, b) && b in layout
      requires D.Unique(results) && AllIn(results, ctx.meaning) && (forall v | v in results :: v !in ctx.eclasses.cls)
      requires AllIn(args, ctx.meaning) && Placed(ctx.dom, ctx.valueToOptValue, ctx.availableBlock, AsSet(args), b)
      modifies ctx, ctx.eclasses, this`layout
      ensures ctx.Valid() && Advanced()
              && forall v | v in ctx.eclasses.cls :: v in old(ctx.eclasses.cls) || v in results
      ensures Placed(ctx.dom, ctx.valueToOptValue, ctx.availableBlock, AsSet(results), b)
      ensures layout == old(layout)[b := old(layout)[b] + Left(ctx.valueToOptValue, Skeleton(results, args))]
    {
      hide OptimizeCtx.Valid, Placed, Left;
      ghost var opt, avail := ctx.valueToOptValue, ctx.availableBlock;
      var args' := RewriteArgs(args, b);
      PlaceAll(results, b);
      Keep(b, Skeleton(results, args'));
      SkeletonLeft(ctx.dom, opt, avail, ctx.valueToOptValue, Skeleton(results, args), b);
      PlacedSelf(ctx.dom, ctx.valueToOptValue, ctx.availableBlock, results, b);
    }

    /** Look a key up in all scopes. */
    method Find(key: Key) returns (k: int)
      ensures k >= 0 ==> k < |scopes| && key in scopes[k]
      ensures k < 0 ==> forall i | 0 <= i < |scopes| :: key !in scopes[i]
    {
      for i := 0 to |scopes|
        invariant forall j | 0 <= j < i :: key !in scopes[j]
      {
        if key in scopes[i] {
          return i;
        }
      }
      k := -1;
    }

    /** Merge an instruction with an equal one in a dominating place, or keep it. */
    method VisitMergeable(b: Block, n: nat, ghost path: seq<Block>)
      requires ctx.Valid() && b < |f| && n < |f[b].insts| && f[b].insts[n].Mergeable? && ctx.dom(ctx.entry, b)
               && ctx.dom(b, b)
      requires b in layout
      requires StmtMeans(ctx.sem, eff, ctx.meaning, f[b].insts[n]) && f[b].insts[n].result !in ctx.eclasses.cls
      requires Placed(ctx.dom, ctx.valueToOptValue, ctx.availableBlock, AsSet(f[b].insts[n].args), b)
      requires OnPath(t, path, b) && (forall i | 0 <= i < |path| :: ctx.dom(path[i], b))
      requires ScopesOK(f, eff, ctx.valueToOptValue, ctx.availableBlock, ctx.meaning, scopes, path, n)
      modifies ctx, ctx.eclasses, this`scopes, this`layout
      ensures ctx.Valid() && Advanced()
              && forall v | v in ctx.eclasses.cls :: v in old(ctx.eclasses.cls) || v == f[b].insts[n].result
      ensures layout == old(layout)[b := old(layout)[b] + Left(ctx.valueToOptValue, f[b].insts[n])]
      ensures Placed(ctx.dom, ctx.valueToOptValue, ctx.availableBlock, {f[b].insts[n].result}, b)
              && MergedOK(t, f, ctx.valueToOptValue, b, n)
      ensures ScopesOK(f, eff, ctx.valueToOptValue, ctx.availableBlock, ctx.meaning, scopes, path, n + 1)
    {
      hide OptimizeCtx.Valid, ScopesOK, MergedOK, EntryOK, KeptAs, Known, Replaced, InScope, Replaces, OnPath;
      var s := f[b].insts[n];
      var result := s.result;
      ghost var opt0, avail0, m0 := ctx.valueToOptValue, ctx.availableBlock, ctx.meaning;
      var args := RewriteArgs(s.args, b);
      ctx.AddValue(result);
      IsolatedNew(ctx.eclasses.cls, ctx.availableBlock, result);
      ctx.SetBlock(result, b);
      ScopesGrow(f, eff, opt0, avail0, m0, opt0, ctx.availableBlock, ctx.meaning, scopes, path, n);
      ScopesSize(f, eff, opt0, ctx.availableBlock, ctx.meaning, scopes, path, n);
      PathEnd(t, path, b);
      var key := Key(s.op, args);
      var k := Find(key);
      if k >= 0 {
        var v := scopes[k][key];
        ghost var j := FoundEntry(f, eff, opt0, ctx.availableBlock, ctx.meaning, scopes, path, n, k, key, result);
        KnownNext(ctx.dom, opt0, avail0, s, b, v);
        ctx.SetOptValue(result, v);
        ScopesGrow(f, eff, opt0, avail0, m0, ctx.valueToOptValue, ctx.availableBlock, ctx.meaning, scopes, path, n);
        MergedHere(t, f, eff, opt0, ctx.valueToOptValue, avail0, m0, scopes, path, b, n, k, j);
        NotInScope(ctx.valueToOptValue, scopes[|path| - 1], s);
        ScopesNext(f, eff, ctx.valueToOptValue, ctx.availableBlock, ctx.meaning, scopes, path, b, n);
        assert layout[b] + [] == layout[b];
      } else {
        KnownNext(ctx.dom, opt0, avail0, s, b, result);
        ctx.SetOptValue(result, result);
        ScopesGrow(f, eff, opt0, avail0, m0, ctx.valueToOptValue, ctx.availableBlock, ctx.meaning, scopes, path, n);
        KeptHere(t, f, eff, opt0, ctx.valueToOptValue, avail0, m0, scopes, path, b, n);
        ScopeInsert(f, eff, ctx.valueToOptValue, ctx.availableBlock, ctx.meaning, scopes, path, b, n, key);
        scopes := Entered(scopes, key, result);
        Keep(b, Mergeable(result, s.op, args));
        ReplacedGrows(ctx.dom, opt0, avail0, ctx.valueToOptValue, s.args, b);
      }
    }

    /** In block `b`, the first `n` instructions are done. */
    ghost predicate State(w: W.Walk, b: Block, n: nat)
      reads this, ctx, ctx.eclasses
    {
      && ctx.Valid() && Grows(map[], m0, ctx.availableBlock, ctx.meaning) && n0 <= ctx.numValues
      && b < |f| && n <= |f[b].insts| && SeenOK(f, ctx.eclasses.cls, w.done, b, n, n0)
      && BlocksDone(t, f, ctx.dom, ctx.valueToOptValue, ctx.availableBlock, w.done)
      && Placed(ctx.dom, ctx.valueToOptValue, ctx.availableBlock, Defined(f[b], n), b)
      && (forall k | 0 <= k < n :: MergedOK(t, f, ctx.valueToOptValue, b, k))
      && ScopesOK(f, eff, ctx.valueToOptValue, ctx.availableBlock, ctx.meaning, scopes, w.path + [b], n)
      && Laid(f, ctx.valueToOptValue, layout, b, n) && LaidAll(f, ctx.valueToOptValue, layout, w.done)
    }

    /** Process one instruction. */
    method VisitStmt(b: Block, n: nat, ghost w: W.Walk)
      requires Assumed() && W.WalkOK(t, post, w) && W.Next(w, b) && State(w, b, n) && n < |f[b].insts|
      modifies ctx, ctx.eclasses, this`scopes, this`layout
      ensures State(w, b, n + 1)
    {
      hide OptimizeCtx.Valid, Program, W.WalkOK, W.Next, W.ChildrenOK, SeenOK, BlocksDone, Placed, MergedOK, ScopesOK,
          Defined, StmtMeans, Laid, LaidAll, Left, Known, Holds, Replaced, Grows, NothingMade;
      ghost var opt, avail, m, cls, next := ctx.valueToOptValue, ctx.availableBlock, ctx.meaning, ctx.eclasses.cls,
          ctx.numValues;
      ghost var layout0 := layout;
      LaidIn(f, opt, layout, b, n);
      NextFacts(t, post, f, ctx.dom, ctx.entry, ctx.sem, eff, n0, m0, w, b);
      ArgsPlaced(t, post, f, ctx.dom, ctx.entry, ctx.sem, eff, n0, m0, opt, avail, w, b, n);
      ResultsNew(t, post, f, ctx.dom, ctx.entry, ctx.sem, eff, n0, m0, cls, w.done, b, n);
      FuncStmt(ctx.sem, eff, post, f, m0, avail, m, b, n);
      OneResult(f[b].insts[n]);
      match f[b].insts[n] {
        case PureInst(result, op, args) =>
          VisitPure(result, op, args, b);
          NoneLeft(ctx.valueToOptValue, f[b].insts[n], layout, b);
          PlacedKnown(ctx.dom, opt, avail, ctx.valueToOptValue, ctx.availableBlock, f[b].insts[n], b);
          ScopesSkip(f, eff, opt, avail, m, ctx.valueToOptValue, ctx.availableBlock, ctx.meaning, scopes, w.path + [b],
              b, n);
          NotMerged(t, f, ctx.valueToOptValue, b, n);
        case Mergeable(_, _, _) =>
          VisitMergeable(b, n, w.path + [b]);
        case Skeleton(results, args) =>
          VisitSkeleton(results, args, b);
          PlacedKnown(ctx.dom, opt, avail, ctx.valueToOptValue, ctx.availableBlock, f[b].insts[n], b);
          ScopesSkip(f, eff, opt, avail, m, ctx.valueToOptValue, ctx.availableBlock, ctx.meaning, scopes, w.path + [b],
              b, n);
          NotMerged(t, f, ctx.valueToOptValue, b, n);
      }
      GrowsTrans(map[], m0, avail, m, ctx.availableBlock, ctx.meaning);
      DoneGrows(t, f, ctx.dom, opt, avail, m, ctx.valueToOptValue, ctx.availableBlock, ctx.meaning, w.done);
      PlacedNext(f, ctx.dom, opt, avail, m, ctx.valueToOptValue, ctx.availableBlock, ctx.meaning, b, n);
      PlacedKnown(ctx.dom, opt, avail, ctx.valueToOptValue, ctx.availableBlock, f[b].insts[n], b);
      LaidStep(f, opt, ctx.valueToOptValue, layout0, layout, b, n);
      LaidGrows(f, opt, ctx.valueToOptValue, layout0, layout, b, w.done);
      SeenNext(f, cls, ctx.eclasses.cls, w.done, b, n, n0);
      forall k | 0 <= k < n ensures MergedOK(t, f, ctx.valueToOptValue, b, k) {
        MergedGrows(t, f, opt, ctx.valueToOptValue, b, k);
      }
    }

    /** Between blocks: all visited blocks are done, and there is a scope for each block being visited. */
    ghost predicate Between(w: W.Walk)
      reads this, ctx, ctx.eclasses
    {
      && ctx.Valid() && Grows(map[], m0, ctx.availableBlock, ctx.meaning) && n0 <= ctx.numValues
      && (forall v | v in ctx.eclasses.cls :: v >= n0 || InDone(f, w.done, v))
      && BlocksDone(t, f, ctx.dom, ctx.valueToOptValue, ctx.availableBlock, w.done)
      && ScopesFull(f, eff, ctx.valueToOptValue, ctx.availableBlock, ctx.meaning, scopes, w.path)
      && LaidAll(f, ctx.valueToOptValue, layout, w.done)
    }

    /** Enter a block: a new scope, and its parameters stand for themselves. */
    method EnterBlock(b: Block, ghost w: W.Walk)
      requires Assumed() && W.WalkOK(t, post, w) && W.Next(w, b) && Between(w)
      modifies ctx, ctx.eclasses, this`scopes, this`layout
      ensures State(w, b, 0)
    {
      hide OptimizeCtx.Valid, Program, W.WalkOK, W.ChildrenOK, BlocksDone, Placed, MergedOK, ScopesOK, ScopesFull,
          Defined, InDone, LaidAll, Laid, Grows, W.Next;
      ghost var opt, avail, m := ctx.valueToOptValue, ctx.availableBlock, ctx.meaning;
      NextFacts(t, post, f, ctx.dom, ctx.entry, ctx.sem, eff, n0, m0, w, b);
      ghost var layout0 := layout;
      scopes, layout := scopes + [map[]], layout[b := []];
      ScopesEnter(f, eff, opt, avail, m, scopes, w.path, b);
      ParamsNew(t, post, f, ctx.dom, ctx.entry, ctx.sem, eff, n0, m0, ctx.eclasses.cls, w.done, b);
      ParamsMean(ctx.sem, eff, post, f, m0, avail, m, b);
      PlaceAll(f[b].params, b);
      PlacedSelf(ctx.dom, ctx.valueToOptValue, ctx.availableBlock, f[b].params, b);
      GrowsTrans(map[], m0, avail, m, ctx.availableBlock, ctx.meaning);
      DoneGrows(t, f, ctx.dom, opt, avail, m, ctx.valueToOptValue, ctx.availableBlock, ctx.meaning, w.done);
      ScopesGrow(f, eff, opt, avail, m, ctx.valueToOptValue, ctx.availableBlock, ctx.meaning, scopes, w.path + [b], 0);
      LaidGrows(f, opt, ctx.valueToOptValue, layout0, layout, b, w.done);
      LaidNone(f, ctx.valueToOptValue, layout, b);
      assert Defined(f[b], 0) == AsSet(f[b].params) by { DefinedNone(f[b]); }
    }

    /** Process a block in a scope of its own. */
    method VisitBlock(b: Block, ghost w: W.Walk)
      requires Assumed() && W.WalkOK(t, post, w) && W.Next(w, b) && Between(w)
      modifies ctx, ctx.eclasses, this`scopes, this`layout
      ensures Between(W.Visited1(w, b, children(b)))
    {
      hide OptimizeCtx.Valid, Program, W.WalkOK, W.ChildrenOK, BlocksDone, Placed, MergedOK, ScopesOK, ScopesFull,
          Defined, InDone, LaidAll;
      NextFacts(t, post, f, ctx.dom, ctx.entry, ctx.sem, eff, n0, m0, w, b);
      EnterBlock(b, w);
      for n := 0 to |f[b].insts|
        invariant State(w, b, n)
      {
        VisitStmt(b, n, w);
      }
      BlockFinished(t, f, ctx.dom, ctx.valueToOptValue, ctx.availableBlock, w.done, b);
      LaidFinished(f, ctx.valueToOptValue, layout, w.done, b);
      SeenFinished(f, ctx.eclasses.cls, w.done, b, n0);
      ScopesFinish(f, eff, ctx.valueToOptValue, ctx.availableBlock, ctx.meaning, scopes, w.path, b);
    }

    method PushAll(stack: seq<W.StackEntry>, blocks: seq<Block>) returns (r: seq<W.StackEntry>)
      ensures r == stack + W.Visits(blocks)
    {
      r := stack;
      for i := 0 to |blocks|
        invariant r == stack + W.Visits(blocks[..i])
      {
        assert blocks[..i + 1] == blocks[..i] + [blocks[i]];
        assert W.Visits(blocks[..i + 1]) == W.Visits(blocks[..i]) + [W.Visit(blocks[i])];
        r := r + [W.Visit(blocks[i])];
      }
      assert blocks[..|blocks|] == blocks;
    }

    /** Visit all blocks. Every value of the function ends up replaced by one that means the same and is available in
    its block, and merged instructions are dominated by a kept one. */
    method RemovePureAndOptimize()
      requires Assumed() && ctx.Valid() && ctx.eclasses.cls == map[] && ctx.valueToOptValue == map[]
               && n0 == ctx.numValues && m0 == ctx.meaning && scopes == []
      modifies ctx, ctx.eclasses, this`scopes, this`layout
      ensures ctx.Valid() && forall b | b in post :: BlockDone(t, f, ctx.dom, ctx.valueToOptValue, ctx.availableBlock,
              b)
      ensures Preserved(m0, ctx.valueToOptValue, ctx.meaning)
      ensures forall b | b in post :: b < |f| && Laid(f, ctx.valueToOptValue, layout, b, |f[b].insts|)
      ensures forall b, n | b in post && b < |f| && 0 <= n < |f[b].insts| ::
                LeftOK(ctx.dom, ctx.valueToOptValue, ctx.availableBlock, m0, ctx.meaning, f[b].insts[n], b)
    {
      hide OptimizeCtx.Valid, Program, W.WalkOK, W.ChildrenOK, W.Lay, W.Next, W.Visited1, W.Popped, BlocksDone,
          ScopesFull, InDone, BlockDone, AsSet, Grows, Laid, LaidAll, LeftOK, Preserved;
      ProgramFacts(t, post, f, ctx.dom, ctx.entry, ctx.sem, eff, n0, m0);
      ghost var w := W.Walk([], [[post[|post| - 1]]], {});
      var stack := [W.Visit(ctx.entry)];
      W.WalkStart(t, post);
      NothingDone(t, f, eff, ctx.dom, ctx.valueToOptValue, ctx.availableBlock, ctx.meaning, layout);
      W.LayStart(post[|post| - 1]);
      while stack != []
        invariant W.WalkOK(t, post, w) && Between(w) && |w.pend| == |w.path| + 1 && stack == W.Lay(w.path, w.pend)
        decreases |AsSet(post) - w.done|, |stack|
      {
        W.LayTop(w);
        var top := stack[|stack| - 1];
        match top {
          case Visit(block) =>
            VisitTop(t, post, children, w, block);
            VisitBlock(block, w);
            w := W.Visited1(w, block, children(block));
            stack := PushAll(stack[..|stack| - 1] + [W.Pop], children(block));
          case Pop =>
            PopTop(t, post, w);
            ScopesLeave(f, eff, ctx.valueToOptValue, ctx.availableBlock, ctx.meaning, scopes, w.path);
            scopes := scopes[..|scopes| - 1];
            PoppedParts(w);
            w := W.Popped(w);
            stack := stack[..|stack| - 1];
        }
      }
      W.LayTop(w);
      forall b | b in post ensures BlockDone(t, f, ctx.dom, ctx.valueToOptValue, ctx.availableBlock, b) {
        W.WalkEnd(t, post, w, b);
        DoneAt(t, f, ctx.dom, ctx.valueToOptValue, ctx.availableBlock, w.done, b);
      }
      forall b | b in post ensures b < |f| && Laid(f, ctx.valueToOptValue, layout, b, |f[b].insts|) {
        W.WalkEnd(t, post, w, b);
        LaidAt(f, ctx.valueToOptValue, layout, w.done, b);
      }
      OptPreserved(ctx, m0);
      forall b, n | b in post && b < |f| && 0 <= n < |f[b].insts|
        ensures LeftOK(ctx.dom, ctx.valueToOptValue, ctx.availableBlock, m0, ctx.meaning, f[b].insts[n], b)
      {
        OperandsPlaced(t, post, f, ctx.dom, ctx.entry, ctx.sem, eff, n0, m0, ctx.valueToOptValue, ctx.availableBlock,
            b, n);
        PlacedLeft(ctx.dom, ctx.valueToOptValue, ctx.availableBlock, m0, ctx.meaning, f[b].insts[n], b);
      }
    }
  }

  lemma TableInOrder(ctx: OptimizeCtx)
    requires ctx.Valid()
    ensures TableOK(ctx.hash, ctx.eclasses.View(), ctx.gvnMap)
  {
  }

  /** A new class does not change what the table has. */
  lemma HeldStill(ctx: OptimizeCtx, g: Graph, x: Value, op: Op, args: seq<Value>, v: Value)
    requires ctx.Valid() && x !in g.part.cls && ctx.eclasses.View() == Added(g.part, x) && ctx.gvnMap == g.gvn
    requires TableOK(ctx.hash, g.part, g.gvn) && Holds(ctx.hash, g.part.cls, g.gvn, op, args, v)
    ensures ctx.HasValue(op, args, v)
  {
    HoldsAdded(ctx.hash, g.part, g.gvn, x, op, args, v);
  }

  lemma OptPreserved(ctx: OptimizeCtx, m0: Meanings)
    requires ctx.Valid() && Grows(map[], m0, ctx.availableBlock, ctx.meaning)
    ensures Preserved(m0, ctx.valueToOptValue, ctx.meaning)
  {
  }

  lemma NextFacts(t: T.Tree, post: seq<Block>, f: Func, dom: (Block, Block) -> bool, entry: Block,
      sem: (Op, seq<int>) -> int, eff: (Op, seq<int>) -> int, n0: nat, m0: Meanings, w: W.Walk, b: Block)
    requires Program(t, post, f, dom, entry, sem, eff, n0, m0) && W.WalkOK(t, post, w) && W.Next(w, b)
    ensures b in post && b !in w.done && b < |f| && dom(entry, b) && dom(b, b)
    ensures OnPath(t, w.path + [b], b) && forall i | 0 <= i < |w.path + [b]| :: dom((w.path + [b])[i], b)
    ensures FuncMeans(sem, eff, post, f, m0)
  {
    hide Once, UsesOK, FuncMeans, D.Over;
    W.NextPending(w, b);
    W.PendingPost(t, post, w, b);
    var j :| 0 <= j < |post| && post[j] == b;
    D.RootOver(t, post, j);
    forall i | 0 <= i < |w.path| ensures w.path[i] != b && D.Over(t, w.path[i], b) && w.path[i] in post {
      W.PathAbove(t, post, w, b, i);
      assert w.path[i] in w.done;
    }
    forall h | D.Over(t, h, b) ensures h in w.path + [b] {
      if h != b {
        W.NextOver(t, post, w, b, h);
      }
    }
  }

  lemma FuncStmt(sem: (Op, seq<int>) -> int, eff: (Op, seq<int>) -> int, post: seq<Block>, f: Func, m0: Meanings,
      avail: Avail, m: Meanings, b: Block, n: nat)
    requires FuncMeans(sem, eff, post, f, m0) && b in post && b < |f| && n < |f[b].insts| && Grows(map[], m0, avail, m)
    ensures var s := f[b].insts[n]; StmtMeans(sem, eff, m, s) && AllIn(Results(s), m) && AllIn(s.args, m)
    ensures var s := f[b].insts[n]; s.PureInst? ==> s.result in m && m[s.result] == sem(s.op, Means(m, s.args))
  {
    var s := f[b].insts[n];
    assert StmtMeans(sem, eff, m0, s);
    StmtGrows(sem, eff, map[], m0, avail, m, s);
    if s.PureInst? {
      assert Results(s)[0] == s.result;
    }
  }

  ghost function LastSize(f: Func, path: seq<Block>): nat {
    if path == [] || path[|path| - 1] >= |f| then 0 else |f[path[|path| - 1]].insts|
  }

  ghost predicate ScopesFull(f: Func, eff: (Op, seq<int>) -> int, opt: map<Value, Value>, avail: Avail, m: Meanings,
      scopes: seq<Scope>, path: seq<Block>) {
    ScopesOK(f, eff, opt, avail, m, scopes, path, LastSize(f, path))
  }

  lemma ScopesEnter(f: Func, eff: (Op, seq<int>) -> int, opt: map<Value, Value>, avail: Avail, m: Meanings,
      scopes: seq<Scope>, path: seq<Block>, b: Block)
    requires scopes != [] && scopes[|scopes| - 1] == map[] && ScopesFull(f, eff, opt, avail, m, scopes[..|scopes| - 1],
             path) && b < |f|
    ensures ScopesOK(f, eff, opt, avail, m, scopes, path + [b], 0)
  {
    hide EntryOK;
    var path', s := path + [b], scopes[..|scopes| - 1];
    forall i | 0 <= i < |path'| ensures ScopeOK(f, eff, opt, avail, m, scopes[i], path'[i], Limit(f, path', i, 0)) {
      if i < |path| {
        assert s[i] == scopes[i];
        assert ScopeOK(f, eff, opt, avail, m, s[i], path[i], Limit(f, path, i, LastSize(f, path)));
      }
    }
  }

  lemma ScopesFinish(f: Func, eff: (Op, seq<int>) -> int, opt: map<Value, Value>, avail: Avail, m: Meanings,
      scopes: seq<Scope>, path: seq<Block>, b: Block)
    requires b < |f| && ScopesOK(f, eff, opt, avail, m, scopes, path + [b], |f[b].insts|)
    ensures ScopesFull(f, eff, opt, avail, m, scopes, path + [b])
  {
  }

  lemma ScopesLeave(f: Func, eff: (Op, seq<int>) -> int, opt: map<Value, Value>, avail: Avail, m: Meanings,
      scopes: seq<Scope>, path: seq<Block>)
    requires path != [] && ScopesFull(f, eff, opt, avail, m, scopes, path)
    ensures |scopes| == |path| && ScopesFull(f, eff, opt, avail, m, scopes[..|scopes| - 1], path[..|path| - 1])
  {
    hide EntryOK;
    var path', s := path[..|path| - 1], scopes[..|scopes| - 1];
    forall i | 0 <= i < |path'| ensures ScopeOK(f, eff, opt, avail, m, s[i], path'[i],
        Limit(f, path', i, LastSize(f, path'))) {
      assert ScopeOK(f, eff, opt, avail, m, scopes[i], path[i], Limit(f, path, i, LastSize(f, path)));
    }
  }

  lemma ParamsMean(sem: (Op, seq<int>) -> int, eff: (Op, seq<int>) -> int, post: seq<Block>, f: Func, m0: Meanings,
      avail: Avail, m: Meanings, b: Block)
    requires FuncMeans(sem, eff, post, f, m0) && b in post && b < |f| && Grows(map[], m0, avail, m)
    ensures AllIn(f[b].params, m)
  {
  }

  lemma DefinedNone(b: Body)
    ensures Defined(b, 0) == AsSet(b.params)
  {
  }

  lemma BlockFinished(t: T.Tree, f: Func, dom: (Block, Block) -> bool, opt: map<Value, Value>, avail: Avail,
      done: set<Block>, b: Block)
    requires BlocksDone(t, f, dom, opt, avail, done) && b < |f|
             && Placed(dom, opt, avail, Defined(f[b], |f[b].insts|), b)
    requires forall n | 0 <= n < |f[b].insts| :: MergedOK(t, f, opt, b, n)
    ensures BlocksDone(t, f, dom, opt, avail, done + {b})
  {
    hide MergedOK, Placed;
  }

  lemma SeenFinished(f: Func, cls: Classes, done: set<Block>, b: Block, n0: nat)
    requires b < |f| && SeenOK(f, cls, done, b, |f[b].insts|, n0)
    ensures forall v | v in cls :: v >= n0 || InDone(f, done + {b}, v)
  {
    forall v | v in cls && v < n0 ensures InDone(f, done + {b}, v) {
      if InDone(f, done, v) {
        var c :| c in done && c < |f| && v in All(f[c]);
        assert c in done + {b};
      } else {
        assert v in All(f[b]) && b in done + {b};
      }
    }
  }

  lemma ProgramFacts(t: T.Tree, post: seq<Block>, f: Func, dom: (Block, Block) -> bool, entry: Block,
      sem: (Op, seq<int>) -> int, eff: (Op, seq<int>) -> int, n0: nat, m0: Meanings)
    requires Program(t, post, f, dom, entry, sem, eff, n0, m0)
    ensures D.Ordered(t, post) && post != [] && entry == post[|post| - 1]
  {
  }

  lemma NothingDone(t: T.Tree, f: Func, eff: (Op, seq<int>) -> int, dom: (Block, Block) -> bool,
      opt: map<Value, Value>, avail: Avail, m: Meanings, layout: Layout)
    ensures BlocksDone(t, f, dom, opt, avail, {}) && LaidAll(f, opt, layout, {})
            && ScopesFull(f, eff, opt, avail, m, [], []) && Grows(map[], m, avail, m)
  {
  }

  lemma KidsList(t: T.Tree, post: seq<Block>, children: Block -> seq<Block>, w: W.Walk, x: Block)
    requires W.ChildrenOK(t, post, children) && W.WalkOK(t, post, w) && W.Next(w, x)
    ensures W.KidsOK(t, post, x, children(x))
  {
    W.NextPending(w, x);
    W.PendingPost(t, post, w, x);
  }

  lemma VisitTop(t: T.Tree, post: seq<Block>, children: Block -> seq<Block>, w: W.Walk, x: Block)
    requires W.ChildrenOK(t, post, children) && W.WalkOK(t, post, w) && W.Next(w, x) && |w.pend| == |w.path| + 1
    ensures var w', s := W.Visited1(w, x, children(x)), W.Lay(w.path, w.pend);
            && W.WalkOK(t, post, w') && |w'.pend| == |w'.path| + 1
            && s != [] && W.Lay(w'.path, w'.pend) == s[..|s| - 1] + [W.Pop] + W.Visits(children(x))
            && |AsSet(post) - w'.done| < |AsSet(post) - w.done|
  {
    hide W.WalkOK, W.Lay, W.ChildrenOK, W.KidsOK, AsSet;
    KidsList(t, post, children, w, x);
    W.VisitStep(t, post, w, x, children(x));
    W.LayVisit(w, x, children(x));
    Remaining(post, w.done, x);
  }

  lemma PopTop(t: T.Tree, post: seq<Block>, w: W.Walk)
    requires W.WalkOK(t, post, w) && |w.pend| == |w.path| + 1 && W.Lay(w.path, w.pend) != []
             && W.Lay(w.path, w.pend)[|W.Lay(w.path, w.pend)| - 1].Pop?
    ensures w.path != [] && W.WalkOK(t, post, W.Popped(w)) && |W.Popped(w).pend| == |W.Popped(w).path| + 1
    ensures var s := W.Lay(w.path, w.pend); W.Lay(W.Popped(w).path, W.Popped(w).pend) == s[..|s| - 1]
  {
    hide W.WalkOK;
    W.LayTop(w);
    W.PopStep(t, post, w);
    W.LayPop(w);
  }

  lemma PoppedParts(w: W.Walk)
    requires w.path != [] && |w.pend| == |w.path| + 1
    ensures W.Popped(w).path == w.path[..|w.path| - 1] && W.Popped(w).done == w.done
  {
  }

  lemma Remaining(post: seq<Block>, done: set<Block>, x: Block)
    requires x in post && x !in done
    ensures |AsSet(post) - (done + {x})| < |AsSet(post) - done|
  {
    assert AsSet(post) - done == (AsSet(post) - (done + {x})) + {x};
  }

  lemma DoneAt(t: T.Tree, f: Func, dom: (Block, Block) -> bool, opt: map<Value, Value>, avail: Avail, done: set<Block>,
      b: Block)
    requires BlocksDone(t, f, dom, opt, avail, done) && b in done
    ensures BlockDone(t, f, dom, opt, avail, b)
  {
  }

  lemma OneResult(s: Stmt)
    ensures !s.Skeleton? ==> AsSet(Results(s)) == {s.result}
  {
  }

  lemma NotMerged(t: T.Tree, f: Func, opt: map<Value, Value>, b: Block, n: nat)
    requires b < |f| && n < |f[b].insts| && !f[b].insts[n].Mergeable?
    ensures MergedOK(t, f, opt, b, n)
  {
  }

  lemma PlacedSelf(dom: (Block, Block) -> bool, opt: map<Value, Value>, avail: Avail, vs: seq<Value>, b: Block)
    requires dom(b, b) && forall v | v in vs :: v in opt && opt[v] == v && v in avail && avail[v] == b
    ensures Placed(dom, opt, avail, AsSet(vs), b)
  {
  }

  lemma PlacedNext(f: Func, dom: (Block, Block) -> bool, opt: map<Value, Value>, avail: Avail, m: Meanings,
      opt': map<Value, Value>, avail': Avail, m': Meanings, b: Block, n: nat)
    requires b < |f| && n < |f[b].insts| && OptGrows(opt, opt') && Grows(avail, m, avail', m')
    requires Placed(dom, opt, avail, Defined(f[b], n), b) && Placed(dom, opt', avail', AsSet(Results(f[b].insts[n])), b)
    ensures Placed(dom, opt', avail', Defined(f[b], n + 1), b)
  {
  }

  lemma SeenNext(f: Func, cls: Classes, cls': Classes, done: set<Block>, b: Block, n: nat, n0: nat)
    requires b < |f| && n < |f[b].insts| && SeenOK(f, cls, done, b, n, n0)
    requires forall v | v in cls' :: v in cls || v in Results(f[b].insts[n]) || v >= n0
    ensures SeenOK(f, cls', done, b, n + 1, n0)
  {
    hide InDone;
  }

  /** An entry that is found was made by a kept instruction before this one, and is in no other scope. */
  lemma FoundEntry(f: Func, eff: (Op, seq<int>) -> int, opt: map<Value, Value>, avail: Avail, m: Meanings,
      scopes: seq<Scope>, path: seq<Block>, n: nat, k: nat, key: Key, result: Value) returns (j: nat)
    requires ScopesOK(f, eff, opt, avail, m, scopes, path, n) && k < |scopes| && key in scopes[k] && result !in opt
    ensures var v := scopes[k][key];
            && k < |path| && path[k] < |f| && j < Limit(f, path, k, n) && KeptAs(f, opt, key, v, path[k], j)
            && v in avail && avail[v] == path[k] && v in m && AllIn(key.args, m) && v != result
            && m[v] == eff(key.op, Means(m, key.args))
  {
    var v := scopes[k][key];
    assert ScopeOK(f, eff, opt, avail, m, scopes[k], path[k], Limit(f, path, k, n));
    j :| 0 <= j < Limit(f, path, k, n) && KeptAs(f, opt, key, v, path[k], j);
  }

  /** The instruction gets its replacement, and keeps its key. */
  lemma KnownNext(dom: (Block, Block) -> bool, opt: map<Value, Value>, avail: Avail, s: Stmt, b: Block, v: Value)
    requires Placed(dom, opt, avail, AsSet(s.args), b) && s.Mergeable? && s.result !in opt
    ensures var opt' := opt[s.result := v];
            && OptGrows(opt, opt') && Known(opt', s) && KeyOf(opt', s) == Key(s.op, Replaced(opt, s.args))
  {
    assert forall i | 0 <= i < |s.args| :: s.args[i] in AsSet(s.args);
  }

  /** What comes earlier is in a scope if it is kept. */
  lemma EarlierInScope(t: T.Tree, f: Func, eff: (Op, seq<int>) -> int, opt: map<Value, Value>, avail: Avail,
      m: Meanings, scopes: seq<Scope>, path: seq<Block>, b: Block, n: nat, h: Block, j: nat) returns (i: nat)
    requires ScopesOK(f, eff, opt, avail, m, scopes, path, n) && OnPath(t, path, b)
    requires h < |f| && j < |f[h].insts| && Earlier(t, h, j, b, n)
    ensures i < |scopes| && InScope(opt, scopes[i], f[h].insts[j])
  {
    hide InScope, EntryOK;
    i := |path| - 1;
    if h != b {
      i :| 0 <= i < |path| && path[i] == h;
    }
    assert ScopeOK(f, eff, opt, avail, m, scopes[i], path[i], Limit(f, path, i, n));
  }

  /** Whatever is kept earlier under the same key replaces the instruction, if the scopes say so. */
  lemma AllReplace(t: T.Tree, f: Func, eff: (Op, seq<int>) -> int, opt: map<Value, Value>, opt': map<Value, Value>,
      avail: Avail, m: Meanings, scopes: seq<Scope>, path: seq<Block>, b: Block, n: nat)
    requires ScopesOK(f, eff, opt, avail, m, scopes, path, n) && OnPath(t, path, b) && OptGrows(opt, opt')
    requires b < |f| && n < |f[b].insts| && f[b].insts[n].Mergeable? && f[b].insts[n].result in opt'
    requires var s := f[b].insts[n]; forall i | 0 <= i < |scopes| && KeyOf(opt', s) in scopes[i] ::
               scopes[i][KeyOf(opt', s)] == opt'[s.result] != s.result
    ensures forall h, j | 0 <= h < |f| && 0 <= j < |f[h].insts| && Earlier(t, h, j, b, n) ::
              Replaces(f, opt', h, j, f[b].insts[n])
  {
    hide ScopesOK, OnPath, Earlier, KeptAs, Known, Replaced;
    var s := f[b].insts[n];
    forall h, j | 0 <= h < |f| && 0 <= j < |f[h].insts| && Earlier(t, h, j, b, n) ensures Replaces(f, opt', h, j, s) {
      var i := EarlierInScope(t, f, eff, opt, avail, m, scopes, path, b, n, h, j);
      InScopeGrows(opt, opt', scopes[i], f[h].insts[j]);
      forall v | KeptAs(f, opt', KeyOf(opt', s), v, h, j) ensures opt'[s.result] == v != s.result {
        KeptParts(f, opt', KeyOf(opt', s), v, h, j);
      }
    }
  }

  lemma KeptParts(f: Func, opt: map<Value, Value>, key: Key, v: Value, h: Block, j: nat)
    requires KeptAs(f, opt, key, v, h, j)
    ensures KeptAt(f, opt, v, h, j) && KeyOf(opt, f[h].insts[j]) == key
  {
  }

  lemma ScopesApart(f: Func, eff: (Op, seq<int>) -> int, opt: map<Value, Value>, avail: Avail, m: Meanings,
      scopes: seq<Scope>, path: seq<Block>, n: nat, k: nat, key: Key)
    requires ScopesOK(f, eff, opt, avail, m, scopes, path, n) && k < |scopes| && key in scopes[k]
    ensures forall i | 0 <= i < |scopes| && key in scopes[i] :: i == k
  {
    hide ScopeOK;
  }

  /** A key that was found: the instruction is merged. */
  lemma MergedHere(t: T.Tree, f: Func, eff: (Op, seq<int>) -> int, opt: map<Value, Value>, opt': map<Value, Value>,
      avail: Avail, m: Meanings, scopes: seq<Scope>, path: seq<Block>, b: Block, n: nat, k: nat, j: nat)
    requires ScopesOK(f, eff, opt, avail, m, scopes, path, n) && OnPath(t, path, b) && OptGrows(opt, opt')
    requires b < |f| && n < |f[b].insts| && f[b].insts[n].Mergeable? && f[b].insts[n].result in opt'
             && Known(opt', f[b].insts[n])
    requires var s := f[b].insts[n];
             && k < |scopes| && |scopes| == |path| && KeyOf(opt', s) in scopes[k] && path[k] < |f|
             && scopes[k][KeyOf(opt', s)] == opt'[s.result] != s.result && j < Limit(f, path, k, n)
             && KeptAs(f, opt, KeyOf(opt', s), opt'[s.result], path[k], j)
    ensures MergedOK(t, f, opt', b, n)
  {
    hide ScopesOK, Replaces, Known, KeptAs, Replaced;
    var s := f[b].insts[n];
    var key := KeyOf(opt', s);
    ScopesApart(f, eff, opt, avail, m, scopes, path, n, k, key);
    AllReplace(t, f, eff, opt, opt', avail, m, scopes, path, b, n);
    KeptAsKnown(f, opt, key, opt'[s.result], path[k], j);
    KeptAsGrows(f, opt, opt', key, opt'[s.result], path[k], j);
    assert Earlier(t, path[k], j, b, n);
  }

  /** A key that is in no scope: the instruction is kept. */
  lemma KeptHere(t: T.Tree, f: Func, eff: (Op, seq<int>) -> int, opt: map<Value, Value>, opt': map<Value, Value>,
      avail: Avail, m: Meanings, scopes: seq<Scope>, path: seq<Block>, b: Block, n: nat)
    requires ScopesOK(f, eff, opt, avail, m, scopes, path, n) && OnPath(t, path, b) && OptGrows(opt, opt')
    requires b < |f| && n < |f[b].insts| && f[b].insts[n].Mergeable? && f[b].insts[n].result in opt'
             && Known(opt', f[b].insts[n])
    requires var s := f[b].insts[n];
             opt'[s.result] == s.result && forall i | 0 <= i < |scopes| :: KeyOf(opt', s) !in scopes[i]
    ensures MergedOK(t, f, opt', b, n)
  {
    hide ScopesOK, OnPath, Replaces, Known, KeptAs, Replaced, Earlier;
    AllReplace(t, f, eff, opt, opt', avail, m, scopes, path, b, n);
  }

  lemma NotInScope(opt: map<Value, Value>, scope: Scope, s: Stmt)
    requires Known(opt, s) && (s.Mergeable? ==> s.result in opt && opt[s.result] != s.result)
    ensures InScope(opt, scope, s)
  {
  }

  lemma PathEnd(t: T.Tree, path: seq<Block>, b: Block)
    requires OnPath(t, path, b)
    ensures path != [] && path[|path| - 1] == b
  {
  }

  /** An instruction that is not mergeable leaves the scopes alone. */
  lemma ScopesSkip(f: Func, eff: (Op, seq<int>) -> int, opt: map<Value, Value>, avail: Avail, m: Meanings,
      opt': map<Value, Value>, avail': Avail, m': Meanings, scopes: seq<Scope>, path: seq<Block>, b: Block, n: nat)
    requires ScopesOK(f, eff, opt, avail, m, scopes, path, n) && OptGrows(opt, opt') && Grows(avail, m, avail', m')
    requires path != [] && path[|path| - 1] == b && b < |f| && n < |f[b].insts| && !f[b].insts[n].Mergeable?
             && Known(opt', f[b].insts[n])
    ensures ScopesOK(f, eff, opt', avail', m', scopes, path, n + 1)
  {
    hide ScopesOK, Known;
    ScopesGrow(f, eff, opt, avail, m, opt', avail', m', scopes, path, n);
    ScopesSize(f, eff, opt, avail, m, scopes, path, n);
    ScopesNext(f, eff, opt', avail', m', scopes, path, b, n);
  }

  lemma ScopesSize(f: Func, eff: (Op, seq<int>) -> int, opt: map<Value, Value>, avail: Avail, m: Meanings,
      scopes: seq<Scope>, path: seq<Block>, n: nat)
    requires ScopesOK(f, eff, opt, avail, m, scopes, path, n)
    ensures |scopes| == |path|
  {
  }

  /** The instruction is entered under its key. */
  lemma ScopeInsert(f: Func, eff: (Op, seq<int>) -> int, opt: map<Value, Value>, avail: Avail, m: Meanings,
      scopes: seq<Scope>, path: seq<Block>, b: Block, n: nat, key: Key)
    requires ScopesOK(f, eff, opt, avail, m, scopes, path, n) && path != [] && path[|path| - 1] == b
             && |scopes| == |path|
    requires b < |f| && n < |f[b].insts| && f[b].insts[n].Mergeable? && Known(opt, f[b].insts[n])
    requires var s := f[b].insts[n];
             && s.result in opt && opt[s.result] == s.result && KeyOf(opt, s) == key
             && (forall i | 0 <= i < |scopes| :: key !in scopes[i]) && s.result in avail && avail[s.result] == b
             && s.result in m && AllIn(key.args, m) && m[s.result] == eff(key.op, Means(m, key.args))
    ensures ScopesOK(f, eff, opt, avail, m, Entered(scopes, key, f[b].insts[n].result), path, n + 1)
  {
    hide Known, Replaced;
    var s := f[b].insts[n];
    var scopes' := Entered(scopes, key, s.result);
    assert KeptAs(f, opt, key, s.result, b, n);
    assert EntryOK(f, eff, opt, avail, m, key, s.result, b, n + 1);
    forall i | 0 <= i < |path| ensures ScopeOK(f, eff, opt, avail, m, scopes'[i], path[i], Limit(f, path, i, n + 1)) {
      assert ScopeOK(f, eff, opt, avail, m, scopes[i], path[i], Limit(f, path, i, n));
      if i == |path| - 1 {
        ScopeAdd(f, eff, opt, avail, m, scopes[i], b, n, key, s.result);
      }
    }
  }

  lemma ScopeAdd(f: Func, eff: (Op, seq<int>) -> int, opt: map<Value, Value>, avail: Avail, m: Meanings,
      scope: Scope, b: Block, n: nat, key: Key, v: Value)
    requires ScopeOK(f, eff, opt, avail, m, scope, b, n) && key !in scope && n < |f[b].insts|
    requires EntryOK(f, eff, opt, avail, m, key, v, b, n + 1) && InScope(opt, map[key := v], f[b].insts[n])
    ensures ScopeOK(f, eff, opt, avail, m, scope[key := v], b, n + 1)
  {
    hide KeptAs, Known, Replaced;
    var scope' := scope[key := v];
    forall k | k in scope' ensures EntryOK(f, eff, opt, avail, m, k, scope'[k], b, n + 1) {
      if k != key {
        assert EntryOK(f, eff, opt, avail, m, k, scope[k], b, n);
      }
    }
    forall j | 0 <= j < n + 1 ensures InScope(opt, scope', f[b].insts[j]) {
      assert j < n ==> InScope(opt, scope, f[b].insts[j]);
    }
  }

  /** `path` leads down the tree to `b`, through all blocks over it. */
  ghost predicate OnPath(t: T.Tree, path: seq<Block>, b: Block) {
    && path != [] && path[|path| - 1] == b
    && (forall i | 0 <= i < |path| - 1 :: path[i] != b && D.Over(t, path[i], b))
    && forall h | D.Over(t, h, b) :: h in path
  }
}
