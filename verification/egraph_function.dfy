/** The e-graph pass on a function: the dominator tree and its index are those of the control flow graph, and what the
pass promises is stated for all paths through the graph. */
module EgraphFunction {
  import opened DomtreePaths
  import opened DomtreeTree
  import opened DomtreePass
  import opened Domtree
  import opened DomtreePreorder
  import D = DomtreeOrder
  import F = DomtreeDfs
  import V = EgraphValues
  import E = Egraph
  import P = EgraphPass
  import W = EgraphWalk
  import O = EgraphOrder

  // ----- the function and its graph -----

  /** Instruction `n` of a block is its point `n + 1`; only the last one branches. */
  ghost predicate BranchesLast(cfg: Cfg, f: P.Func) {
    |f| == |cfg.preds| && forall q, c | Jump(cfg, q, c) :: q.block < |f| && q.at == |f[q.block].insts|
  }

  ghost predicate DefPoint(f: P.Func, v: V.Value, d: Point) {
    d.block < |f| &&
    if d.at == 0 then v in f[d.block].params
    else d.at <= |f[d.block].insts| && v in P.Results(f[d.block].insts[d.at - 1])
  }

  /** Every path to `p` has passed `q` before. */
  ghost predicate Before(cfg: Cfg, q: Point, p: Point) {
    Dom(cfg, q, p) && q != p
  }

  /** The operand `a` is defined before instruction `n` of block `b` on every path there. */
  ghost predicate DefinedBefore(cfg: Cfg, f: P.Func, b: Block, n: nat, a: V.Value) {
    exists d :: DefPoint(f, a, d) && Before(cfg, d, Point(b, n + 1))
  }

  /** Definitions dominate uses. */
  ghost predicate Ssa(cfg: Cfg, f: P.Func) {
    P.Once(f) &&
    forall b, n, a | 0 <= b < |f| && Reachable(cfg, b) && 0 <= n < |f[b].insts| && a in f[b].insts[n].args ::
      DefinedBefore(cfg, f, b, n, a)
  }

  ghost predicate TreeOf(t: Tree, cfg: Cfg) {
    CfgOK(cfg) && Sound(t, cfg) && AllBelow(t, cfg) && forall b :: Visited(t, b) <==> Reachable(cfg, b)
  }

  // ----- from blocks to instructions -----

  /** An instruction of a block over `b` dominates all points of `b`. */
  lemma OverDominates(cfg: Cfg, f: P.Func, t: Tree, h: Block, j: nat, p: Point)
    requires TreeOf(t, cfg) && BranchesLast(cfg, f) && Reachable(cfg, p.block) && D.Over(t, h, p.block) && h != p.block
    requires h < |f| && j < |f[h].insts|
    ensures Dom(cfg, Point(h, j + 1), p)
  {
    hide TreeOf, Reachable;
    assert Dom(cfg, Point(h, 0), Point(p.block, 0)) by { HeaderDominates(cfg, t, h, p.block); }
    DomLater(cfg, Point(h, 0), p);
    forall s | Path(cfg, s, p) ensures Point(h, j + 1) in s {
      Leaves(cfg, s, p, h, |f[h].insts|, j + 1);
    }
  }

  lemma HeaderDominates(cfg: Cfg, t: Tree, h: Block, b: Block)
    requires TreeOf(t, cfg) && Reachable(cfg, b)
    ensures D.Over(t, h, b) <==> Dom(cfg, Point(h, 0), Point(b, 0))
  {
    AncIffDom(t, cfg, Point(h, 0), Point(b, 0));
  }

  /** What the pass takes to come earlier is passed on every path. */
  lemma EarlierDominates(cfg: Cfg, f: P.Func, t: Tree, h: Block, j: nat, b: Block, n: nat)
    requires TreeOf(t, cfg) && BranchesLast(cfg, f) && Reachable(cfg, b) && P.Earlier(t, h, j, b, n)
    requires h < |f| && j < |f[h].insts|
    ensures Before(cfg, Point(h, j + 1), Point(b, n + 1))
  {
    hide TreeOf, BranchesLast, Reachable, Dom;
    if h == b {
      DomEarlier(cfg, Point(h, j + 1), Point(b, n + 1));
    } else {
      OverDominates(cfg, f, t, h, j, Point(b, n + 1));
    }
  }

  // ----- from instructions to blocks -----

  /** What is on every path comes earlier, as the pass takes it. */
  lemma DominatesEarlier(cfg: Cfg, t: Tree, h: Block, j: nat, b: Block, n: nat)
    requires TreeOf(t, cfg) && Reachable(cfg, b) && Before(cfg, Point(h, j + 1), Point(b, n + 1))
    ensures P.Earlier(t, h, j, b, n)
  {
    hide TreeOf, Reachable, D.Over;
    var d, p := Point(h, j + 1), Point(b, n + 1);
    if h == b {
      SameBlock(cfg, t, d, p);
    } else {
      DomHeader(cfg, d, p);
      HeaderUp(cfg, d, Point(b, 0));
      HeaderDominates(cfg, t, h, b);
    }
  }

  lemma {:induction false} DefinedAt(b: P.Body, v: V.Value, k: nat, n: nat)
    requires k <= n <= |b.insts| && if k == 0 then v in b.params else v in P.Results(b.insts[k - 1])
    ensures v in P.Defined(b, n)
    decreases n
  {
    if k < n {
      DefinedAt(b, v, k, n - 1);
    }
  }

  /** Definitions that dominate uses are earlier in the block or in a block over it. */
  lemma UseOver(cfg: Cfg, f: P.Func, t: Tree, b: Block, n: nat, a: V.Value)
    requires TreeOf(t, cfg) && Reachable(cfg, b) && b < |f| && n < |f[b].insts| && DefinedBefore(cfg, f, b, n, a)
    ensures P.UseOK(t, f, b, n, a)
  {
    hide TreeOf, Reachable, P.Defined, D.Over;
    var p := Point(b, n + 1);
    var d :| DefPoint(f, a, d) && Before(cfg, d, p);
    if d.block == b {
      SameBlock(cfg, t, d, p);
      DefinedAt(f[b], a, d.at, n);
    } else {
      DomHeader(cfg, d, p);
      HeaderUp(cfg, d, Point(b, 0));
      HeaderDominates(cfg, t, d.block, b);
      DefinedAt(f[d.block], a, d.at, |f[d.block].insts|);
    }
  }

  lemma SameBlock(cfg: Cfg, t: Tree, d: Point, p: Point)
    requires TreeOf(t, cfg) && Reachable(cfg, p.block) && Dom(cfg, d, p) && d.block == p.block
    ensures d.at <= p.at
  {
    AncIffDom(t, cfg, d, p);
    AncSame(t, cfg.entry, d, p);
  }

  lemma HeaderUp(cfg: Cfg, d: Point, p: Point)
    requires Dom(cfg, d, p)
    ensures Dom(cfg, Point(d.block, 0), p)
  {
    forall s | Path(cfg, s, p) ensures Point(d.block, 0) in s {
      var i :| 0 <= i < |s| && s[i] == d;
      HeaderBefore(cfg, s, p, i);
    }
  }

  lemma {:induction false} HeaderBefore(cfg: Cfg, s: seq<Point>, p: Point, i: nat)
    requires Path(cfg, s, p) && i < |s|
    ensures Point(s[i].block, 0) in s
    decreases |s|
  {
    if i < |s| - 1 {
      HeaderBefore(cfg, s[..|s| - 1], s[|s| - 2], i);
    } else {
      var s' := Earlier(cfg, s, p.block, p.at, 0);
      assert s'[|s'| - 1] == Point(p.block, 0);
    }
  }

  // ----- the children of a block, in any order -----

  lemma {:induction false} UniqueCount(s: seq<Block>, x: Block)
    requires D.Unique(s)
    ensures multiset(s)[x] <= 1
    decreases |s|
  {
    if s != [] {
      assert s == s[..|s| - 1] + [s[|s| - 1]];
      UniqueCount(s[..|s| - 1], x);
      if x == s[|s| - 1] {
        assert x !in s[..|s| - 1];
      }
    }
  }

  lemma ShuffledUnique(s: seq<Block>, r: seq<Block>)
    requires D.Unique(s) && multiset(s) == multiset(r)
    ensures D.Unique(r) && forall x :: x in r <==> x in s
  {
    forall i, j | 0 <= i < j < |r| ensures r[i] != r[j] {
      UniqueCount(s, r[i]);
      assert r == r[..j] + [r[j]] + r[j + 1..];
      assert r[..j][i] == r[i];
    }
    forall x ensures x in r <==> x in s {
      assert x in r <==> x in multiset(r);
      assert x in s <==> x in multiset(s);
    }
  }

  function Listed(kids: seq<seq<Block>>): (Block -> seq<Block>) {
    (b: Block) => if b < |kids| then kids[b] else []
  }

  /** Shuffle the children of every block. */
  method AllChildren(index: DominatorTreePreorder, shuffle: seq<Block> -> seq<Block>, ghost t: Tree,
      ghost post: seq<Block>) returns (kids: seq<seq<Block>>)
    requires index.Valid(t, post) && (forall xs :: E.Permuted(xs, shuffle(xs))) && forall b | b in post :: b < |t|
    ensures W.ChildrenOK(t, post, Listed(kids))
  {
    hide DominatorTreePreorder.Valid, D.Unique, Rpo;
    kids := [];
    assert |index.nodes| == |t| by { IndexSize(index, t, post); }
    for b := 0 to |index.nodes|
      invariant |kids| == b
                && forall a | 0 <= a < b ::
                  D.Unique(kids[a]) && forall x :: x in kids[a] <==> x in post && W.Child(t, a, x)
    {
      var list := index.Children(b, t, post);
      RpoUnique(t, list);
      ShuffledUnique(list, shuffle(list));
      kids := kids + [shuffle(list)];
    }
  }

  lemma IndexSize(index: DominatorTreePreorder, t: Tree, post: seq<Block>)
    requires index.Valid(t, post)
    ensures |index.nodes| == |t|
  {
  }

  lemma RpoUnique(t: Tree, s: seq<Block>)
    requires forall i, j | 0 <= i < j < |s| :: Rpo(t, s[i]) < Rpo(t, s[j])
    ensures D.Unique(s)
  {
  }

  // ----- the pass -----

  /** The rules know nothing of dominance but that it is a tree order. */
  ghost predicate RulesSound(sem: (V.Op, seq<int>) -> int, rules: (V.Defs, V.Value) -> seq<V.Match>) {
    forall dom, entry | V.TreeOrder(dom, entry) :: V.RulesOK(dom, sem, rules)
  }

  /** What the values of reachable blocks mean. */
  ghost predicate Meaning(sem: (V.Op, seq<int>) -> int, eff: (V.Op, seq<int>) -> int, cfg: Cfg, f: P.Func,
      m: V.Meanings, n: nat) {
    && (forall b | 0 <= b < |f| && Reachable(cfg, b) :: V.AllIn(f[b].params, m))
    && (forall b, k | 0 <= b < |f| && Reachable(cfg, b) && 0 <= k < |f[b].insts| ::
        P.StmtMeans(sem, eff, m, f[b].insts[k]))
    && (forall b, v | 0 <= b < |f| && v in P.All(f[b]) :: v < n) && forall v | v in m :: v < n
  }

  lemma ProgramOf(cfg: Cfg, f: P.Func, domtree: DominatorTree, index: DominatorTreePreorder,
      sem: (V.Op, seq<int>) -> int, eff: (V.Op, seq<int>) -> int, n0: nat, m0: V.Meanings)
    requires domtree.Valid(cfg) && index.Valid(domtree.nodes, domtree.postorder) && cfg.entry < |cfg.preds|
    requires BranchesLast(cfg, f) && Ssa(cfg, f) && Meaning(sem, eff, cfg, f, m0, n0)
    ensures P.Program(domtree.nodes, domtree.postorder, f, O.Test(index.nodes), cfg.entry, sem, eff, n0, m0)
  {
    hide P.Once, Reachable, D.Over, Dom, O.Test, V.TreeOrder, P.StmtMeans, P.All, Indexed, D.Ordered;
    var t, post := domtree.nodes, domtree.postorder;
    TreeParts(cfg, domtree, index);
    O.TestTreeOrder(index.nodes, t, post);
    forall a, b | a in post && b in post ensures O.Test(index.nodes)(a, b) == D.Over(t, a, b) {
      O.TestIsOver(index.nodes, t, post, a, b);
    }
    forall b, n, a | b in post && b < |f| && 0 <= n < |f[b].insts| && a in f[b].insts[n].args
        ensures P.UseOK(t, f, b, n, a) {
      UseOver(cfg, f, t, b, n, a);
    }
  }

  lemma TreeParts(cfg: Cfg, domtree: DominatorTree, index: DominatorTreePreorder)
    requires domtree.Valid(cfg) && index.Valid(domtree.nodes, domtree.postorder) && cfg.entry < |cfg.preds|
    ensures var t, post := domtree.nodes, domtree.postorder;
            && TreeOf(t, cfg) && post != [] && D.Ordered(t, post) && post[|post| - 1] == cfg.entry && |t| == |cfg.preds|
            && Indexed(index.nodes, t, post) && (forall b :: b in post <==> Reachable(cfg, b))
            && forall b | b in post :: b < |t|
  {
    hide D.Ordered, Reachable, AllBelow, Numbered;
    var t, post := domtree.nodes, domtree.postorder;
    F.EntryReachable(cfg);
    assert cfg.entry in post;
    LastEntry(cfg, post);
    TreeOrdered(t, post, cfg);
    SoundSize(t, cfg);
    forall b | b in post ensures b < |t| {
      assert Visited(t, b);
    }
  }

  // ----- the result -----

  /** At block `b`, the value `v` of the original function is replaced by one that means the same and is available in a
  block on every path there. */
  ghost predicate ValueOK(cfg: Cfg, opt: map<V.Value, V.Value>, avail: V.Avail, m0: V.Meanings, m: V.Meanings,
      v: V.Value, b: Block) {
    && v in opt && opt[v] in avail && Dom(cfg, Point(avail[opt[v]], 0), Point(b, 0))
    && v in m0 && opt[v] in m && m[opt[v]] == m0[v]
  }

  /** A mergeable instruction is replaced by the kept one of the same operation and operands that is on every path to
  it, and is kept if there is none. */
  ghost predicate MergeOK(cfg: Cfg, f: P.Func, opt: map<V.Value, V.Value>, b: Block, n: nat)
    requires b < |f| && n < |f[b].insts|
  {
    var s, p := f[b].insts[n], Point(b, n + 1);
    s.Mergeable? ==>
      && s.result in opt
      && (opt[s.result] == s.result
          || exists h: Block, j: nat ::
               P.KeptAs(f, opt, P.KeyOf(opt, s), opt[s.result], h, j) && Before(cfg, Point(h, j + 1), p))
      && forall h: Block, j: nat, v: V.Value |
             P.KeptAs(f, opt, P.KeyOf(opt, s), v, h, j) && Before(cfg, Point(h, j + 1), p) ::
             opt[s.result] == v != s.result
  }

  /** What is true of a block after the pass: its values, its merged instructions, the operands of all instructions, and
  what is left in the layout. */
  ghost predicate BlockOK(cfg: Cfg, f: P.Func, opt: map<V.Value, V.Value>, avail: V.Avail, m0: V.Meanings,
      m: V.Meanings, layout: P.Layout, b: Block) {
    && b < |f| && (forall v | v in P.All(f[b]) :: ValueOK(cfg, opt, avail, m0, m, v, b))
    && (forall n | 0 <= n < |f[b].insts| :: MergeOK(cfg, f, opt, b, n))
    && (forall n, a | 0 <= n < |f[b].insts| && a in f[b].insts[n].args :: ValueOK(cfg, opt, avail, m0, m, a, b))
    && P.Laid(f, opt, layout, b, |f[b].insts|)
  }

  lemma MergeFrom(cfg: Cfg, f: P.Func, t: Tree, opt: map<V.Value, V.Value>, b: Block, n: nat)
    requires TreeOf(t, cfg) && BranchesLast(cfg, f) && Reachable(cfg, b) && b < |f| && n < |f[b].insts|
             && P.MergedOK(t, f, opt, b, n)
    ensures MergeOK(cfg, f, opt, b, n)
  {
    hide TreeOf, BranchesLast, Reachable, Dom, P.Earlier, P.KeptAs, P.Known, P.Replaced;
    var s := f[b].insts[n];
    if s.Mergeable? {
      if opt[s.result] != s.result {
        var h, j :| P.KeptAs(f, opt, P.KeyOf(opt, s), opt[s.result], h, j) && P.Earlier(t, h, j, b, n);
        P.KeptAsKnown(f, opt, P.KeyOf(opt, s), opt[s.result], h, j);
        EarlierDominates(cfg, f, t, h, j, b, n);
      }
      forall h: Block, j: nat, v: V.Value |
        P.KeptAs(f, opt, P.KeyOf(opt, s), v, h, j) && Before(cfg, Point(h, j + 1), Point(b, n + 1))
        ensures opt[s.result] == v != s.result
      {
        P.KeptAsKnown(f, opt, P.KeyOf(opt, s), v, h, j);
        DominatesEarlier(cfg, t, h, j, b, n);
        assert P.Replaces(f, opt, h, j, s);
      }
    }
  }

  /** The interval test from a reachable block on is dominance. */
  lemma TestDominates(cfg: Cfg, t: Tree, post: seq<Block>, e: Extra, a: Block, b: Block)
    requires TreeOf(t, cfg) && Indexed(e, t, post) && (forall b :: b in post <==> Reachable(cfg, b))
             && Reachable(cfg, b) && O.Test(e)(a, b)
    ensures Dom(cfg, Point(a, 0), Point(b, 0))
  {
    hide TreeOf, Indexed, Reachable, Dom, D.Over;
    NumberReachable(e, t, post, a);
    NumberReachable(e, t, post, b);
    O.TestIsOver(e, t, post, a, b);
    HeaderDominates(cfg, t, a, b);
  }

  lemma {:induction false} DefinedMeans(sem: (V.Op, seq<int>) -> int, eff: (V.Op, seq<int>) -> int, cfg: Cfg,
      f: P.Func, m: V.Meanings, n0: nat, b: Block, n: nat, v: V.Value)
    requires Meaning(sem, eff, cfg, f, m, n0) && b < |f| && Reachable(cfg, b) && n <= |f[b].insts|
             && v in P.Defined(f[b], n)
    ensures v in m
    decreases n
  {
    if n == 0 {
      var i :| 0 <= i < |f[b].params| && f[b].params[i] == v;
    } else if v in P.Defined(f[b], n - 1) {
      DefinedMeans(sem, eff, cfg, f, m, n0, b, n - 1, v);
    } else {
      assert P.StmtMeans(sem, eff, m, f[b].insts[n - 1]);
      var i :| 0 <= i < |P.Results(f[b].insts[n - 1])| && P.Results(f[b].insts[n - 1])[i] == v;
    }
  }

  lemma ValueFrom(cfg: Cfg, t: Tree, post: seq<Block>, e: Extra, opt: map<V.Value, V.Value>, avail: V.Avail,
      m0: V.Meanings, m: V.Meanings, v: V.Value, b: Block)
    requires TreeOf(t, cfg) && Indexed(e, t, post) && (forall b :: b in post <==> Reachable(cfg, b))
             && Reachable(cfg, b)
    requires P.Preserved(m0, opt, m) && v in m0 && P.Placed(O.Test(e), opt, avail, {v}, b)
    ensures ValueOK(cfg, opt, avail, m0, m, v, b)
  {
    hide TreeOf, Indexed, Reachable, Dom, O.Test;
    TestDominates(cfg, t, post, e, avail[opt[v]], b);
  }

  /** Compute the index of the dominator tree and run the pass over the function. */
  method Optimize(f: P.Func, cfg: Cfg, domtree: DominatorTree, sem: (V.Op, seq<int>) -> int,
      rules: (V.Defs, V.Value) -> seq<V.Match>,
      hash: (V.Op, seq<V.Value>) -> nat, shuffle: seq<nat> -> seq<nat>, numValues: nat,
      ghost meaning: V.Meanings, ghost eff: (V.Op, seq<int>) -> int)
    returns (ctx: E.OptimizeCtx, layout: P.Layout)
    requires domtree.Valid(cfg) && cfg.entry < |cfg.preds| && BranchesLast(cfg, f) && Ssa(cfg, f)
    requires RulesSound(sem, rules) && (forall xs :: E.Permuted(xs, shuffle(xs)))
             && Meaning(sem, eff, cfg, f, meaning, numValues)
    ensures forall b | Reachable(cfg, b) :: BlockOK(cfg, f, ctx.valueToOptValue, ctx.availableBlock, meaning,
            ctx.meaning, layout, b)
  {
    hide DominatorTree.Valid, DominatorTreePreorder.Valid, E.OptimizeCtx.Valid, BranchesLast, Ssa, P.Program,
        W.ChildrenOK, Reachable,
      P.BlockDone, P.Laid, P.LeftOK, P.Preserved, TreeOf, Indexed, D.Ordered, BlockOK, V.RulesOK, O.Test;
    var index := new DominatorTreePreorder();
    index.Compute(domtree, cfg);
    ghost var t, post := domtree.nodes, domtree.postorder;
    TreeParts(cfg, domtree, index);
    var kids := AllChildren(index, shuffle, t, post);
    ProgramOf(cfg, f, domtree, index, sem, eff, numValues, meaning);
    O.TestTreeOrder(index.nodes, t, post);
    ctx := new E.OptimizeCtx(O.Test(index.nodes), cfg.entry, sem, rules, hash, shuffle, numValues, meaning);
    var pass := new P.Pass(f, ctx, Listed(kids), t, post, eff);
    pass.RemovePureAndOptimize();
    layout := pass.layout;
    forall b | Reachable(cfg, b) ensures BlockOK(cfg, f, ctx.valueToOptValue, ctx.availableBlock, meaning, ctx.meaning,
        layout, b) {
      BlockFrom(cfg, f, t, post, index.nodes, sem, eff, numValues, ctx.valueToOptValue, ctx.availableBlock, meaning,
          ctx.meaning, layout, b);
    }
  }

  lemma BlockFrom(cfg: Cfg, f: P.Func, t: Tree, post: seq<Block>, e: Extra, sem: (V.Op, seq<int>) -> int,
      eff: (V.Op, seq<int>) -> int, n0: nat,
      opt: map<V.Value, V.Value>, avail: V.Avail, m0: V.Meanings, m: V.Meanings, layout: P.Layout, b: Block)
    requires TreeOf(t, cfg) && Indexed(e, t, post) && (forall b :: b in post <==> Reachable(cfg, b))
             && Reachable(cfg, b) && BranchesLast(cfg, f)
    requires Meaning(sem, eff, cfg, f, m0, n0) && P.Preserved(m0, opt, m) && P.BlockDone(t, f, O.Test(e), opt, avail, b)
    requires b < |f| && P.Laid(f, opt, layout, b, |f[b].insts|)
    requires forall n | 0 <= n < |f[b].insts| :: P.LeftOK(O.Test(e), opt, avail, m0, m, f[b].insts[n], b)
    ensures BlockOK(cfg, f, opt, avail, m0, m, layout, b)
  {
    hide TreeOf, Indexed, Reachable, Dom, O.Test, BranchesLast, P.MergedOK, Meaning, P.Laid, P.Preserved, ValueOK,
        MergeOK, P.LeftOK, P.Defined;
    forall v | v in P.All(f[b]) ensures ValueOK(cfg, opt, avail, m0, m, v, b) {
      DefinedMeans(sem, eff, cfg, f, m0, n0, b, |f[b].insts|, v);
      ValueFrom(cfg, t, post, e, opt, avail, m0, m, v, b);
    }
    forall n | 0 <= n < |f[b].insts| ensures MergeOK(cfg, f, opt, b, n) {
      MergeFrom(cfg, f, t, opt, b, n);
    }
    forall n, a | 0 <= n < |f[b].insts| && a in f[b].insts[n].args ensures ValueOK(cfg, opt, avail, m0, m, a, b) {
      OperandPlaced(O.Test(e), opt, avail, m0, m, f[b].insts[n], b, a);
      ValueFrom(cfg, t, post, e, opt, avail, m0, m, a, b);
    }
  }

  lemma OperandPlaced(dom: (Block, Block) -> bool, opt: map<V.Value, V.Value>, avail: V.Avail, m0: V.Meanings,
      m: V.Meanings, s: P.Stmt, b: Block, a: V.Value)
    requires P.LeftOK(dom, opt, avail, m0, m, s, b) && a in s.args
    ensures a in m0 && P.Placed(dom, opt, avail, {a}, b)
  {
    var i :| 0 <= i < |s.args| && s.args[i] == a;
    assert P.Replaced(opt, s.args)[i] == opt[a];
  }
}
