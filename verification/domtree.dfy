/** The dominator tree of a function and the queries on it. */
module Domtree {
  import opened Options
  import opened DomtreePaths
  import opened DomtreeTree
  import opened DomtreePass
  import D = DomtreeDfs
  import R = DomtreeVisit

  class DominatorTree {
    var nodes: Tree
    var postorder: seq<Block>
    const dfs: D.Dfs

    /** The tree is that of `cfg`. */
    ghost predicate Valid(cfg: Cfg)
      reads this
    {
      && CfgOK(cfg) && PostOrder(cfg, postorder) && Numbered(nodes, postorder, 0)
      && Sound(nodes, cfg) && AllBelow(nodes, cfg) && (forall b :: Visited(nodes, b) <==> Reachable(cfg, b))
    }

    constructor ()
      ensures nodes == [] && postorder == [] && fresh(dfs)
    {
      nodes, postorder := [], [];
      dfs := new D.Dfs();
    }

    /** Does every path from the entry to `b` go through `a`? */
    method Dominates(a: Point, b: Point, ghost cfg: Cfg) returns (r: bool)
      requires Valid(cfg)
      ensures Reachable(cfg, b.block) ==> (r <==> Dom(cfg, a, b))
      ensures !Reachable(cfg, b.block) ==> (r <==> a.block == b.block && a.at <= b.at)
    {
      r := Walks(a, b, cfg.entry);
      AncIffDom(nodes, cfg, a, b);
      if !Reachable(cfg, b.block) && b.block < |nodes| {
        assert NodeOK(nodes, cfg.entry, b.block);
      }
    }

    /** Is `a` on the way from `b` up the tree? */
    method Walks(a: Point, b: Point, ghost entry: Block) returns (r: bool)
      requires Shape(nodes, entry)
      ensures r <==> Anc(nodes, a, b)
    {
      if a.at == 0 && a == b {
        return true;
      }
      var last := LastDominator(a.block, b, entry);
      if a.at == 0 {
        r := last.Some?;
      } else {
        r := last.Some? && a.at <= last.value.at;
      }
    }

    /** The last instruction of block `a` that dominates `b`. */
    method LastDominator(a: Block, b: Point, ghost entry: Block) returns (r: Option<Point>)
      requires Shape(nodes, entry)
      ensures r.Some? ==> r.value.block == a && r.value.at > 0 && forall x: Point | x.block == a ::
              Anc(nodes, x, b) <==> x.at <= r.value.at
      ensures r.None? ==> forall x: Point | x.block == a && Anc(nodes, x, b) :: x == b && b.at == 0
    {
      var p := b;
      var rpoA := if a < |nodes| then nodes[a].rpo else 0;
      while p.block < |nodes| && rpoA < nodes[p.block].rpo
        invariant forall x: Point | x.block == a :: Anc(nodes, x, b) <==> Anc(nodes, x, p)
        invariant p == b || p.at > 0
        decreases Rpo(nodes, p.block)
      {
        assert NodeOK(nodes, entry, p.block);
        match nodes[p.block].idom {
          case None => return None;
          case Some(d) => p := d;
        }
      }
      forall x: Point | x.block == a && Anc(nodes, x, p) ensures a == p.block && x.at <= p.at {
        AncRpo(nodes, entry, x, p);
        if a == p.block {
          AncSame(nodes, entry, x, p);
        }
      }
      if a == p.block && p.at > 0 {
        return Some(p);
      }
      return None;
    }

    /** The nearest common dominator of two branches of visited blocks. */
    method CommonDominator(a: Point, b: Point, ghost entry: Block) returns (c: Point)
      requires Shape(nodes, entry) && a.at > 0 && b.at > 0 && Visited(nodes, a.block) && Visited(nodes, b.block)
      requires entry < |nodes| && forall x | 0 <= x < |nodes| && nodes[x].rpo > 0 :: nodes[entry].rpo <= nodes[x].rpo
      ensures Nearest(nodes, c, a, b) && c.at > 0 && Visited(nodes, c.block)
    {
      var a', b' := a, b;
      while nodes[a'.block].rpo != nodes[b'.block].rpo
        invariant Visited(nodes, a'.block) && Visited(nodes, b'.block) && a'.at > 0 && b'.at > 0
        invariant forall x | Nearest(nodes, x, a', b') :: Nearest(nodes, x, a, b)
        decreases nodes[a'.block].rpo + nodes[b'.block].rpo
      {
        assert NodeOK(nodes, entry, a'.block) && NodeOK(nodes, entry, b'.block);
        if nodes[a'.block].rpo < nodes[b'.block].rpo {
          var idom := nodes[b'.block].idom.value;
          forall x | Nearest(nodes, x, a', idom) ensures Nearest(nodes, x, a', b') {
            NearestUp(nodes, entry, a', b', x);
          }
          b' := idom;
        } else {
          var idom := nodes[a'.block].idom.value;
          forall x | Nearest(nodes, x, idom, b') ensures Nearest(nodes, x, a', b') {
            NearestSwap(nodes, idom, b', x);
            NearestUp(nodes, entry, b', a', x);
            NearestSwap(nodes, b', a', x);
          }
          a' := idom;
        }
        assert NodeOK(nodes, entry, a'.block) && NodeOK(nodes, entry, b'.block);
      }
      if a'.at < b'.at {
        NearestSame(nodes, entry, a', b');
        c := a';
      } else {
        NearestSame(nodes, entry, b', a');
        c := b';
      }
    }

    /** The immediate dominator of `block`, from the immediate dominators known of the visited blocks. */
    method ComputeIdom(block: Block, cfg: Cfg, ghost number: nat) returns (d: Point)
      requires CfgOK(cfg) && Shape(nodes, cfg.entry) && |nodes| == |cfg.preds| && block < |nodes|
               && HasForward(nodes, cfg, block, number)
      requires cfg.entry < |nodes| && forall x | 0 <= x < |nodes| && nodes[x].rpo > 0 ::
               nodes[cfg.entry].rpo <= nodes[x].rpo
      ensures Meet(nodes, d, cfg.preds[block]) && d.at > 0 && Visited(nodes, d.block)
    {
      hide Meet;
      var preds := cfg.preds[block];
      var i := 0;
      ghost var q :| Jump(cfg, q, block) && Visited(nodes, q.block);
      ghost var k :| 0 <= k < |preds| && preds[k] == q;
      while !Visited(nodes, preds[i].block)
        invariant 0 <= i <= k && forall j | 0 <= j < i :: !Visited(nodes, preds[j].block)
        decreases k - i
      {
        i := i + 1;
      }
      d := preds[i];
      assert BranchOK(cfg, cfg.preds[block][i]);
      MeetOne(nodes, preds[..i], d);
      assert preds[..i] + [d] == preds[..i + 1];
      i := i + 1;
      while i < |preds|
        invariant i <= |preds| && Meet(nodes, d, preds[..i]) && d.at > 0 && Visited(nodes, d.block)
      {
        assert BranchOK(cfg, cfg.preds[block][i]) && preds[..i] + [preds[i]] == preds[..i + 1];
        if Visited(nodes, preds[i].block) {
          var c := CommonDominator(d, preds[i], cfg.entry);
          MeetStep(nodes, d, preds[..i], preds[i], c);
          d := c;
        } else {
          MeetSkip(nodes, d, preds[..i], preds[i]);
        }
        i := i + 1;
      }
      assert preds[..|preds|] == preds;
    }

    /** Number the blocks in reverse post-order and give each the first estimate of its immediate dominator. */
    method FirstPass(cfg: Cfg)
      requires CfgOK(cfg) && PostOrder(cfg, postorder) && postorder != [] && nodes ==
               seq(|cfg.preds|, i => DomNode(0, None))
      modifies this`nodes
      ensures Settling(cfg)
    {
      hide Dom, Below, Tight, Anc, AllCover, AllSettled, Reachable, PostOrder, Numbered, HasForward, Shape, CfgOK;
      var n := |postorder|;
      PostOrderInside(cfg, postorder);
      nodes := nodes[postorder[n - 1] := nodes[postorder[n - 1]].(rpo := 2 * STRIDE)];
      FirstBlock(nodes, cfg, postorder);
      var i := n - 1;
      while i > 0
        invariant 0 <= i < n && Numbered(nodes, postorder, i) && Sound(nodes, cfg)
                  && AllSettled(nodes, cfg, Number(n, i) + STRIDE)
      {
        i := i - 1;
        var block := postorder[i];
        AllRange(nodes, postorder, i + 1);
        PostOrderEntry(cfg, postorder, i);
        ForwardPred(nodes, cfg, postorder, i, i + 1);
        var d := ComputeIdom(block, cfg, Number(n, i));
        ghost var t := nodes;
        nodes := nodes[block := DomNode((n - 2 - i + 3) * STRIDE, Some(d))];
        NumberStep(t, nodes, cfg, postorder, i, d);
        FirstStep(t, nodes, cfg, block, d, Number(n, i), Number(n, i) + STRIDE);
      }
    }

    /** Every block has its number and an estimate of its immediate dominator. */
    ghost predicate Settling(cfg: Cfg)
      reads this
    {
      && CfgOK(cfg) && PostOrder(cfg, postorder) && postorder != [] && Numbered(nodes, postorder, 0)
      && Sound(nodes, cfg) && AllSettled(nodes, cfg, Number(|postorder|, 0) + STRIDE)
    }

    /** Recompute all immediate dominators once. If any changes, the sum of their numbers falls, or stays
    and the sum of their places in their blocks falls; if none does, they are what they should be. */
    method Pass(cfg: Cfg) returns (changed: bool)
      requires Settling(cfg)
      modifies this`nodes
      ensures Settling(cfg)
      ensures changed ==> Falls(old(nodes), nodes)
      ensures !changed ==> nodes == old(nodes) && AllBelow(nodes, cfg)
    {
      hide Dom, Meet, InPass, Sound, AllBelow, BelowUpTo, AllSettled, PostOrder, Numbered, HasForward, Shape, CfgOK,
          Falls;
      changed := false;
      var n := |postorder|;
      ghost var t0 := nodes;
      AllRange(nodes, postorder, 0);
      SoundSize(nodes, cfg);
      PassStart(cfg, t0, Number(n, 0) + STRIDE, Number(n, n - 1) + STRIDE);
      OnlyEntry(t0, cfg, postorder);
      var i := n - 1;
      while i > 0
        invariant 0 <= i < n && Numbered(nodes, postorder, 0) && InPass(cfg, t0, nodes, Number(n, i) + STRIDE)
        invariant if changed then Falls(t0, nodes) else nodes == t0 && BelowUpTo(nodes, cfg, Number(n, i) + STRIDE)
      {
        i := i - 1;
        var block := postorder[i];
        InPassFacts(cfg, t0, nodes, postorder, Number(n, i));
        ForwardPred(nodes, cfg, postorder, i, 0);
        var d := ComputeIdom(block, cfg, Number(n, i));
        ghost var t := nodes;
        PassRound(cfg, t0, t, postorder, i, d);
        if nodes[block].idom != Some(d) {
          nodes := nodes[block := nodes[block].(idom := Some(d))];
          changed := true;
          FallsTrans(t0, t, nodes);
        }
      }
      PassEnd(cfg, t0, nodes, postorder);
    }

    /** Build the tree with Cooper's algorithm. */
    method ComputeDomtree(cfg: Cfg)
      requires CfgOK(cfg) && PostOrder(cfg, postorder) && nodes == seq(|cfg.preds|, i => DomNode(0, None))
      modifies this`nodes
      ensures Valid(cfg)
    {
      hide Dom, Below, Anc, AllCover, AllSettled, Reachable, Path;
      if |postorder| == 0 {
        NoBlocks(nodes, cfg);
        return;
      }
      FirstPass(cfg);
      var changed := true;
      while changed
        invariant Settling(cfg) && (!changed ==> AllBelow(nodes, cfg))
        decreases RpoSum(nodes, |nodes|), AtSum(nodes, |nodes|), changed
      {
        changed := Pass(cfg);
      }
      VisitedReachable(nodes, cfg, postorder);
    }

    /** Forget everything and list the reachable blocks. */
    method ComputePostorder(cfg: Cfg, succs: seq<seq<Block>>)
      requires D.SuccsOK(cfg, succs)
      modifies this, dfs
      ensures PostOrder(cfg, postorder) && nodes == seq(|cfg.preds|, i => DomNode(0, None))
      ensures R.DepthFirst(succs, postorder)
      ensures postorder == if cfg.entry < |succs| then R.Visit(succs, cfg.entry, {}).1 else []
    {
      hide PostOrder, R.Visit, R.DepthFirst;
      nodes := seq(|cfg.preds|, i => DomNode(0, None));
      var post := dfs.PostOrderIter(succs, cfg);
      postorder := post;
    }

    /** Compute the tree of `cfg`, whatever the state before. */
    method Compute(cfg: Cfg, succs: seq<seq<Block>>)
      requires CfgOK(cfg) && D.SuccsOK(cfg, succs)
      modifies this, dfs
      ensures Valid(cfg)
      ensures R.DepthFirst(succs, postorder)
      ensures postorder == if cfg.entry < |succs| then R.Visit(succs, cfg.entry, {}).1 else []
    {
      hide D.SuccsOK, R.Visit, R.DepthFirst, PostOrder, CfgOK, Valid;
      ComputePostorder(cfg, succs);
      ComputeDomtree(cfg);
    }
  }

  ghost predicate BelowUpTo(t: Tree, cfg: Cfg, r: nat) {
    |t| == |cfg.preds| && forall b | 0 <= b < |t| && t[b].idom.Some? && t[b].rpo < r ::
        Below(t, t[b].idom.value, cfg.preds[b])
  }

  lemma AllRange(t: Tree, post: seq<Block>, k: nat)
    requires Numbered(t, post, k) && k < |post|
    ensures forall b | 0 <= b < |t| ::
              t[b].rpo == 0 || 2 * STRIDE == t[post[|post| - 1]].rpo <= t[b].rpo <= Number(|post|, k)
    ensures forall b | 0 <= b < |t| :: t[b].rpo % STRIDE == 0
  {
    forall b | 0 <= b < |t|
      ensures t[b].rpo == 0 || 2 * STRIDE == t[post[|post| - 1]].rpo <= t[b].rpo <= Number(|post|, k)
      ensures t[b].rpo % STRIDE == 0
    {
      NumberedRange(t, post, k, b);
    }
  }

  lemma PostOrderInside(cfg: Cfg, post: seq<Block>)
    requires CfgOK(cfg) && PostOrder(cfg, post)
    ensures forall i | 0 <= i < |post| :: post[i] < |cfg.preds|
  {
    forall i | 0 <= i < |post| ensures post[i] < |cfg.preds| {
      assert post[i] in post;
      var s :| Path(cfg, s, Point(post[i], 0));
      PathInside(cfg, s, Point(post[i], 0));
    }
  }

  lemma SoundSize(t: Tree, cfg: Cfg)
    requires Sound(t, cfg)
    ensures |t| == |cfg.preds|
  {
  }

  lemma InPassFacts(cfg: Cfg, t0: Tree, t: Tree, post: seq<Block>, r: nat)
    requires InPass(cfg, t0, t, r) && PostOrder(cfg, post) && post != [] && Numbered(t, post, 0)
    ensures Shape(t, cfg.entry) && |t| == |cfg.preds| && (forall i | 0 <= i < |post| :: post[i] < |t|)
    ensures cfg.entry < |t| && forall x | 0 <= x < |t| && t[x].rpo > 0 :: t[cfg.entry].rpo <= t[x].rpo
  {
    hide Reachable;
    AllRange(t, post, 0);
  }

  /** What one round of a pass does to the tree. */
  lemma PassRound(cfg: Cfg, t0: Tree, t: Tree, post: seq<Block>, i: nat, d: Point)
    requires PostOrder(cfg, post) && i + 1 < |post| && Numbered(t, post, 0) && InPass(cfg, t0, t, Number(|post|, i))
    requires post[i] < |t| == |cfg.preds| && Meet(t, d, cfg.preds[post[i]]) && d.at > 0
    ensures var c, r := post[i], Number(|post|, i);
            var t' := t[c := t[c].(idom := Some(d))];
            && Numbered(t', post, 0) && InPass(cfg, t0, t', r + STRIDE)
            && if t[c].idom == Some(d) then t' == t && (BelowUpTo(t, cfg, r) ==> BelowUpTo(t, cfg, r + STRIDE))
                else Falls(t, t')
  {
    hide Dom, Below, Tight, Anc, AllCover, AllSettled, Reachable, Falls, PostOrder, Numbered;
    var c, r := post[i], Number(|post|, i);
    RoundRange(t, post, i);
    PostOrderEntry(cfg, post, i);
    ForwardPred(t, cfg, post, i, 0);
    assert NodeOK(t, cfg.entry, c);
    var t' := t[c := t[c].(idom := Some(d))];
    NumberedSame(t, t', post);
    PassStep(cfg, t0, t, t', c, d, r + STRIDE);
    if t[c].idom == Some(d) {
      assert t' == t;
    } else {
      Rises(cfg, t0, t, c, d);
      MoveFalls(cfg, t, t', c, d);
    }
  }

  lemma RoundRange(t: Tree, post: seq<Block>, i: nat)
    requires Numbered(t, post, 0) && i < |post|
    ensures post[i] < |t| && t[post[i]].rpo == Number(|post|, i) && post[|post| - 1] < |t|
    ensures forall b | 0 <= b < |t| && t[b].rpo < Number(|post|, i) + STRIDE :: t[b].rpo <= Number(|post|, i)
  {
    AllRange(t, post, 0);
  }

  lemma NumberedSame(t: Tree, t': Tree, post: seq<Block>)
    requires Numbered(t, post, 0) && |t'| == |t| && forall b | 0 <= b < |t| :: t'[b].rpo == t[b].rpo
    ensures Numbered(t', post, 0)
  {
  }

  lemma PassEnd(cfg: Cfg, t0: Tree, t: Tree, post: seq<Block>)
    requires post != [] && Numbered(t, post, 0) && InPass(cfg, t0, t, Number(|post|, 0) + STRIDE)
    ensures Sound(t, cfg) && AllSettled(t, cfg, Number(|post|, 0) + STRIDE)
    ensures BelowUpTo(t, cfg, Number(|post|, 0) + STRIDE) ==> AllBelow(t, cfg)
  {
    hide Below;
    AllRange(t, post, 0);
  }

  lemma PostOrderEntry(cfg: Cfg, post: seq<Block>, i: nat)
    requires PostOrder(cfg, post) && i + 1 < |post|
    ensures cfg.entry == post[|post| - 1] != post[i]
  {
  }

  /** Only the entry has the number of the entry. */
  lemma OnlyEntry(t: Tree, cfg: Cfg, post: seq<Block>)
    requires PostOrder(cfg, post) && post != [] && Numbered(t, post, 0) && Sound(t, cfg)
    ensures BelowUpTo(t, cfg, 3 * STRIDE)
  {
    hide Below, AllCover, PostOrder;
    assert cfg.entry == post[|post| - 1] by { assert PostOrder(cfg, post); LastEntry(cfg, post); }
    forall b | 0 <= b < |t| && t[b].idom.Some? ensures t[b].rpo >= 3 * STRIDE {
      assert NodeOK(t, cfg.entry, b);
      NumberedRange(t, post, 0, b);
    }
  }

  lemma LastEntry(cfg: Cfg, post: seq<Block>)
    requires PostOrder(cfg, post) && post != []
    ensures cfg.entry == post[|post| - 1]
  {
  }

  lemma NumberStep(t: Tree, t': Tree, cfg: Cfg, post: seq<Block>, i: nat, d: Point)
    requires PostOrder(cfg, post) && i + 1 < |post| && Numbered(t, post, i + 1) && t' ==
             t[post[i] := DomNode(Number(|post|, i), Some(d))]
    ensures t[post[i]].rpo == 0 && Numbered(t', post, i)
  {
  }

  lemma FirstBlock(t: Tree, cfg: Cfg, post: seq<Block>)
    requires |t| == |cfg.preds| && PostOrder(cfg, post) && post != [] && forall i | 0 <= i < |post| :: post[i] < |t|
    requires forall b | 0 <= b < |t| :: t[b] == DomNode(if b == post[|post| - 1] then 2 * STRIDE else 0, None)
    ensures Sound(t, cfg) && Numbered(t, post, |post| - 1) && forall r :: AllSettled(t, cfg, r)
  {
    hide Reachable;
  }

  lemma NoBlocks(t: Tree, cfg: Cfg)
    requires |t| == |cfg.preds| && (forall b | 0 <= b < |t| :: t[b] == DomNode(0, None))
    ensures Sound(t, cfg) && AllBelow(t, cfg)
  {
  }

  lemma VisitedReachable(t: Tree, cfg: Cfg, post: seq<Block>)
    requires PostOrder(cfg, post) && Numbered(t, post, 0)
    ensures forall b :: Visited(t, b) <==> Reachable(cfg, b)
  {
    hide Reachable;
    forall b ensures Visited(t, b) <==> b in post {
      if b in post {
        var i :| 0 <= i < |post| && post[i] == b;
      }
    }
  }

  lemma AncIffDom(t: Tree, cfg: Cfg, a: Point, b: Point)
    requires CfgOK(cfg) && Sound(t, cfg) && AllBelow(t, cfg) && (forall b :: Visited(t, b) <==> Reachable(cfg, b))
    ensures Reachable(cfg, b.block) ==> (Anc(t, a, b) <==> Dom(cfg, a, b))
  {
    if Reachable(cfg, b.block) {
      if Anc(t, a, b) {
        forall s | Path(cfg, s, b) ensures a in s {
          AncDom(t, cfg, a, b, s);
        }
      }
      if Dom(cfg, a, b) {
        ReachableEntry(cfg, b.block);
        DomAnc(t, cfg, a, b);
      }
    }
  }

  /** The immediate dominator is the dominator closest to the block: all others dominate it too. */
  lemma ImmediateDominator(t: Tree, cfg: Cfg, b: Block)
    requires CfgOK(cfg) && Sound(t, cfg) && AllBelow(t, cfg) && (forall b :: Visited(t, b) <==> Reachable(cfg, b))
    requires b < |t| && Reachable(cfg, b) && b != cfg.entry
    ensures t[b].idom.Some?
    ensures var d := t[b].idom.value; Dom(cfg, d, Point(b, 0)) && forall x | Dom(cfg, x, Point(b, 0))
            && x != Point(b, 0) :: Dom(cfg, x, d)
  {
    hide Dom, Reachable;
    assert NodeOK(t, cfg.entry, b) && Visited(t, b);
    AncSelf(t, t[b].idom.value);
    AncIffDom(t, cfg, t[b].idom.value, Point(b, 0));
    assert Covers(t, cfg, b);
  }

  /** The nearest common ancestor is dominated by exactly the common dominators. */
  lemma CommonDominators(t: Tree, cfg: Cfg, a: Point, b: Point, c: Point, x: Point)
    requires CfgOK(cfg) && Sound(t, cfg) && AllBelow(t, cfg) && (forall b :: Visited(t, b) <==> Reachable(cfg, b))
    requires Reachable(cfg, a.block) && Reachable(cfg, b.block) && Reachable(cfg, c.block) && Nearest(t, c, a, b)
    ensures Dom(cfg, x, c) <==> Dom(cfg, x, a) && Dom(cfg, x, b)
  {
    hide Dom, Reachable;
    AncIffDom(t, cfg, x, a);
    AncIffDom(t, cfg, x, b);
    AncIffDom(t, cfg, x, c);
    if Anc(t, x, c) {
      AncTrans(t, x, c, a);
      AncTrans(t, x, c, b);
    }
  }

  lemma ReachableEntry(cfg: Cfg, b: Block)
    requires Reachable(cfg, b)
    ensures cfg.entry < |cfg.preds|
  {
    var s :| Path(cfg, s, Point(b, 0));
    PathEntry(cfg, s, Point(b, 0));
  }

  lemma {:induction false} PathEntry(cfg: Cfg, s: seq<Point>, p: Point)
    requires Path(cfg, s, p)
    ensures cfg.entry < |cfg.preds|
    decreases |s|
  {
    if |s| > 1 {
      PathEntry(cfg, s[..|s| - 1], s[|s| - 2]);
    }
  }
}
