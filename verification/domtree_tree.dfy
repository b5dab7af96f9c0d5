/** Trees of immediate dominators: ancestors, and how they change when immediate dominators do. */
module DomtreeTree {
  import opened Options
  import opened DomtreePaths

  /** Position in the reverse post-order, 0 if unreachable, and immediate dominator. */
  datatype DomNode = DomNode(rpo: nat, idom: Option<Point>)

  type Tree = seq<DomNode>

  function Rpo(t: Tree, b: Block): nat {
    if b < |t| then t[b].rpo else 0
  }

  predicate Visited(t: Tree, b: Block) {
    Rpo(t, b) > 1
  }

  /** Immediate dominators come earlier in the reverse post-order; only the entry and unvisited
  blocks have none. */
  ghost predicate Shape(t: Tree, entry: Block) {
    && (forall b | 0 <= b < |t| :: NodeOK(t, entry, b))
    && (forall a, b | 0 <= a < b < |t| && t[a].rpo == t[b].rpo :: t[a].rpo == 0)
  }

  ghost predicate NodeOK(t: Tree, entry: Block, b: Block)
    requires b < |t|
  {
    && (t[b].rpo == 0 || t[b].rpo > 1)
    && (t[b].idom.Some? <==> t[b].rpo > 0 && b != entry)
    && (t[b].idom.Some? ==> t[b].idom.value.at > 0 && 0 < Rpo(t, t[b].idom.value.block) < t[b].rpo)
  }

  /** Is `x` found on the way from `p` up the tree? */
  ghost predicate Anc(t: Tree, x: Point, p: Point)
    decreases Rpo(t, p.block)
  {
    || (x.block == p.block && x.at <= p.at)
    || (p.block < |t| && t[p.block].idom.Some? && Rpo(t, t[p.block].idom.value.block) < t[p.block].rpo
        && Anc(t, x, t[p.block].idom.value))
  }

  lemma AncSelf(t: Tree, p: Point)
    ensures Anc(t, p, p)
  {
  }

  lemma {:induction false} AncTrans(t: Tree, x: Point, y: Point, z: Point)
    requires Anc(t, x, y) && Anc(t, y, z)
    ensures Anc(t, x, z)
    decreases Rpo(t, z.block)
  {
    if !(y.block == z.block && y.at <= z.at) {
      AncTrans(t, x, y, t[z.block].idom.value);
    }
  }

  /** Ancestors in other blocks come earlier in the reverse post-order. */
  lemma {:induction false} AncRpo(t: Tree, entry: Block, x: Point, p: Point)
    requires Shape(t, entry) && Anc(t, x, p)
    ensures Rpo(t, x.block) <= Rpo(t, p.block)
    ensures x.block != p.block ==> 0 < Rpo(t, x.block) < Rpo(t, p.block)
    decreases Rpo(t, p.block)
  {
    if !(x.block == p.block && x.at <= p.at) {
      assert NodeOK(t, entry, p.block);
      AncRpo(t, entry, x, t[p.block].idom.value);
    }
  }

  /** Ancestors in the same block are the earlier points. */
  lemma AncSame(t: Tree, entry: Block, x: Point, p: Point)
    requires Shape(t, entry) && Anc(t, x, p) && x.block == p.block
    ensures x.at <= p.at
  {
    if x.at > p.at {
      assert NodeOK(t, entry, p.block);
      AncRpo(t, entry, x, t[p.block].idom.value);
    }
  }

  /** An ancestor from an earlier block is an ancestor of the immediate dominator. */
  lemma AncUp(t: Tree, entry: Block, x: Point, p: Point)
    requires Shape(t, entry) && Anc(t, x, p) && Rpo(t, x.block) != Rpo(t, p.block)
    ensures p.block < |t| && t[p.block].idom.Some? && Anc(t, x, t[p.block].idom.value)
  {
  }

  // ----- meets -----

  /** `x` is an ancestor of all visited points of `ps`. */
  ghost predicate Below(t: Tree, x: Point, ps: seq<Point>) {
    forall i | 0 <= i < |ps| && Visited(t, ps[i].block) :: Anc(t, x, ps[i])
  }

  /** Every common ancestor of the visited points of `ps` is an ancestor of `d`. */
  ghost predicate Tight(t: Tree, d: Point, ps: seq<Point>) {
    forall x | Below(t, x, ps) :: Anc(t, x, d)
  }

  /** `d` is the nearest common ancestor of the visited points of `ps`. */
  ghost predicate Meet(t: Tree, d: Point, ps: seq<Point>) {
    Below(t, d, ps) && Tight(t, d, ps)
  }

  /** `c` is the nearest common ancestor of `a` and `b`. */
  ghost predicate Nearest(t: Tree, c: Point, a: Point, b: Point) {
    Anc(t, c, a) && Anc(t, c, b) && forall x | Anc(t, x, a) && Anc(t, x, b) :: Anc(t, x, c)
  }

  lemma MeetOne(t: Tree, ps: seq<Point>, q: Point)
    requires Visited(t, q.block) && forall i | 0 <= i < |ps| :: !Visited(t, ps[i].block)
    ensures Meet(t, q, ps + [q])
  {
    AncSelf(t, q);
    forall x | Below(t, x, ps + [q]) ensures Anc(t, x, q) {
      assert (ps + [q])[|ps|] == q;
    }
  }

  lemma MeetStep(t: Tree, d: Point, ps: seq<Point>, q: Point, c: Point)
    requires Meet(t, d, ps) && Visited(t, q.block) && Nearest(t, c, d, q)
    ensures Meet(t, c, ps + [q])
  {
    forall i | 0 <= i < |ps + [q]| && Visited(t, (ps + [q])[i].block) ensures Anc(t, c, (ps + [q])[i]) {
      if i < |ps| {
        AncTrans(t, c, d, ps[i]);
      }
    }
    forall x | Below(t, x, ps + [q]) ensures Anc(t, x, c) {
      assert (ps + [q])[|ps|] == q;
      forall i | 0 <= i < |ps| && Visited(t, ps[i].block) ensures Anc(t, x, ps[i]) {
        assert (ps + [q])[i] == ps[i];
      }
    }
  }

  lemma MeetSkip(t: Tree, d: Point, ps: seq<Point>, q: Point)
    requires Meet(t, d, ps) && !Visited(t, q.block)
    ensures Meet(t, d, ps + [q])
  {
    forall x | Below(t, x, ps + [q]) ensures Below(t, x, ps) {
      forall i | 0 <= i < |ps| && Visited(t, ps[i].block) ensures Anc(t, x, ps[i]) {
        assert (ps + [q])[i] == ps[i];
      }
    }
  }

  /** When `a` lies in an earlier block than `b`, their common ancestors are those of `a` and of the
  immediate dominator of `b`. */
  lemma NearestUp(t: Tree, entry: Block, a: Point, b: Point, c: Point)
    requires Shape(t, entry) && Rpo(t, a.block) < Rpo(t, b.block) && b.block < |t| && t[b.block].idom.Some?
    requires Nearest(t, c, a, t[b.block].idom.value)
    ensures Nearest(t, c, a, b)
  {
    assert NodeOK(t, entry, b.block);
    forall x | Anc(t, x, a) && Anc(t, x, b) ensures Anc(t, x, c) {
      AncRpo(t, entry, x, a);
      AncUp(t, entry, x, b);
    }
  }

  lemma NearestSame(t: Tree, entry: Block, a: Point, b: Point)
    requires Shape(t, entry) && a.block == b.block && a.at <= b.at
    ensures Nearest(t, a, a, b) && Nearest(t, a, b, a)
  {
  }

  lemma NearestSwap(t: Tree, a: Point, b: Point, c: Point)
    requires Nearest(t, c, a, b)
    ensures Nearest(t, c, b, a)
  {
  }

  // ----- changing immediate dominators -----

  ghost predicate SameNumbers(t0: Tree, t: Tree) {
    |t| == |t0| && forall b | 0 <= b < |t| :: t[b].rpo == t0[b].rpo && t[b].idom.Some? == t0[b].idom.Some?
  }

  /** Every immediate dominator of `t` is, in `in_`, an ancestor of the one of `t0`. */
  ghost predicate Risen(t0: Tree, t: Tree, in_: Tree) {
    && SameNumbers(t0, t)
    && (forall b | 0 <= b < |t| && t[b].idom.Some? :: Anc(in_, t[b].idom.value, t0[b].idom.value))
  }

  /** When immediate dominators move up the old tree, ancestors can only be lost. */
  lemma {:induction false} Shrinks(t0: Tree, t: Tree, x: Point, p: Point)
    requires Risen(t0, t, t0) && Anc(t, x, p)
    requires forall b | 0 <= b < |t0| && t0[b].idom.Some? :: Rpo(t0, t0[b].idom.value.block) < t0[b].rpo
    ensures Anc(t0, x, p)
    decreases Rpo(t, p.block)
  {
    if !(x.block == p.block && x.at <= p.at) {
      var d := t[p.block].idom.value;
      Shrinks(t0, t, x, d);
      AncTrans(t0, x, d, t0[p.block].idom.value);
    }
  }

  lemma ShrinksBelow(t0: Tree, t: Tree, entry: Block, x: Point, ps: seq<Point>)
    requires Shape(t0, entry) && Risen(t0, t, t0) && Below(t, x, ps)
    ensures Below(t0, x, ps)
  {
    forall b | 0 <= b < |t0| && t0[b].idom.Some? ensures Rpo(t0, t0[b].idom.value.block) < t0[b].rpo {
      assert NodeOK(t0, entry, b);
    }
    forall i | 0 <= i < |ps| && Visited(t0, ps[i].block) ensures Anc(t0, x, ps[i]) {
      Shrinks(t0, t, x, ps[i]);
    }
  }

  /** On the old path from `p` up to `u`, a point above `u` that is still an ancestor of `p` is still
  an ancestor of `u`. */
  lemma {:induction false} StillAbove(t0: Tree, t: Tree, entry: Block, x: Point, u: Point, p: Point)
    requires Shape(t0, entry) && Shape(t, entry) && Risen(t0, t, t)
    requires Anc(t0, u, p) && Anc(t, x, p) && Anc(t0, x, u)
    ensures Anc(t, x, u)
    decreases Rpo(t0, p.block)
  {
    AncRpo(t0, entry, x, u);
    AncRpo(t0, entry, u, p);
    if u.block == p.block {
      AncSame(t0, entry, u, p);
      if x.block == u.block {
        AncSame(t0, entry, x, u);
      }
    } else {
      AncUp(t0, entry, u, p);
      AncUp(t, entry, x, p);
      var d0 := t0[p.block].idom.value;
      AncTrans(t, x, t[p.block].idom.value, d0);
      assert NodeOK(t0, entry, p.block);
      StillAbove(t0, t, entry, x, u, d0);
    }
  }

  /** The same blocks come before `r` in both trees, with the same immediate dominators. */
  ghost predicate SameBefore(t: Tree, t': Tree, r: nat) {
    |t'| == |t|
    && forall b | 0 <= b < |t| :: if 0 < t[b].rpo < r then t'[b] == t[b] else t'[b].rpo == 0 || t'[b].rpo >= r
  }

  /** Ancestors of points before `r` depend only on blocks before `r`. */
  lemma {:induction false} AncBefore(t: Tree, t': Tree, entry: Block, r: nat, x: Point, p: Point)
    requires Shape(t, entry) && SameBefore(t, t', r) && 0 < Rpo(t, p.block) < r
    ensures Anc(t, x, p) <==> Anc(t', x, p)
    decreases Rpo(t, p.block)
  {
    assert NodeOK(t, entry, p.block);
    if t[p.block].idom.Some? {
      AncBefore(t, t', entry, r, x, t[p.block].idom.value);
    }
  }

  // ----- dominance and ancestors -----

  /** Every dominator of block `b`, other than its header, dominates its immediate dominator. */
  ghost predicate Covers(t: Tree, cfg: Cfg, b: Block)
    requires b < |t| && t[b].idom.Some?
  {
    forall x | Dom(cfg, x, Point(b, 0)) && x != Point(b, 0) :: Dom(cfg, x, t[b].idom.value)
  }

  ghost predicate AllCover(t: Tree, cfg: Cfg) {
    forall b | 0 <= b < |t| && t[b].idom.Some? :: Covers(t, cfg, b)
  }

  /** Dominators are ancestors. */
  lemma {:induction false} DomAnc(t: Tree, cfg: Cfg, x: Point, p: Point)
    requires Shape(t, cfg.entry) && AllCover(t, cfg) && cfg.entry < |cfg.preds| && Visited(t, p.block) && Dom(cfg, x, p)
    ensures Anc(t, x, p)
    decreases Rpo(t, p.block)
  {
    hide Dom;
    if !(x.block == p.block && x.at <= p.at) {
      DomHeader(cfg, x, p);
      assert NodeOK(t, cfg.entry, p.block);
      if p.block == cfg.entry {
        DomEntry(cfg, x);
      } else {
        var d := t[p.block].idom.value;
        assert Covers(t, cfg, p.block);
        assert NodeOK(t, cfg.entry, d.block);
        DomAnc(t, cfg, x, d);
      }
    }
  }

  /** A dominator of `q` above an ancestor `c` of `q` dominates `c`. */
  lemma {:induction false} DomVia(t: Tree, cfg: Cfg, x: Point, c: Point, q: Point)
    requires Shape(t, cfg.entry) && AllCover(t, cfg) && Anc(t, c, q) && Anc(t, x, c) && Dom(cfg, x, q)
    ensures Dom(cfg, x, c)
    decreases Rpo(t, q.block)
  {
    hide Dom;
    AncRpo(t, cfg.entry, c, q);
    AncRpo(t, cfg.entry, x, c);
    if x.block == c.block {
      AncSame(t, cfg.entry, x, c);
      DomEarlier(cfg, x, c);
    } else {
      DomHeader(cfg, x, q);
      if c.block == q.block {
        DomLater(cfg, x, c);
      } else {
        AncUp(t, cfg.entry, c, q);
        assert Covers(t, cfg, q.block) && NodeOK(t, cfg.entry, q.block);
        DomVia(t, cfg, x, c, t[q.block].idom.value);
      }
    }
  }

  /** Immediate dominators are ancestors of all visited ways into their block. */
  ghost predicate AllBelow(t: Tree, cfg: Cfg) {
    |t| == |cfg.preds| && forall b | 0 <= b < |t| && t[b].idom.Some? :: Below(t, t[b].idom.value, cfg.preds[b])
  }

  /** Ancestors are on every path. */
  lemma {:induction false} AncDom(t: Tree, cfg: Cfg, x: Point, p: Point, s: seq<Point>)
    requires CfgOK(cfg) && Shape(t, cfg.entry) && AllBelow(t, cfg) && (forall b | Reachable(cfg, b) :: Visited(t, b))
    requires Anc(t, x, p) && Path(cfg, s, p)
    ensures x in s
    decreases |s|
  {
    hide Below;
    PathReachable(cfg, s, p);
    assert NodeOK(t, cfg.entry, p.block);
    if x != p {
      if p.at > 0 {
        var q := s[|s| - 2];
        AncDom(t, cfg, x, q, s[..|s| - 1]);
      } else if |s| > 1 {
        var q := s[|s| - 2];
        PathReachable(cfg, s[..|s| - 1], q);
        if p.block == cfg.entry {
          assert false;
        } else {
          BelowAt(t, t[p.block].idom.value, cfg.preds[p.block], q);
          AncTrans(t, x, t[p.block].idom.value, q);
          AncDom(t, cfg, x, q, s[..|s| - 1]);
        }
      }
    }
  }

  lemma BelowAt(t: Tree, x: Point, ps: seq<Point>, q: Point)
    requires Below(t, x, ps) && q in ps && Visited(t, q.block)
    ensures Anc(t, x, q)
  {
  }
}
