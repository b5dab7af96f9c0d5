/** Control flow graphs, their paths, and dominance as a statement about all paths.

A program point is the header of a block or one of its instructions. Control runs through a block
from its header; a branch instruction may leave for the header of another block, and need not be
the last instruction of its block.
*/
module DomtreePaths {
  type Block = nat

  /** Point 0 of a block is its header, point `k` its `k`th instruction. */
  datatype Point = Point(block: Block, at: nat)

  /** `preds[b]` are the branch instructions that jump to block `b`. */
  datatype Cfg = Cfg(entry: Block, preds: seq<seq<Point>>)

  ghost predicate CfgOK(cfg: Cfg) {
    forall b, i | 0 <= b < |cfg.preds| && 0 <= i < |cfg.preds[b]| :: BranchOK(cfg, cfg.preds[b][i])
  }

  ghost predicate BranchOK(cfg: Cfg, p: Point) {
    p.block < |cfg.preds| && p.at > 0
  }

  ghost predicate Jump(cfg: Cfg, p: Point, b: Block) {
    b < |cfg.preds| && p in cfg.preds[b]
  }

  ghost predicate Step(cfg: Cfg, p: Point, q: Point) {
    || q == Point(p.block, p.at + 1)
    || (q.at == 0 && Jump(cfg, p, q.block))
  }

  /** A path from the entry to `p`. */
  ghost predicate Path(cfg: Cfg, s: seq<Point>, p: Point)
    decreases |s|
  {
    && s != [] && s[|s| - 1] == p
    && if |s| == 1 then cfg.entry < |cfg.preds| && p == Point(cfg.entry, 0)
       else Path(cfg, s[..|s| - 1], s[|s| - 2]) && Step(cfg, s[|s| - 2], p)
  }

  /** Every path from the entry to `p` goes through `x`. */
  ghost predicate Dom(cfg: Cfg, x: Point, p: Point) {
    forall s | Path(cfg, s, p) :: x in s
  }

  ghost predicate Reachable(cfg: Cfg, b: Block) {
    exists s :: Path(cfg, s, Point(b, 0))
  }

  // ----- extending and cutting paths -----

  lemma PathStep(cfg: Cfg, s: seq<Point>, p: Point, q: Point)
    requires Path(cfg, s, p) && Step(cfg, p, q)
    ensures Path(cfg, s + [q], q)
  {
    assert (s + [q])[..|s|] == s;
  }

  /** From the header on through the block. */
  lemma {:induction false} Through(cfg: Cfg, s: seq<Point>, b: Block, k: nat) returns (s': seq<Point>)
    requires Path(cfg, s, Point(b, 0))
    ensures Path(cfg, s', Point(b, k))
    ensures forall x | x in s' :: x in s || (x.block == b && x.at <= k)
    decreases k
  {
    if k == 0 {
      s' := s;
    } else {
      var t := Through(cfg, s, b, k - 1);
      PathStep(cfg, t, Point(b, k - 1), Point(b, k));
      s' := t + [Point(b, k)];
    }
  }

  /** A path to a point of a block has come through every earlier point of the block. */
  lemma {:induction false} Earlier(cfg: Cfg, s: seq<Point>, b: Block, k: nat, j: nat) returns (s': seq<Point>)
    requires Path(cfg, s, Point(b, k)) && j <= k
    ensures Path(cfg, s', Point(b, j)) && forall x | x in s' :: x in s
    decreases k
  {
    s' := s;
    if j < k {
      var t := s[..|s| - 1];
      s' := Earlier(cfg, t, b, k - 1, j);
    }
  }

  lemma PathReachable(cfg: Cfg, s: seq<Point>, p: Point)
    requires Path(cfg, s, p)
    ensures Reachable(cfg, p.block)
  {
    var s' := Earlier(cfg, s, p.block, p.at, 0);
  }

  lemma {:induction false} PathInside(cfg: Cfg, s: seq<Point>, p: Point)
    requires CfgOK(cfg) && Path(cfg, s, p)
    ensures p.block < |cfg.preds|
    decreases |s|
  {
    if |s| > 1 {
      PathInside(cfg, s[..|s| - 1], s[|s| - 2]);
    }
  }

  // ----- dominance -----

  /** What dominates a block header from elsewhere dominates every way into the block. */
  lemma DomPred(cfg: Cfg, x: Point, b: Block, q: Point)
    requires Dom(cfg, x, Point(b, 0)) && x != Point(b, 0) && Jump(cfg, q, b)
    ensures Dom(cfg, x, q)
  {
    forall s | Path(cfg, s, q) ensures x in s {
      PathStep(cfg, s, q, Point(b, 0));
      assert x in s + [Point(b, 0)];
    }
  }

  /** What dominates a point of a block is an earlier point of the block or dominates its header. */
  lemma DomHeader(cfg: Cfg, x: Point, p: Point)
    requires Dom(cfg, x, p) && !(x.block == p.block && x.at <= p.at)
    ensures Dom(cfg, x, Point(p.block, 0))
  {
    forall s | Path(cfg, s, Point(p.block, 0)) ensures x in s {
      var s' := Through(cfg, s, p.block, p.at);
    }
  }

  lemma DomEarlier(cfg: Cfg, x: Point, p: Point)
    requires x.block == p.block && x.at <= p.at
    ensures Dom(cfg, x, p)
  {
    forall s | Path(cfg, s, p) ensures x in s {
      var s' := Earlier(cfg, s, p.block, p.at, x.at);
      assert s'[|s'| - 1] == x;
    }
  }

  lemma DomLater(cfg: Cfg, x: Point, p: Point)
    requires Dom(cfg, x, Point(p.block, 0))
    ensures Dom(cfg, x, p)
  {
    forall s | Path(cfg, s, p) ensures x in s {
      var s' := Earlier(cfg, s, p.block, p.at, 0);
    }
  }

  lemma DomEntry(cfg: Cfg, x: Point)
    requires cfg.entry < |cfg.preds| && Dom(cfg, x, Point(cfg.entry, 0))
    ensures x == Point(cfg.entry, 0)
  {
    var s := [Point(cfg.entry, 0)];
    assert Path(cfg, s, Point(cfg.entry, 0));
  }

  /** If block `h` branches only after its point `n`, a path through `h` that ends in another block goes through all
  points of `h` up to `n`. */
  lemma {:induction false} Leaves(cfg: Cfg, s: seq<Point>, p: Point, h: Block, n: nat, k: nat)
    requires forall q, c | Jump(cfg, q, c) && q.block == h :: q.at == n
    requires Path(cfg, s, p) && Point(h, 0) in s && p.block != h && k <= n
    ensures Point(h, k) in s
    decreases |s|
  {
    var s', q := s[..|s| - 1], s[|s| - 2];
    if q.block == h {
      assert Jump(cfg, q, p.block);
      var s'' := Earlier(cfg, s', h, q.at, k);
      assert s''[|s''| - 1] == Point(h, k) && Point(h, k) in s';
    } else {
      Leaves(cfg, s', q, h, n, k);
    }
  }

  // ----- post-orders -----

  /** What is known of a post-order: it lists the reachable blocks once, the entry last, and every
  other block has a predecessor further on. */
  ghost predicate PostOrder(cfg: Cfg, post: seq<Block>) {
    && (forall b :: b in post <==> Reachable(cfg, b))
    && (forall i, j | 0 <= i < j < |post| :: post[i] != post[j])
    && (post != [] ==> post[|post| - 1] == cfg.entry)
    && (forall i | 0 <= i < |post| - 1 :: Follows(cfg, post, i))
  }

  ghost predicate Follows(cfg: Cfg, post: seq<Block>, i: nat)
    requires i < |post|
  {
    exists q: Point, j: nat | i < j < |post| && post[j] == q.block :: Jump(cfg, q, post[i])
  }
}
