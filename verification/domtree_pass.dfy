/** One pass over the blocks, and why passes come to an end. */
module DomtreePass {
  import opened Options
  import opened DomtreePaths
  import opened DomtreeTree

  const STRIDE: nat := 4

  /** Reverse post-order numbers are spaced by `STRIDE`; the entry, which is last of `count`, has `2 * STRIDE`. */
  function Number(count: nat, i: nat): nat
    requires i < count
  {
    (count - i + 1) * STRIDE
  }

  /** The blocks from `post[k]` on have their numbers, all others have none. */
  ghost predicate Numbered(t: Tree, post: seq<Block>, k: nat) {
    && (forall i | 0 <= i < |post| :: post[i] < |t| && t[post[i]].rpo == if i < k then 0 else Number(|post|, i))
    && (forall b | 0 <= b < |t| && b !in post :: t[b].rpo == 0)
  }

  /** The entry has the least number, and all numbers are multiples of the stride up to that of `post[k]`. */
  lemma NumberedRange(t: Tree, post: seq<Block>, k: nat, b: Block)
    requires Numbered(t, post, k) && k < |post| && b < |t|
    ensures t[b].rpo == 0 || 2 * STRIDE == t[post[|post| - 1]].rpo <= t[b].rpo <= Number(|post|, k)
    ensures t[b].rpo % STRIDE == 0
  {
    if b in post {
      var i :| 0 <= i < |post| && post[i] == b;
    }
  }

  /** Some visited way into `b` comes earlier than `number`. */
  ghost predicate HasForward(t: Tree, cfg: Cfg, b: Block, number: nat) {
    exists q | Jump(cfg, q, b) :: Visited(t, q.block) && Rpo(t, q.block) < number
  }

  lemma ForwardPred(t: Tree, cfg: Cfg, post: seq<Block>, i: nat, k: nat)
    requires PostOrder(cfg, post) && Numbered(t, post, k) && k <= i + 1 < |post|
    ensures HasForward(t, cfg, post[i], Number(|post|, i))
  {
    assert Follows(cfg, post, i);
    var q: Point, j: nat :| i < j < |post| && post[j] == q.block && Jump(cfg, q, post[i]);
    assert Visited(t, q.block) && Rpo(t, q.block) < Number(|post|, i);
  }

  // ----- the dominators of a block are above the meet of its predecessors -----

  lemma CoverNew(t: Tree, cfg: Cfg, c: Block, d: Point, number: nat)
    requires Shape(t, cfg.entry) && AllCover(t, cfg) && c < |cfg.preds| && cfg.entry < |cfg.preds|
    requires HasForward(t, cfg, c, number) && Meet(t, d, cfg.preds[c])
    ensures forall x | Dom(cfg, x, Point(c, 0)) && x != Point(c, 0) :: Dom(cfg, x, d)
  {
    hide Dom;
    var q :| Jump(cfg, q, c) && Visited(t, q.block);
    forall x | Dom(cfg, x, Point(c, 0)) && x != Point(c, 0) ensures Dom(cfg, x, d) {
      forall i | 0 <= i < |cfg.preds[c]| && Visited(t, cfg.preds[c][i].block) ensures Anc(t, x, cfg.preds[c][i]) {
        assert Jump(cfg, cfg.preds[c][i], c);
        DomPred(cfg, x, c, cfg.preds[c][i]);
        DomAnc(t, cfg, x, cfg.preds[c][i]);
      }
      assert Below(t, x, cfg.preds[c]);
      DomPred(cfg, x, c, q);
      BelowAt(t, d, cfg.preds[c], q);
      DomVia(t, cfg, x, d, q);
    }
  }

  /** The meet of the ways into `c` comes before `c`. */
  lemma MeetBefore(t: Tree, cfg: Cfg, c: Block, d: Point, number: nat)
    requires Shape(t, cfg.entry) && c < |cfg.preds| && HasForward(t, cfg, c, number) && Meet(t, d, cfg.preds[c])
    ensures 0 < Rpo(t, d.block) < number
  {
    var q :| Jump(cfg, q, c) && Visited(t, q.block) && Rpo(t, q.block) < number;
    BelowAt(t, d, cfg.preds[c], q);
    AncRpo(t, cfg.entry, d, q);
  }

  // ----- the first pass -----

  /** The immediate dominator of `b` is an ancestor of the earlier ways into `b`, and no common
  ancestor of all ways into `b` lies below it. */
  ghost predicate Settled(t: Tree, cfg: Cfg, b: Block)
    requires b < |t| == |cfg.preds| && t[b].idom.Some?
  {
    && (forall i | 0 <= i < |cfg.preds[b]| && Visited(t, cfg.preds[b][i].block)
        && Rpo(t, cfg.preds[b][i].block) < t[b].rpo ::
          Anc(t, t[b].idom.value, cfg.preds[b][i]))
    && Tight(t, t[b].idom.value, cfg.preds[b])
  }

  ghost predicate Sound(t: Tree, cfg: Cfg) {
    |t| == |cfg.preds| && Shape(t, cfg.entry) && AllCover(t, cfg)
  }

  ghost predicate AllSettled(t: Tree, cfg: Cfg, r: nat)
    requires |t| == |cfg.preds|
  {
    forall b | 0 <= b < |t| && t[b].idom.Some? && t[b].rpo < r :: Settled(t, cfg, b)
  }

  /** A settled block stays settled when later blocks lose ancestors. */
  lemma SettledBefore(t: Tree, t': Tree, cfg: Cfg, r: nat, b: Block)
    requires |t| == |cfg.preds| && Shape(t, cfg.entry) && b < |t| && t[b].idom.Some? && 0 < t[b].rpo < r
             && Settled(t, cfg, b)
    requires SameBefore(t, t', r) && forall x | Below(t', x, cfg.preds[b]) :: Below(t, x, cfg.preds[b])
    ensures Settled(t', cfg, b)
  {
    hide Below;
    assert NodeOK(t, cfg.entry, b);
    var d, ps := t[b].idom.value, cfg.preds[b];
    forall i | 0 <= i < |ps| && Visited(t', ps[i].block) && Rpo(t', ps[i].block) < t'[b].rpo ensures Anc(t', d, ps[i]) {
      AncBefore(t, t', cfg.entry, r, d, ps[i]);
    }
    forall x | Below(t', x, ps) ensures Anc(t', x, d) {
      AncBefore(t, t', cfg.entry, r, x, d);
    }
  }

  /** The block at the front of the reverse post-order gets its number and immediate dominator. */
  lemma FirstStep(t: Tree, t': Tree, cfg: Cfg, c: Block, d: Point, r: nat, r': nat)
    requires Sound(t, cfg) && AllSettled(t, cfg, r) && r > 1 && r < r' && forall b | 0 <= b < |t| :: t[b].rpo < r
    requires c < |t| && t[c].rpo == 0 && c != cfg.entry && cfg.entry < |t|
    requires HasForward(t, cfg, c, r) && Meet(t, d, cfg.preds[c]) && d.at > 0 && t' == t[c := DomNode(r, Some(d))]
    ensures Sound(t', cfg) && AllSettled(t', cfg, r')
  {
    hide Below, Tight, Dom;
    MeetBefore(t, cfg, c, d, r);
    CoverNew(t, cfg, c, d, r);
    forall b | 0 <= b < |t| ensures NodeOK(t', cfg.entry, b) {
      assert NodeOK(t, cfg.entry, b);
    }
    assert NodeOK(t, cfg.entry, c) && NodeOK(t, cfg.entry, d.block);
    forall b | 0 <= b < |t| && t'[b].idom.Some? ensures Covers(t', cfg, b) {
      assert b == c || Covers(t, cfg, b);
    }
    forall b | 0 <= b < |t| && t'[b].idom.Some? ensures Settled(t', cfg, b) {
      forall x | Below(t', x, cfg.preds[b]) ensures Below(t, x, cfg.preds[b]) {
        FirstBelow(t, t', cfg, r, x, cfg.preds[b]);
      }
      if b == c {
        SettledNew(t, t', cfg, r, c, d);
      } else {
        assert NodeOK(t, cfg.entry, b);
        SettledBefore(t, t', cfg, r, b);
      }
    }
  }

  lemma FirstBelow(t: Tree, t': Tree, cfg: Cfg, r: nat, x: Point, ps: seq<Point>)
    requires Shape(t, cfg.entry) && SameBefore(t, t', r) && (forall b | 0 <= b < |t| :: t[b].rpo < r)
             && Below(t', x, ps)
    ensures Below(t, x, ps)
  {
    forall i | 0 <= i < |ps| && Visited(t, ps[i].block) ensures Anc(t, x, ps[i]) {
      AncBefore(t, t', cfg.entry, r, x, ps[i]);
    }
  }

  /** The meet of the ways into `c` settles it. */
  lemma SettledNew(t: Tree, t': Tree, cfg: Cfg, r: nat, c: Block, d: Point)
    requires |t| == |cfg.preds| && Shape(t, cfg.entry) && SameBefore(t, t', r) && c < |t| && 0 < Rpo(t, d.block) < r
    requires Meet(t, d, cfg.preds[c]) && t'[c] == DomNode(r, Some(d))
    requires forall x | Below(t', x, cfg.preds[c]) :: Below(t, x, cfg.preds[c])
    ensures Settled(t', cfg, c)
  {
    var ps := cfg.preds[c];
    forall i | 0 <= i < |ps| && Visited(t', ps[i].block) && Rpo(t', ps[i].block) < r ensures Anc(t', d, ps[i]) {
      AncBefore(t, t', cfg.entry, r, d, ps[i]);
    }
    forall x | Below(t', x, ps) ensures Anc(t', x, d) {
      AncBefore(t, t', cfg.entry, r, x, d);
    }
  }

  // ----- later passes -----

  /** In a pass that started with `t0` and has come to the blocks numbered `r`. */
  ghost predicate InPass(cfg: Cfg, t0: Tree, t: Tree, r: nat) {
    && Sound(t, cfg) && Sound(t0, cfg) && Risen(t0, t, t0) && Risen(t0, t, t)
    && (forall b | 0 <= b < |t| && t0[b].rpo >= r :: t[b] == t0[b])
    && (forall b | 0 <= b < |t| && t0[b].idom.Some? :: Settled(t0, cfg, b))
    && AllSettled(t, cfg, r)
  }

  lemma PassStart(cfg: Cfg, t: Tree, r: nat, r0: nat)
    requires Sound(t, cfg) && AllSettled(t, cfg, r) && forall b | 0 <= b < |t| :: t[b].rpo < r
    ensures InPass(cfg, t, t, r0)
  {
    forall b | 0 <= b < |t| && t[b].idom.Some? ensures Anc(t, t[b].idom.value, t[b].idom.value) {
      AncSelf(t, t[b].idom.value);
    }
  }

  /** The new immediate dominator is an ancestor of the old one, both in the tree at the start of
  the pass and now. */
  lemma Rises(cfg: Cfg, t0: Tree, t: Tree, c: Block, d: Point)
    requires c < |t| && InPass(cfg, t0, t, t[c].rpo) && t[c].idom.Some? && HasForward(t, cfg, c, t[c].rpo)
             && Meet(t, d, cfg.preds[c])
    ensures Anc(t0, d, t0[c].idom.value) && Anc(t, d, t[c].idom.value)
  {
    hide Tight, AllSettled, AllCover;
    var ps := cfg.preds[c];
    ShrinksBelow(t0, t, cfg.entry, d, ps);
    assert Settled(t0, cfg, c);
    TightAt(t0, t0[c].idom.value, ps, d);
    var q :| Jump(cfg, q, c) && Visited(t, q.block) && Rpo(t, q.block) < t[c].rpo;
    BelowAt(t, d, ps, q);
    StillAbove(t0, t, cfg.entry, d, t0[c].idom.value, q);
  }

  lemma TightAt(t: Tree, d: Point, ps: seq<Point>, x: Point)
    requires Tight(t, d, ps) && Below(t, x, ps)
    ensures Anc(t, x, d)
  {
  }

  lemma OneRisen(t: Tree, t': Tree, c: Block, d: Point)
    requires c < |t| && t[c].idom.Some? && t' == t[c := DomNode(t[c].rpo, Some(d))] && Anc(t, d, t[c].idom.value)
    ensures Risen(t, t', t)
  {
    forall b | 0 <= b < |t| && t[b].idom.Some? ensures Anc(t, t'[b].idom.value, t[b].idom.value) {
      AncSelf(t, t[b].idom.value);
    }
  }

  /** Recomputing one immediate dominator. */
  lemma PassStep(cfg: Cfg, t0: Tree, t: Tree, t': Tree, c: Block, d: Point, r': nat)
    requires c < |t| && InPass(cfg, t0, t, t[c].rpo) && t[c].idom.Some? && cfg.entry < |t|
    requires HasForward(t, cfg, c, t[c].rpo) && Meet(t, d, cfg.preds[c]) && d.at > 0
    requires t' == t[c := DomNode(t[c].rpo, Some(d))] && r' > t[c].rpo && forall b | 0 <= b < |t| && t[b].rpo < r' ::
             t[b].rpo <= t[c].rpo
    ensures InPass(cfg, t0, t', r')
  {
    hide Below, Tight, Dom, Anc;
    var r := t[c].rpo;
    MeetBefore(t, cfg, c, d, r);
    CoverNew(t, cfg, c, d, r);
    Rises(cfg, t0, t, c, d);
    OneRisen(t, t', c, d);
    StepSound(cfg, t, t', c, d);
    StepRisen(cfg, t0, t, t', c, d);
    forall b | 0 <= b < |t| && t'[b].idom.Some? && t'[b].rpo < r' ensures Settled(t', cfg, b) {
      forall x | Below(t', x, cfg.preds[b]) ensures Below(t, x, cfg.preds[b]) {
        ShrinksBelow(t, t', cfg.entry, x, cfg.preds[b]);
      }
      if b == c {
        SettledNew(t, t', cfg, r, c, d);
      } else {
        assert t[b].rpo < r && NodeOK(t, cfg.entry, b);
        SettledBefore(t, t', cfg, r, b);
      }
    }
  }

  lemma StepSound(cfg: Cfg, t: Tree, t': Tree, c: Block, d: Point)
    requires Sound(t, cfg) && c < |t| && t[c].idom.Some? && d.at > 0 && 0 < Rpo(t, d.block) < t[c].rpo
    requires t' == t[c := DomNode(t[c].rpo, Some(d))]
    requires forall x | Dom(cfg, x, Point(c, 0)) && x != Point(c, 0) :: Dom(cfg, x, d)
    ensures Sound(t', cfg) && SameBefore(t, t', t[c].rpo)
  {
    hide Dom;
    forall b | 0 <= b < |t| ensures NodeOK(t', cfg.entry, b) {
      assert NodeOK(t, cfg.entry, b);
    }
    forall b | 0 <= b < |t| && t'[b].idom.Some? ensures Covers(t', cfg, b) {
      assert b == c || Covers(t, cfg, b);
    }
  }

  lemma StepRisen(cfg: Cfg, t0: Tree, t: Tree, t': Tree, c: Block, d: Point)
    requires c < |t| && InPass(cfg, t0, t, t[c].rpo) && t[c].idom.Some? && Shape(t', cfg.entry)
    requires t' == t[c := DomNode(t[c].rpo, Some(d))] && SameBefore(t, t', t[c].rpo) && 0 < Rpo(t, d.block) < t[c].rpo
    requires Anc(t0, d, t0[c].idom.value) && Anc(t, d, t[c].idom.value)
    ensures Risen(t0, t', t0) && Risen(t0, t', t')
  {
    hide Anc, AllSettled, AllCover, Settled;
    var r := t[c].rpo;
    forall b | 0 <= b < |t| && t'[b].idom.Some? ensures Anc(t', t'[b].idom.value, t0[b].idom.value) {
      assert NodeOK(t0, cfg.entry, b);
      if t[b].rpo > r {
        AncSelf(t', t'[b].idom.value);
      } else {
        AncBefore(t, t', cfg.entry, r, t'[b].idom.value, t0[b].idom.value);
      }
    }
  }

  // ----- termination -----

  /** Sum of the numbers of the immediate dominators of the first `n` blocks. */
  ghost function RpoSum(t: Tree, n: nat): nat
    requires n <= |t|
  {
    if n == 0 then 0 else RpoSum(t, n - 1) + if t[n - 1].idom.Some? then Rpo(t, t[n - 1].idom.value.block) else 0
  }

  /** Sum of their places in their blocks. */
  ghost function AtSum(t: Tree, n: nat): nat
    requires n <= |t|
  {
    if n == 0 then 0 else AtSum(t, n - 1) + if t[n - 1].idom.Some? then t[n - 1].idom.value.at else 0
  }

  lemma {:induction false} SumStep(t: Tree, t': Tree, c: Block, d: Point, n: nat)
    requires c < |t| && n <= |t| && t[c].idom.Some? && t' == t[c := DomNode(t[c].rpo, Some(d))]
    ensures var old_ := t[c].idom.value;
            if c < n then
              RpoSum(t', n) == RpoSum(t, n) - Rpo(t, old_.block) + Rpo(t, d.block) && AtSum(t', n) ==
                  AtSum(t, n) - old_.at + d.at
            else
              RpoSum(t', n) == RpoSum(t, n) && AtSum(t', n) == AtSum(t, n)
    decreases n
  {
    if n > 0 {
      SumStep(t, t', c, d, n - 1);
      assert t[n - 1].idom.Some? ==> Rpo(t', t[n - 1].idom.value.block) == Rpo(t, t[n - 1].idom.value.block);
      assert Rpo(t', d.block) == Rpo(t, d.block);
    }
  }

  ghost predicate Falls(t: Tree, t': Tree)
  {
    RpoSum(t', |t'|) < RpoSum(t, |t|) || (RpoSum(t', |t'|) == RpoSum(t, |t|) && AtSum(t', |t'|) < AtSum(t, |t|))
  }

  lemma FallsTrans(a: Tree, b: Tree, c: Tree)
    requires (a == b || Falls(a, b)) && Falls(b, c)
    ensures Falls(a, c)
  {
    hide RpoSum, AtSum;
  }

  /** Moving an immediate dominator up lowers the sums. */
  lemma MoveFalls(cfg: Cfg, t: Tree, t': Tree, c: Block, d: Point)
    requires c < |t| && Shape(t, cfg.entry) && t[c].idom.Some? && t' == t[c := DomNode(t[c].rpo, Some(d))]
    requires Anc(t, d, t[c].idom.value) && d != t[c].idom.value
    ensures Falls(t, t')
  {
    hide RpoSum, AtSum;
    SumStep(t, t', c, d, |t|);
    AncRpo(t, cfg.entry, d, t[c].idom.value);
    if d.block == t[c].idom.value.block {
      AncSame(t, cfg.entry, d, t[c].idom.value);
    }
  }
}
