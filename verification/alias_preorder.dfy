/** A walk over the dominator tree visits blocks in an order in which no redundant load is missed. */
module AliasPreorder {
  import opened DomtreePaths
  import opened DomtreeTree
  import opened DomtreePass
  import opened Domtree
  import opened DomtreeOrder
  import opened DomtreePreorder
  import R = AliasReuse

  /** In the pre-order, the blocks below a block are those that follow it up to the size of its sub-tree. */
  lemma OverStretch(t: Tree, post: seq<Block>, i: nat, k: nat, p: nat)
    requires Ordered(t, post) && p < |post|
    requires var all := PreAt(t, post, |post| - 1); i < |all| && k < |all| && all[i] == post[p]
    ensures var all := PreAt(t, post, |post| - 1); Over(t, all[i], all[k]) <==> i <= k < i + |PreAt(t, post, p)|
  {
    hide Ordered, Over, PreAt, Stretch;
    var all, sub := PreAt(t, post, |post| - 1), PreAt(t, post, p);
    var o := SubStretch(t, post, |post| - 1, p);
    PreUnique(t, post, |post| - 1);
    StretchAt(all, o, sub, 0);
    assert o == i;
    if Over(t, all[i], all[k]) {
      var q := BlockIndex(t, post, k);
      OverPre(t, post, p, q);
      var x :| 0 <= x < |sub| && sub[x] == all[k];
      StretchAt(all, o, sub, x);
    }
    if i <= k < i + |sub| {
      StretchAt(all, o, sub, k - i);
      PreOver(t, post, p, all[k]);
    }
  }

  lemma BlockIndex(t: Tree, post: seq<Block>, k: nat) returns (q: nat)
    requires Ordered(t, post) && k < |PreAt(t, post, |post| - 1)|
    ensures q < |post| && post[q] == PreAt(t, post, |post| - 1)[k]
  {
    hide PreAt;
    var x := PreAt(t, post, |post| - 1)[k];
    PreOver(t, post, |post| - 1, x);
    q := OverIndex(t, post, x);
  }

  /** A block below the entry is in the post-order. */
  lemma OverIndex(t: Tree, post: seq<Block>, x: Block) returns (q: nat)
    requires Ordered(t, post) && Over(t, post[|post| - 1], x)
    ensures q < |post| && post[q] == x
  {
    var e := post[|post| - 1];
    if x == e {
      q := |post| - 1;
    } else {
      AncRpo(t, e, Point(e, 0), Point(x, 0));
      assert x in post;
      q :| 0 <= q < |post| && post[q] == x;
    }
  }

  lemma Tied(cfg: Cfg, domtree: DominatorTree, k: nat)
    requires domtree.Valid(cfg) && domtree.postorder != []
    requires Ordered(domtree.nodes, domtree.postorder)
             && k < |PreAt(domtree.nodes, domtree.postorder, |domtree.postorder| - 1)|
    ensures var b := PreAt(domtree.nodes, domtree.postorder, |domtree.postorder| - 1)[k];
            Reachable(cfg, b) && forall a :: R.Under(cfg, a, b) <==> Over(domtree.nodes, a, b)
  {
    hide Ordered, PreAt, Dom, Reachable;
    var t, post := domtree.nodes, domtree.postorder;
    var b := PreAt(t, post, |post| - 1)[k];
    var q := BlockIndex(t, post, k);
    assert b in post;
    forall a ensures R.Under(cfg, a, b) <==> Over(t, a, b) {
      AncIffDom(t, cfg, Point(a, 0), Point(b, 0));
    }
  }

  lemma OrderedOf(cfg: Cfg, domtree: DominatorTree)
    requires domtree.Valid(cfg) && domtree.postorder != []
    ensures Ordered(domtree.nodes, domtree.postorder) && forall b :: b in domtree.postorder <==> Reachable(cfg, b)
  {
    hide Ordered;
    TreeOrdered(domtree.nodes, domtree.postorder, cfg);
  }

  /** The pre-order has dominators first and keeps what a block dominates together. */
  lemma PreorderReuses(cfg: Cfg, domtree: DominatorTree)
    requires domtree.Valid(cfg) && domtree.postorder != []
    ensures var order := PreAt(domtree.nodes, domtree.postorder, |domtree.postorder| - 1);
            R.DomFirst(cfg, order) && R.Contiguous(cfg, order) && forall b | Reachable(cfg, b) :: b in order
  {
    hide DominatorTree.Valid, Ordered, PreAt, R.Under, Over, Reachable;
    OrderedOf(cfg, domtree);
    var t, post := domtree.nodes, domtree.postorder;
    var all := PreAt(t, post, |post| - 1);
    forall i, j | 0 <= i < j < |all| ensures !R.Under(cfg, all[j], all[i]) {
      Tied(cfg, domtree, i);
      var p := BlockIndex(t, post, j);
      OverStretch(t, post, j, i, p);
    }
    forall i, j, k | 0 <= i < j < k < |all| && R.Under(cfg, all[i], all[k]) ensures R.Under(cfg, all[i], all[j]) {
      Tied(cfg, domtree, j);
      Tied(cfg, domtree, k);
      var p := BlockIndex(t, post, i);
      OverStretch(t, post, i, j, p);
      OverStretch(t, post, i, k, p);
    }
    forall b | Reachable(cfg, b) ensures b in all {
      var j :| 0 <= j < |post| && post[j] == b;
      RootOver(t, post, j);
      OverPre(t, post, |post| - 1, j);
    }
  }
}
