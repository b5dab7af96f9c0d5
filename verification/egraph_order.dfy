/** The pre-order test for dominance is the tree order that the e-graph pass relies on. */
module EgraphOrder {
  import opened DomtreePaths
  import opened DomtreeTree
  import opened DomtreeOrder
  import opened DomtreePreorder
  import V = EgraphValues

  /** The constant-time dominance check. */
  function Test(e: Extra): ((Block, Block) -> bool) {
    (a: Block, b: Block) => NumberOf(e, a) <= NumberOf(e, b) && MaxOf(e, a) >= MaxOf(e, b)
  }

  lemma TestIsOver(e: Extra, t: Tree, post: seq<Block>, a: Block, b: Block)
    requires Indexed(e, t, post) && a in post && b in post
    ensures Test(e)(a, b) <==> Over(t, a, b)
  {
    hide Over, PreKids, PreAt, Ordered;
    var i :| 0 <= i < |post| && post[i] == a;
    var j :| 0 <= j < |post| && post[j] == b;
    assert MaxAt(e, t, post, |post|, i) && MaxAt(e, t, post, |post|, j);
    Intervals(e, t, post, i, j);
  }

  lemma SameNumber(e: Extra, t: Tree, post: seq<Block>, a: Block, b: Block)
    requires Indexed(e, t, post) && a in post && b in post && NumberOf(e, a) == NumberOf(e, b)
    ensures a == b
  {
    hide Stretch, PreKids, Ordered;
    var i :| 0 <= i < |post| && post[i] == a;
    var j :| 0 <= j < |post| && post[j] == b;
    assert MaxAt(e, t, post, |post|, i) && MaxAt(e, t, post, |post|, j);
    var f := PreAt(t, post, |post| - 1);
    StretchAt(f, e[a].preNumber - 1, PreAt(t, post, i), 0);
    StretchAt(f, e[b].preNumber - 1, PreAt(t, post, j), 0);
  }

  /** The check is a tree order on the reachable blocks. */
  lemma TestTreeOrder(e: Extra, t: Tree, post: seq<Block>)
    requires post != [] && Indexed(e, t, post)
    ensures V.TreeOrder(Test(e), post[|post| - 1])
  {
    hide Indexed, Over;
    var entry, dom := post[|post| - 1], Test(e);
    forall a, b | dom(a, b) && dom(b, a) && dom(entry, a) ensures a == b {
      FromEntry(e, t, post, a);
      NumberReachable(e, t, post, b);
      SameNumber(e, t, post, a, b);
    }
    forall a, b, c | dom(a, c) && dom(b, c) && dom(entry, c) ensures dom(a, b) || dom(b, a) {
      FromEntry(e, t, post, c);
      NumberReachable(e, t, post, c);
      NumberReachable(e, t, post, a);
      NumberReachable(e, t, post, b);
      TestIsOver(e, t, post, a, c);
      TestIsOver(e, t, post, b, c);
      OverLinear(t, a, b, c);
      TestIsOver(e, t, post, a, b);
      TestIsOver(e, t, post, b, a);
    }
  }

  lemma FromEntry(e: Extra, t: Tree, post: seq<Block>, a: Block)
    requires post != [] && Indexed(e, t, post) && Test(e)(post[|post| - 1], a)
    ensures a in post && NumberOf(e, a) > 0
  {
    hide Indexed;
    NumberReachable(e, t, post, post[|post| - 1]);
    NumberReachable(e, t, post, a);
  }

  lemma OverLinear(t: Tree, a: Block, b: Block, c: Block)
    requires Over(t, a, c) && Over(t, b, c)
    ensures Over(t, a, b) || Over(t, b, a)
  {
    AncLinear(t, Point(a, 0), Point(b, 0), Point(c, 0));
  }
}
