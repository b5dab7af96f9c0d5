/** Walking the dominator tree with an explicit stack: where the walk is, and what is left to visit. */
module EgraphWalk {
  import opened DomtreePaths
  import opened DomtreeTree
  import opened DomtreePass
  import opened DomtreeOrder

  datatype StackEntry = Visit(block: Block) | Pop

  predicate Child(t: Tree, a: Block, x: Block) {
    x < |t| && t[x].idom.Some? && t[x].idom.value.block == a
  }

  /** `children` lists the immediate children of every block, in any order. */
  ghost predicate ChildrenOK(t: Tree, post: seq<Block>, children: Block -> seq<Block>) {
    forall a | a in post :: Unique(children(a)) && forall x :: x in children(a) <==> x in post && Child(t, a, x)
  }

  // ----- facts about the tree -----

  lemma ChildOver(t: Tree, post: seq<Block>, a: Block, x: Block)
    requires Ordered(t, post) && x in post && Child(t, a, x)
    ensures Over(t, a, x) && a in post && !Over(t, x, a) && a != x
  {
    var j :| 0 <= j < |post| && post[j] == x;
    KidOver(t, post, j, a);
    var p := ParentIndex(t, post, j, a);
    if Over(t, x, a) {
      AncRpo(t, post[|post| - 1], Point(x, 0), Point(a, 0));
    }
  }

  lemma OverSelf(t: Tree, x: Block)
    ensures Over(t, x, x)
  {
  }

  /** A block over `x` is `x` or over its parent. */
  lemma OverParent(t: Tree, post: seq<Block>, a: Block, x: Block, y: Block)
    requires Ordered(t, post) && Child(t, a, x) && Over(t, y, x) && y != x
    ensures Over(t, y, a)
  {
    OverUp(t, post, y, x);
  }

  lemma OverIn(t: Tree, post: seq<Block>, y: Block, x: Block)
    requires Ordered(t, post) && x in post && Over(t, y, x)
    ensures y in post
  {
    if y != x {
      AncRpo(t, post[|post| - 1], Point(y, 0), Point(x, 0));
    }
  }

  /** Only the root is over the root. */
  lemma OverRoot(t: Tree, post: seq<Block>, y: Block)
    requires Ordered(t, post) && Over(t, y, post[|post| - 1])
    ensures y == post[|post| - 1]
  {
    assert NodeOK(t, post[|post| - 1], post[|post| - 1]);
  }

  /** What is below `x` is `x` or below a child of `x`. */
  lemma {:induction false} UnderChild(t: Tree, post: seq<Block>, x: Block, b: Block) returns (k: Block)
    requires Ordered(t, post) && b in post && Over(t, x, b) && b != x
    ensures k in post && Child(t, x, k) && Over(t, k, b)
    decreases Rpo(t, b)
  {
    OverUp(t, post, x, b);
    var a := t[b].idom.value.block;
    ChildOver(t, post, a, b);
    assert NodeOK(t, post[|post| - 1], b);
    if a == x {
      k := b;
      OverSelf(t, b);
    } else {
      k := UnderChild(t, post, x, a);
      OverTrans(t, k, a, b);
    }
  }

  // ----- the state of a walk -----

  /** `path` are the blocks being visited, from the root down; `pend[i + 1]` the children of `path[i]` that are
  still to be visited, `pend[0]` the root if the walk has not started; `done` the blocks visited. */
  datatype Walk = Walk(path: seq<Block>, pend: seq<seq<Block>>, done: set<Block>)

  ghost predicate PathOK(t: Tree, post: seq<Block>, w: Walk)
    requires post != []
  {
    && |w.pend| == |w.path| + 1
    && (forall i | 0 <= i < |w.path| :: w.path[i] in w.done)
    && (w.path != [] ==> w.path[0] == post[|post| - 1])
    && (forall i | 1 <= i < |w.path| :: LinkOK(t, w.path, i))
    && (forall x | x in w.pend[0] :: x == post[|post| - 1])
    && (forall i | 1 <= i < |w.pend| :: PendOK(t, post, w.path, w.pend, i))
  }

  ghost predicate LinkOK(t: Tree, path: seq<Block>, i: nat)
    requires 1 <= i < |path|
  {
    Child(t, path[i - 1], path[i])
  }

  ghost predicate PendOK(t: Tree, post: seq<Block>, path: seq<Block>, pend: seq<seq<Block>>, i: nat)
    requires 1 <= i < |pend| == |path| + 1
  {
    forall x | x in pend[i] :: x in post && Child(t, path[i - 1], x)
  }

  ghost predicate Pending(w: Walk, x: Block) {
    exists i | 0 <= i < |w.pend| :: x in w.pend[i]
  }

  ghost predicate WalkOK(t: Tree, post: seq<Block>, w: Walk) {
    && Ordered(t, post) && PathOK(t, post, w)
    && (forall i | 0 <= i < |w.pend| :: Unique(w.pend[i]))
    && (forall i, j, x | 0 <= i < j < |w.pend| && x in w.pend[i] :: x !in w.pend[j])
    && (forall b | b in w.done :: b in post)
    && (forall x, b | Pending(w, x) && b in w.done :: !Over(t, x, b))
    && (forall b | b in post :: b in w.done || Waiting(t, w, b))
  }

  /** Block `b` is below a block still to be visited. */
  ghost predicate Waiting(t: Tree, w: Walk, b: Block) {
    exists x :: Pending(w, x) && Over(t, x, b)
  }

  lemma PendingPost(t: Tree, post: seq<Block>, w: Walk, x: Block)
    requires WalkOK(t, post, w) && Pending(w, x)
    ensures x in post && x !in w.done
  {
    OverSelf(t, x);
    var i :| 0 <= i < |w.pend| && x in w.pend[i];
    if i > 0 {
      assert PendOK(t, post, w.path, w.pend, i);
    }
  }

  /** The block to be visited next. */
  ghost predicate Next(w: Walk, x: Block) {
    w.pend != [] && w.pend[|w.pend| - 1] != [] && w.pend[|w.pend| - 1][|w.pend[|w.pend| - 1]| - 1] == x
  }

  ghost function Init(s: seq<Block>): seq<Block> {
    if s == [] then [] else s[..|s| - 1]
  }

  ghost function Visited1(w: Walk, x: Block, kids: seq<Block>): Walk
    requires w.pend != []
  {
    Walk(w.path + [x], w.pend[|w.pend| - 1 := Init(w.pend[|w.pend| - 1])] + [kids], w.done + {x})
  }

  /** The dominators of the next block are the blocks being visited. */
  lemma {:induction false} PathOver(t: Tree, post: seq<Block>, w: Walk, i: nat, y: Block)
    requires WalkOK(t, post, w) && i < |w.path| && Over(t, y, w.path[i])
    ensures y in w.path[..i + 1]
    decreases i
  {
    if y != w.path[i] {
      if i == 0 {
        OverRoot(t, post, y);
      } else {
        assert LinkOK(t, w.path, i);
        OverParent(t, post, w.path[i - 1], w.path[i], y);
        PathOver(t, post, w, i - 1, y);
        assert w.path[..i] <= w.path[..i + 1];
      }
    }
  }

  lemma NextOver(t: Tree, post: seq<Block>, w: Walk, x: Block, y: Block)
    requires WalkOK(t, post, w) && Next(w, x) && Over(t, y, x) && y != x
    ensures y in w.path
  {
    var n := |w.pend| - 1;
    assert x in w.pend[n];
    if n == 0 {
      OverRoot(t, post, y);
    } else {
      assert PendOK(t, post, w.path, w.pend, n);
      OverParent(t, post, w.path[n - 1], x, y);
      PathOver(t, post, w, n - 1, y);
      assert w.path[..n] == w.path;
    }
  }

  /** Each block being visited is over those below it. */
  lemma {:induction false} PathChain(t: Tree, post: seq<Block>, w: Walk, i: nat, j: nat)
    requires WalkOK(t, post, w) && i <= j < |w.path|
    ensures Over(t, w.path[i], w.path[j])
    decreases j
  {
    if i == j {
      OverSelf(t, w.path[i]);
    } else {
      PathChain(t, post, w, i, j - 1);
      assert LinkOK(t, w.path, j) && w.path[j] in w.done;
      ChildOver(t, post, w.path[j - 1], w.path[j]);
      OverTrans(t, w.path[i], w.path[j - 1], w.path[j]);
    }
  }

  lemma PathAbove(t: Tree, post: seq<Block>, w: Walk, x: Block, i: nat)
    requires WalkOK(t, post, w) && Next(w, x) && i < |w.path|
    ensures Over(t, w.path[i], x) && w.path[i] != x
  {
    var n := |w.pend| - 1;
    assert x in w.pend[n];
    assert Pending(w, x);
    PendingPost(t, post, w, x);
    assert PendOK(t, post, w.path, w.pend, n);
    ChildOver(t, post, w.path[n - 1], x);
    PathChain(t, post, w, i, n - 1);
    OverTrans(t, w.path[i], w.path[n - 1], x);
  }

  // ----- visiting a block -----

  ghost predicate KidsOK(t: Tree, post: seq<Block>, x: Block, kids: seq<Block>) {
    Unique(kids) && forall k :: k in kids <==> k in post && Child(t, x, k)
  }

  /** A child of the next block is not pending yet. */
  lemma KidFresh(t: Tree, post: seq<Block>, w: Walk, x: Block, k: Block)
    requires WalkOK(t, post, w) && Next(w, x) && k in post && Child(t, x, k)
    ensures !Pending(w, k)
  {
    var n := |w.pend| - 1;
    assert x in w.pend[n];
    assert Pending(w, x);
    PendingPost(t, post, w, x);
    forall i | 0 <= i < |w.pend| ensures k !in w.pend[i] {
      if i == 0 {
        assert NodeOK(t, post[|post| - 1], post[|post| - 1]);
      } else {
        assert PendOK(t, post, w.path, w.pend, i) && w.path[i - 1] in w.done;
      }
    }
  }

  lemma PendingAfter(w: Walk, x: Block, kids: seq<Block>, y: Block)
    requires Next(w, x)
    ensures var w' := Visited1(w, x, kids);
            && (Pending(w', y) ==> Pending(w, y) || y in kids)
            && (Pending(w, y) && y != x ==> Pending(w', y)) && (y in kids ==> Pending(w', y))
  {
    var n, w' := |w.pend| - 1, Visited1(w, x, kids);
    var last := w.pend[n];
    assert last == Init(last) + [x];
    assert w'.pend[n] == Init(last) && w'.pend[n + 1] == kids;
    if Pending(w', y) {
      var i :| 0 <= i < |w'.pend| && y in w'.pend[i];
      if i < n {
        assert w'.pend[i] == w.pend[i];
      } else if i == n {
        assert y in last;
      }
    }
    if Pending(w, y) && y != x {
      var i :| 0 <= i < |w.pend| && y in w.pend[i];
      assert y in w'.pend[i];
    }
  }

  /** The next block is no longer pending once it is visited. */
  lemma NextOnce(t: Tree, post: seq<Block>, w: Walk, x: Block, kids: seq<Block>)
    requires WalkOK(t, post, w) && Next(w, x) && KidsOK(t, post, x, kids)
    ensures !Pending(Visited1(w, x, kids), x)
  {
    var n, w' := |w.pend| - 1, Visited1(w, x, kids);
    var last := w.pend[n];
    assert last == Init(last) + [x] && x in last;
    assert Pending(w, x);
    PendingPost(t, post, w, x);
    forall i | 0 <= i < |w'.pend| ensures x !in w'.pend[i] {
      if i < n {
        assert w'.pend[i] == w.pend[i];
      } else if i == n {
        assert Unique(last) && w'.pend[i] == last[..|last| - 1];
      } else if x in kids {
        ChildOver(t, post, x, x);
      }
    }
  }

  lemma VisitPath(t: Tree, post: seq<Block>, w: Walk, x: Block, kids: seq<Block>)
    requires WalkOK(t, post, w) && Next(w, x) && KidsOK(t, post, x, kids)
    ensures PathOK(t, post, Visited1(w, x, kids))
  {
    var n, w' := |w.pend| - 1, Visited1(w, x, kids);
    var last := w.pend[n];
    assert last == Init(last) + [x] && x in last;
    forall i | 1 <= i < |w'.path| ensures LinkOK(t, w'.path, i) {
      if i < |w.path| {
        assert LinkOK(t, w.path, i);
      } else {
        assert PendOK(t, post, w.path, w.pend, n);
      }
    }
    forall i | 1 <= i < |w'.pend| ensures PendOK(t, post, w'.path, w'.pend, i) {
      if i <= n {
        assert PendOK(t, post, w.path, w.pend, i);
        assert w'.path[i - 1] == w.path[i - 1];
        assert forall y | y in w'.pend[i] :: y in w.pend[i];
      }
    }
    assert forall y | y in w'.pend[0] :: y in w.pend[0];
  }

  lemma VisitUnique(t: Tree, post: seq<Block>, w: Walk, x: Block, kids: seq<Block>)
    requires WalkOK(t, post, w) && Next(w, x) && KidsOK(t, post, x, kids)
    ensures var w' := Visited1(w, x, kids);
            && (forall i | 0 <= i < |w'.pend| :: Unique(w'.pend[i]))
            && (forall i, j, y | 0 <= i < j < |w'.pend| && y in w'.pend[i] :: y !in w'.pend[j])
  {
    var n, w' := |w.pend| - 1, Visited1(w, x, kids);
    var last := w.pend[n];
    assert last == Init(last) + [x];
    forall i | 0 <= i < |w'.pend| ensures Unique(w'.pend[i]) {
      assert i == n ==> w'.pend[i] == Init(last) && Unique(last);
    }
    forall i, j, y | 0 <= i < j < |w'.pend| && y in w'.pend[i] ensures y !in w'.pend[j] {
      assert y in w.pend[i];
      if j == n + 1 && y in kids {
        KidFresh(t, post, w, x, y);
      }
    }
  }

  lemma VisitApart(t: Tree, post: seq<Block>, w: Walk, x: Block, kids: seq<Block>, y: Block, b: Block)
    requires WalkOK(t, post, w) && Next(w, x) && KidsOK(t, post, x, kids)
    requires Pending(Visited1(w, x, kids), y) && b in w.done + {x}
    ensures !Over(t, y, b)
  {
    PendingAfter(w, x, kids, y);
    NextOnce(t, post, w, x, kids);
    var n := |w.pend| - 1;
    assert x in w.pend[n];
    assert Pending(w, x);
    if Over(t, y, b) {
      if y in kids {
        ChildOver(t, post, x, y);
        OverTrans(t, x, y, b);
      } else if b == x {
        NextOver(t, post, w, x, y);
        OverSelf(t, y);
      }
    }
  }

  lemma VisitCovers(t: Tree, post: seq<Block>, w: Walk, x: Block, kids: seq<Block>, b: Block)
    requires WalkOK(t, post, w) && Next(w, x) && KidsOK(t, post, x, kids) && b in post && b !in w.done + {x}
    ensures Waiting(t, Visited1(w, x, kids), b)
  {
    assert Waiting(t, w, b);
    var y :| Pending(w, y) && Over(t, y, b);
    PendingAfter(w, x, kids, y);
    if y == x {
      var k := UnderChild(t, post, x, b);
      PendingAfter(w, x, kids, k);
    }
  }

  /** Visiting the next block: it was not visited before, and its children are to be visited instead of it. */
  lemma VisitStep(t: Tree, post: seq<Block>, w: Walk, x: Block, kids: seq<Block>)
    requires WalkOK(t, post, w) && Next(w, x) && KidsOK(t, post, x, kids)
    ensures x in post && x !in w.done && WalkOK(t, post, Visited1(w, x, kids))
  {
    hide Over, PathOK, Unique, KidsOK;
    var w' := Visited1(w, x, kids);
    assert Pending(w, x) by { NextPending(w, x); }
    PendingPost(t, post, w, x);
    VisitPath(t, post, w, x, kids);
    VisitUnique(t, post, w, x, kids);
    forall y, b | Pending(w', y) && b in w'.done ensures !Over(t, y, b) {
      VisitApart(t, post, w, x, kids, y, b);
    }
    forall b | b in post ensures b in w'.done || Waiting(t, w', b) {
      if b !in w'.done {
        VisitCovers(t, post, w, x, kids, b);
      }
    }
  }

  lemma NextPending(w: Walk, x: Block)
    requires Next(w, x)
    ensures Pending(w, x)
  {
    assert x in w.pend[|w.pend| - 1];
  }

  /** Leaving a block all of whose children were visited. */
  lemma PopStep(t: Tree, post: seq<Block>, w: Walk)
    requires WalkOK(t, post, w) && w.path != [] && w.pend[|w.pend| - 1] == []
    ensures WalkOK(t, post, Popped(w))
  {
    hide Over;
    var w' := Popped(w);
    forall x ensures Pending(w', x) <==> Pending(w, x) {
      if Pending(w, x) {
        var i :| 0 <= i < |w.pend| && x in w.pend[i];
        assert x in w'.pend[i];
      }
    }
    forall i | 1 <= i < |w'.path| ensures LinkOK(t, w'.path, i) {
      assert LinkOK(t, w.path, i);
    }
    forall i | 1 <= i < |w'.pend| ensures PendOK(t, post, w'.path, w'.pend, i) {
      assert PendOK(t, post, w.path, w.pend, i);
    }
    forall b | b in post ensures b in w'.done || Waiting(t, w', b) {
      if b !in w.done {
        assert Waiting(t, w, b);
        var x :| Pending(w, x) && Over(t, x, b);
        assert Pending(w', x);
      }
    }
  }

  ghost function Popped(w: Walk): Walk
    requires w.path != [] && w.pend != []
  {
    Walk(w.path[..|w.path| - 1], w.pend[..|w.pend| - 1], w.done)
  }

  lemma WalkStart(t: Tree, post: seq<Block>)
    requires Ordered(t, post)
    ensures WalkOK(t, post, Walk([], [[post[|post| - 1]]], {}))
  {
    hide Over, Shape, Numbered;
    var w := Walk([], [[post[|post| - 1]]], {});
    assert w.pend[0] == [post[|post| - 1]];
    forall b | b in post ensures Waiting(t, w, b) {
      var j :| 0 <= j < |post| && post[j] == b;
      RootOver(t, post, j);
      assert post[|post| - 1] in w.pend[0];
      assert Pending(w, post[|post| - 1]);
    }
  }

  /** At the end, every block was visited. */
  lemma WalkEnd(t: Tree, post: seq<Block>, w: Walk, b: Block)
    requires WalkOK(t, post, w) && w.path == [] && w.pend == [[]] && b in post
    ensures b in w.done
  {
    assert forall i | 0 <= i < |w.pend| :: w.pend[i] == [];
    assert forall x :: !Pending(w, x);
  }

  // ----- the stack -----

  ghost function Visits(s: seq<Block>): (r: seq<StackEntry>)
    ensures |r| == |s| && forall i | 0 <= i < |s| :: r[i] == Visit(s[i])
  {
    seq(|s|, i requires 0 <= i < |s| => Visit(s[i]))
  }

  /** The stack of a walk. */
  ghost function Lay(path: seq<Block>, pend: seq<seq<Block>>): seq<StackEntry>
    requires |pend| == |path| + 1
    decreases |path|
  {
    if path == [] then Visits(pend[0])
    else Lay(path[..|path| - 1], pend[..|pend| - 1]) + [Pop] + Visits(pend[|pend| - 1])
  }

  lemma LayStart(b: Block)
    ensures Lay([], [[b]]) == [Visit(b)]
  {
  }

  lemma LayVisit(w: Walk, x: Block, kids: seq<Block>)
    requires |w.pend| == |w.path| + 1 && Next(w, x)
    ensures var w' := Visited1(w, x, kids); var s := Lay(w.path, w.pend);
            s != [] && s[|s| - 1] == Visit(x) && Lay(w'.path, w'.pend) == s[..|s| - 1] + [Pop] + Visits(kids)
  {
    var n, w' := |w.pend| - 1, Visited1(w, x, kids);
    var last := w.pend[n];
    assert Visits(last) == Visits(Init(last)) + [Visit(x)];
    assert w'.path[..|w'.path| - 1] == w.path;
    var pend := w'.pend[..|w'.pend| - 1];
    assert pend[n] == Init(last) && pend[..n] == w.pend[..n];
  }

  lemma LayPop(w: Walk)
    requires |w.pend| == |w.path| + 1 && w.path != [] && w.pend[|w.pend| - 1] == []
    ensures var s := Lay(w.path, w.pend);
              s != [] && s[|s| - 1] == Pop && Lay(Popped(w).path, Popped(w).pend) == s[..|s| - 1]
  {
  }

  lemma LayTop(w: Walk)
    requires |w.pend| == |w.path| + 1
    ensures var s := Lay(w.path, w.pend);
            if w.pend[|w.pend| - 1] != [] then s != [] && s[|s| - 1].Visit? && Next(w, s[|s| - 1].block)
            else if w.path != [] then s != [] && s[|s| - 1].Pop?
            else s == []
  {
  }
}
