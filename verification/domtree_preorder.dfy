/** Constant-time dominance checks by pre-order numbers. */
module DomtreePreorder {
  import opened Options
  import opened DomtreePaths
  import opened DomtreeTree
  import opened DomtreePass
  import opened DomtreeOrder
  import opened Domtree

  datatype ExtraNode = ExtraNode(child: Option<Block>, sibling: Option<Block>, preNumber: nat, preMax: nat)

  type Extra = seq<ExtraNode>

  // ----- lists of children -----

  /** The list that starts at `start` holds the children of `a` among the first `k` of the
  post-order, last ones first. */
  ghost predicate ListOf(e: Extra, t: Tree, post: seq<Block>, start: Option<Block>, k: nat, a: Block)
    requires k <= |post|
    decreases k
  {
    if k == 0 then start == None
    else if Kid(t, post, k - 1, a) then
      start == Some(post[k - 1]) && post[k - 1] < |e| && ListOf(e, t, post, e[post[k - 1]].sibling, k - 1, a)
    else ListOf(e, t, post, start, k - 1, a)
  }

  ghost predicate SiblingsKept(e: Extra, e': Extra, post: seq<Block>, k: nat)
    requires k <= |post|
  {
    |e'| == |e| && forall i | 0 <= i < k :: post[i] < |e| ==> e'[post[i]].sibling == e[post[i]].sibling
  }

  lemma {:induction false} ListKept(e: Extra, e': Extra, t: Tree, post: seq<Block>, start: Option<Block>, k: nat,
      a: Block)
    requires k <= |post| && ListOf(e, t, post, start, k, a) && SiblingsKept(e, e', post, k)
    ensures ListOf(e', t, post, start, k, a)
    decreases k
  {
    if k > 0 {
      if Kid(t, post, k - 1, a) {
        ListKept(e, e', t, post, e[post[k - 1]].sibling, k - 1, a);
      } else {
        ListKept(e, e', t, post, start, k - 1, a);
      }
    }
  }

  /** The head of a list, and what its pre-order starts with. */
  lemma {:induction false} ListHead(e: Extra, t: Tree, post: seq<Block>, start: Option<Block>, k: nat, a: Block)
      returns (m: nat)
    requires k <= |post| && ListOf(e, t, post, start, k, a)
    ensures start.None? ==> PreKids(t, post, k, a) == []
    ensures start.Some? ==>
              m < k && Kid(t, post, m, a) && start.value == post[m] < |e|
              && ListOf(e, t, post, e[post[m]].sibling, m, a)
    ensures start.Some? ==> PreKids(t, post, k, a) == PreAt(t, post, m) + PreKids(t, post, m, a)
    decreases k
  {
    hide PreAt;
    m := 0;
    if k > 0 {
      m := k - 1;
      if !Kid(t, post, k - 1, a) {
        m := ListHead(e, t, post, start, k - 1, a);
        assert [] + PreKids(t, post, k - 1, a) == PreKids(t, post, k - 1, a);
      }
    }
  }

  /** The children of `a` among the first `k` of the post-order, in reverse post-order. */
  ghost function Kids(t: Tree, post: seq<Block>, k: nat, a: Block): seq<Block>
    requires k <= |post|
  {
    if k == 0 then [] else (if Kid(t, post, k - 1, a) then [post[k - 1]] else []) + Kids(t, post, k - 1, a)
  }

  lemma {:induction false} KidsMember(t: Tree, post: seq<Block>, k: nat, a: Block, b: Block)
    requires Ordered(t, post) && k <= |post|
    ensures b in Kids(t, post, k, a) <==> b in post[..k] && b < |t| && t[b].idom.Some? && t[b].idom.value.block == a
    decreases k
  {
    if k > 0 {
      KidsMember(t, post, k - 1, a, b);
      assert post[..k] == post[..k - 1] + [post[k - 1]];
    }
  }

  lemma {:induction false} KidsOrder(t: Tree, post: seq<Block>, k: nat, a: Block)
    requires Ordered(t, post) && k <= |post|
    ensures forall i, j | 0 <= i < j < |Kids(t, post, k, a)| ::
            Rpo(t, Kids(t, post, k, a)[i]) < Rpo(t, Kids(t, post, k, a)[j])
    decreases k
  {
    if k > 0 {
      KidsOrder(t, post, k - 1, a);
      var rest := Kids(t, post, k - 1, a);
      forall j | 0 <= j < |rest| ensures Rpo(t, post[k - 1]) < Rpo(t, rest[j]) {
        KidsMember(t, post, k - 1, a, rest[j]);
        var i :| 0 <= i < k - 1 && post[i] == rest[j];
      }
    }
  }

  // ----- linking -----

  /** The first `k` blocks of the post-order have been put in front of the lists of their parents. */
  ghost predicate LinkedUpTo(e: Extra, t: Tree, post: seq<Block>, k: nat)
    requires k <= |post|
  {
    |e| == |t| && forall a | 0 <= a < |e| :: ListOf(e, t, post, e[a].child, k, a)
  }

  lemma LinkNone(e: Extra, t: Tree, post: seq<Block>)
    requires |e| == |t| && forall a | 0 <= a < |e| :: e[a] == ExtraNode(None, None, 0, 0)
    ensures LinkedUpTo(e, t, post, 0)
  {
  }

  lemma LinkStep(e: Extra, e': Extra, t: Tree, post: seq<Block>, k: nat)
    requires Ordered(t, post) && k < |post| && LinkedUpTo(e, t, post, k)
    requires post[k] < |t| && t[post[k]].idom.Some? ==>
               var a := t[post[k]].idom.value.block;
               && a < |e| && post[k] != a
               && e' == e[a := e[a].(child := Some(post[k]))][post[k] := e[post[k]].(sibling := e[a].child)]
    requires post[k] >= |t| || t[post[k]].idom.None? ==> e' == e
    ensures LinkedUpTo(e', t, post, k + 1)
  {
    forall a | 0 <= a < |e| ensures ListOf(e', t, post, e'[a].child, k + 1, a) {
      assert ListOf(e, t, post, e[a].child, k, a);
      ListKept(e, e', t, post, e[a].child, k, a);
    }
  }

  // ----- numbering -----

  /** A block of the stack: `post[i]`, followed by the children of `a` among the first `k`. */
  datatype Work = Work(i: nat, k: nat, a: Block)

  ghost predicate WorkOK(e: Extra, t: Tree, post: seq<Block>, block: Block, w: Work) {
    && w.i < |post| && w.k <= |post| && block == post[w.i] < |e|
    && ListOf(e, t, post, e[block].sibling, w.k, w.a)
  }

  ghost predicate StackOK(e: Extra, t: Tree, post: seq<Block>, stack: seq<Block>, work: seq<Work>) {
    |stack| == |work| && forall j | 0 <= j < |work| :: WorkOK(e, t, post, stack[j], work[j])
  }

  /** The pre-order that the stack stands for, from its top down. */
  ghost function Todo(t: Tree, post: seq<Block>, work: seq<Work>): seq<Block> {
    if work == [] then [] else
      var w := work[|work| - 1];
      if w.i >= |post| || w.k > |post| then [] else
      PreAt(t, post, w.i) + PreKids(t, post, w.k, w.a) + Todo(t, post, work[..|work| - 1])
  }

  ghost predicate NumbersUpTo(e: Extra, f: seq<Block>, n: nat)
    requires n <= |f|
  {
    forall j | 0 <= j < n :: f[j] < |e| && e[f[j]].preNumber == j + 1 && e[f[j]].preMax == j + 1
  }

  function Pushed(b: Option<Block>): seq<Block> {
    if b.Some? then [b.value] else []
  }

  /** Pushing a list puts its pre-order in front. */
  lemma Push(e: Extra, t: Tree, post: seq<Block>, stack: seq<Block>, work: seq<Work>, start: Option<Block>, k: nat,
      a: Block) returns (work': seq<Work>)
    requires StackOK(e, t, post, stack, work) && k <= |post| && ListOf(e, t, post, start, k, a)
    ensures StackOK(e, t, post, stack + Pushed(start), work')
    ensures Todo(t, post, work') == PreKids(t, post, k, a) + Todo(t, post, work)
  {
    hide ListOf, PreKids, PreAt;
    var m := ListHead(e, t, post, start, k, a);
    if start.Some? {
      work' := work + [Work(m, m, a)];
      assert work'[..|work|] == work;
    } else {
      work' := work;
      assert stack + [] == stack && [] + Todo(t, post, work) == Todo(t, post, work);
    }
  }

  lemma StackKept(e: Extra, e': Extra, t: Tree, post: seq<Block>, stack: seq<Block>, work: seq<Work>)
    requires StackOK(e, t, post, stack, work) && |e'| == |e| && forall b | 0 <= b < |e| :: e'[b].sibling == e[b].sibling
    ensures StackOK(e', t, post, stack, work)
  {
    hide ListOf;
    forall j | 0 <= j < |work| ensures WorkOK(e', t, post, stack[j], work[j]) {
      assert WorkOK(e, t, post, stack[j], work[j]);
      ListKept(e, e', t, post, e[stack[j]].sibling, work[j].k, work[j].a);
    }
  }

  lemma ChildList(e: Extra, t: Tree, post: seq<Block>, b: Block)
    requires LinkedUpTo(e, t, post, |post|) && b < |e|
    ensures ListOf(e, t, post, e[b].child, |post|, b)
  {
  }

  /** Popping a block and pushing its sibling and its child. */
  lemma StackStep(e: Extra, t: Tree, post: seq<Block>, stack: seq<Block>, work: seq<Work>, b: Block)
      returns (work': seq<Work>)
    requires Ordered(t, post) && StackOK(e, t, post, stack + [b], work) && LinkedUpTo(e, t, post, |post|) && b < |e|
    ensures StackOK(e, t, post, stack + Pushed(e[b].sibling) + Pushed(e[b].child), work')
    ensures Todo(t, post, work) == [b] + Todo(t, post, work')
  {
    hide ListOf, PreKids, Ordered, LinkedUpTo;
    var w, base := work[|work| - 1], work[..|work| - 1];
    ChildList(e, t, post, b);
    assert WorkOK(e, t, post, (stack + [b])[|stack|], w);
    forall j | 0 <= j < |base| ensures WorkOK(e, t, post, stack[j], base[j]) {
      assert WorkOK(e, t, post, (stack + [b])[j], work[j]);
    }
    var work1 := Push(e, t, post, stack, base, e[b].sibling, w.k, w.a);
    work' := Push(e, t, post, stack + Pushed(e[b].sibling), work1, e[b].child, |post|, b);
    KidsBelow(t, post, w.i, |post|);
  }

  // ----- the greatest number of a sub-tree -----

  /** The number of `post[p]` says where its sub-tree starts in the pre-order of the whole tree. */
  ghost predicate Placed(e: Extra, t: Tree, post: seq<Block>, p: nat)
    requires p < |post|
  {
    && post[p] < |e| && e[post[p]].preNumber >= 1
    && Stretch(PreAt(t, post, |post| - 1), e[post[p]].preNumber - 1, PreAt(t, post, p))
  }

  lemma NumbersPlace(e: Extra, t: Tree, post: seq<Block>, p: nat)
    requires Ordered(t, post) && p < |post|
    requires var f := PreAt(t, post, |post| - 1); NumbersUpTo(e, f, |f|)
    ensures Placed(e, t, post, p) && e[post[p]].preMax == e[post[p]].preNumber
  {
    hide Stretch, Shape, Numbered;
    RootOver(t, post, p);
    OverPre(t, post, |post| - 1, p);
    var o := SubStretch(t, post, |post| - 1, p);
    StretchAt(PreAt(t, post, |post| - 1), o, PreAt(t, post, p), 0);
  }

  /** After the first `k` blocks of the post-order: the greatest number below a block is known as soon
  as one of its children was seen. */
  ghost predicate MaxAt(e: Extra, t: Tree, post: seq<Block>, k: nat, p: nat)
    requires k <= |post| && p < |post|
  {
    && Placed(e, t, post, p)
    && e[post[p]].preMax == e[post[p]].preNumber + if PreKids(t, post, k, post[p]) == [] then 0
        else |PreAt(t, post, p)| - 1
  }

  lemma ChildPlace(e: Extra, t: Tree, post: seq<Block>, j: nat, p: nat)
    requires Ordered(t, post) && p < |post| && Kid(t, post, j, post[p]) && Placed(e, t, post, p)
             && Placed(e, t, post, j)
    ensures e[post[j]].preNumber + |PreAt(t, post, j)| <= e[post[p]].preNumber + |PreAt(t, post, p)|
    ensures PreKids(t, post, j, post[p]) == [] ==>
              e[post[j]].preNumber + |PreAt(t, post, j)| == e[post[p]].preNumber + |PreAt(t, post, p)|
  {
    hide Stretch, PreKids, Shape, Numbered;
    var f, a := PreAt(t, post, |post| - 1), post[p];
    var q := ParentIndex(t, post, j, a);
    var o := KidStretch(t, post, p, a, j);
    var at := e[a].preNumber - 1;
    StretchAt(PreKids(t, post, p, a), o, PreAt(t, post, j), 0);
    StretchAt(f, at, PreAt(t, post, p), 1 + o);
    StretchAt(f, e[post[j]].preNumber - 1, PreAt(t, post, j), 0);
    PreUnique(t, post, |post| - 1);
    assert f[at + (1 + o)] == post[j];
  }

  lemma MaxStep(e: Extra, e': Extra, t: Tree, post: seq<Block>, j: nat, p: nat)
    requires Ordered(t, post) && j < |post| && p < |post| && |e| == |t|
             && (forall q | 0 <= q < |post| :: MaxAt(e, t, post, j, q))
    requires t[post[j]].idom.Some? ==>
               var a := t[post[j]].idom.value.block;
               a < |e| && e' == e[a := e[a].(preMax := Max(e[post[j]].preMax, e[a].preMax))]
    requires t[post[j]].idom.None? ==> e' == e
    ensures MaxAt(e', t, post, j + 1, p)
  {
    hide PreAt, Stretch, Shape, PreKids;
    KidsSplit(t, post, j + 1, post[p]);
    assert MaxAt(e, t, post, j, p) && MaxAt(e, t, post, j, j);
    if Kid(t, post, j, post[p]) {
      ChildPlace(e, t, post, j, p);
      KidSize(t, post, j);
    } else {
      assert [] + PreKids(t, post, j, post[p]) == PreKids(t, post, j, post[p]);
    }
  }

  function Max(a: nat, b: nat): nat {
    if a > b then a else b
  }

  lemma KidSize(t: Tree, post: seq<Block>, j: nat)
    requires j < |post|
    ensures |PreAt(t, post, j)| == 1 + |PreKids(t, post, j, post[j])|
  {
  }

  // ----- putting it together -----

  lemma TreeOrdered(t: Tree, post: seq<Block>, cfg: Cfg)
    requires PostOrder(cfg, post) && post != [] && Numbered(t, post, 0) && Sound(t, cfg)
    ensures Ordered(t, post)
  {
    hide Reachable;
  }

  lemma NumberStart(e: Extra, t: Tree, post: seq<Block>)
    requires Ordered(t, post) && LinkedUpTo(e, t, post, |post|) && e[post[|post| - 1]].sibling == None
    ensures StackOK(e, t, post, [post[|post| - 1]], [Work(|post| - 1, 0, 0)])
    ensures var f := PreAt(t, post, |post| - 1);
              Todo(t, post, [Work(|post| - 1, 0, 0)]) == f[0..] && NumbersUpTo(e, f, 0)
  {
    hide Shape;
    assert Todo(t, post, []) == [];
    assert [Work(|post| - 1, 0, 0)][..0] == [];
  }

  lemma StackTop(e: Extra, t: Tree, post: seq<Block>, stack: seq<Block>, work: seq<Work>)
    requires StackOK(e, t, post, stack, work) && stack != []
    ensures stack[|stack| - 1] < |e| && stack[|stack| - 1] in post && stack ==
            stack[..|stack| - 1] + [stack[|stack| - 1]]
  {
    assert WorkOK(e, t, post, stack[|stack| - 1], work[|stack| - 1]);
  }

  lemma StackDone(e: Extra, t: Tree, post: seq<Block>, work: seq<Work>)
    requires StackOK(e, t, post, [], work)
    ensures Todo(t, post, work) == []
  {
  }

  lemma DropHead(f: seq<Block>, n: nat, b: Block, rest: seq<Block>)
    requires n <= |f| && f[n..] == [b] + rest
    ensures n < |f| && f[n] == b && f[n + 1..] == rest
  {
    assert f[n..][0] == b && f[n..][1..] == f[n + 1..];
  }

  lemma NumberOne(e: Extra, f: seq<Block>, n: nat)
    requires n < |f| && Unique(f) && NumbersUpTo(e, f, n) && f[n] < |e|
    ensures NumbersUpTo(e[f[n] := e[f[n]].(preNumber := n + 1, preMax := n + 1)], f, n + 1)
  {
  }

  /** One round of numbering: the block on top of the stack is the next one of the pre-order `f`. */
  lemma NumberRound(e: Extra, t: Tree, post: seq<Block>, f: seq<Block>, n: nat, stack: seq<Block>, work: seq<Work>)
      returns (work': seq<Work>)
    requires Ordered(t, post) && n <= |f| && Unique(f) && NumbersUpTo(e, f, n) && LinkedUpTo(e, t, post, |post|)
    requires stack != [] && StackOK(e, t, post, stack, work) && f[n..] == Todo(t, post, work)
    ensures var b := stack[|stack| - 1];
            && b < |e| && b in post && n < |f|
            && var e' := e[b := e[b].(preNumber := n + 1, preMax := n + 1)];
            && NumbersUpTo(e', f, n + 1) && LinkedUpTo(e', t, post, |post|) && f[n + 1..] == Todo(t, post, work')
            && StackOK(e', t, post, stack[..|stack| - 1] + Pushed(e[b].sibling) + Pushed(e[b].child), work')
  {
    hide Ordered, ListOf, LinkedUpTo, StackOK, Todo, NumbersUpTo, Unique, Pushed;
    var b, below := stack[|stack| - 1], stack[..|stack| - 1];
    StackTop(e, t, post, stack, work);
    work' := StackStep(e, t, post, below, work, b);
    DropHead(f, n, b, Todo(t, post, work'));
    NumberOne(e, f, n);
    var e' := e[b := e[b].(preNumber := n + 1, preMax := n + 1)];
    StackKept(e, e', t, post, below + Pushed(e[b].sibling) + Pushed(e[b].child), work');
    LinksKept(e, e', t, post);
  }

  /** Unreachable blocks have no numbers. */
  ghost predicate Unnumbered(e: Extra, post: seq<Block>) {
    forall b | 0 <= b < |e| && b !in post :: e[b].preNumber == 0 && e[b].preMax == 0
  }

  lemma LinkedSize(e: Extra, t: Tree, post: seq<Block>)
    requires LinkedUpTo(e, t, post, |post|)
    ensures |e| == |t|
  {
  }

  lemma LinksKept(e: Extra, e': Extra, t: Tree, post: seq<Block>)
    requires LinkedUpTo(e, t, post, |post|)
    requires |e'| == |e| && forall b | 0 <= b < |e| :: e'[b].sibling == e[b].sibling && e'[b].child == e[b].child
    ensures LinkedUpTo(e', t, post, |post|)
  {
    hide ListOf;
    forall a | 0 <= a < |e| ensures ListOf(e', t, post, e'[a].child, |post|, a) {
      ListKept(e, e', t, post, e[a].child, |post|, a);
    }
  }

  /** One block is over another exactly when its interval of numbers contains the other's. */
  lemma Intervals(e: Extra, t: Tree, post: seq<Block>, i: nat, j: nat)
    requires Ordered(t, post) && i < |post| && j < |post| && MaxAt(e, t, post, |post|, i)
             && MaxAt(e, t, post, |post|, j)
    ensures Over(t, post[i], post[j]) <==>
            e[post[i]].preNumber <= e[post[j]].preNumber && e[post[i]].preMax >= e[post[j]].preMax
  {
    hide Stretch, PreKids, Shape, Numbered, Over;
    var f, a, b := PreAt(t, post, |post| - 1), post[i], post[j];
    var s, r := PreAt(t, post, i), PreAt(t, post, j);
    KidsBelow(t, post, i, |post|);
    KidsBelow(t, post, j, |post|);
    var oa, ob := e[a].preNumber - 1, e[b].preNumber - 1;
    assert e[a].preMax == oa + |s| && e[b].preMax == ob + |r|;
    StretchAt(f, ob, r, 0);
    if Over(t, a, b) {
      OverPre(t, post, i, j);
      var o := SubStretch(t, post, i, j);
      StretchSize(s, o, r);
      StretchAt(s, o, r, 0);
      StretchAt(f, oa, s, o);
      PreUnique(t, post, |post| - 1);
      assert f[oa + o] == b == f[ob];
    } else if oa <= ob && oa + |s| >= ob + |r| {
      StretchAt(f, oa, s, ob - oa);
      PreOver(t, post, i, b);
    }
  }

  lemma {:induction false} KidsHead(e: Extra, t: Tree, post: seq<Block>, start: Option<Block>, k: nat, a: Block, m: nat)
    requires k <= |post| && ListOf(e, t, post, start, k, a) && start.Some?
    requires m < k && Kid(t, post, m, a) && start.value == post[m] && Unique(post)
    ensures Kids(t, post, k, a) == [post[m]] + Kids(t, post, m, a)
    decreases k
  {
    if !Kid(t, post, k - 1, a) {
      KidsHead(e, t, post, start, k - 1, a, m);
      assert [] + Kids(t, post, k - 1, a) == Kids(t, post, k - 1, a);
    }
  }

  lemma {:induction false} KidsNone(e: Extra, t: Tree, post: seq<Block>, k: nat, a: Block)
    requires k <= |post| && ListOf(e, t, post, None, k, a)
    ensures Kids(t, post, k, a) == []
    decreases k
  {
    if k > 0 {
      KidsNone(e, t, post, k - 1, a);
    }
  }

  // ----- the index -----

  function NumberOf(e: Extra, b: Block): nat {
    if b < |e| then e[b].preNumber else 0
  }

  function MaxOf(e: Extra, b: Block): nat {
    if b < |e| then e[b].preMax else 0
  }

  ghost predicate Indexed(e: Extra, t: Tree, post: seq<Block>) {
    (post != [] ==> Ordered(t, post)) && (forall p | 0 <= p < |post| :: MaxAt(e, t, post, |post|, p))
        && Unnumbered(e, post)
  }

  /** A block has a number if and only if it is reachable. */
  lemma NumberReachable(e: Extra, t: Tree, post: seq<Block>, b: Block)
    requires Indexed(e, t, post)
    ensures NumberOf(e, b) > 0 <==> b in post
    ensures MaxOf(e, b) > 0 <==> b in post
  {
    hide PreKids, PreAt, Stretch;
    if b in post {
      var i :| 0 <= i < |post| && post[i] == b;
      assert MaxAt(e, t, post, |post|, i);
    }
  }

  class DominatorTreePreorder {
    var nodes: Extra
    var stack: seq<Block>

    /** The index matches the tree `t` on the blocks of `post`. */
    ghost predicate Valid(t: Tree, post: seq<Block>)
      reads this
    {
      |nodes| == |t| && LinkedUpTo(nodes, t, post, |post|) && Indexed(nodes, t, post)
    }

    constructor ()
      ensures nodes == [] && stack == []
    {
      nodes, stack := [], [];
    }

    /** Recompute the index to match `domtree`. */
    method Compute(domtree: DominatorTree, ghost cfg: Cfg)
      requires domtree.Valid(cfg) && stack == []
      modifies this
      ensures Valid(domtree.nodes, domtree.postorder) && stack == []
    {
      hide Numbered, Sound, AllBelow, PostOrder, Reachable, CfgOK;
      nodes := seq(|domtree.nodes|, i => ExtraNode(None, None, 0, 0));
      if domtree.postorder != [] {
        TreeOrdered(domtree.nodes, domtree.postorder, cfg);
      } else {
        LinkNone(nodes, domtree.nodes, domtree.postorder);
      }
      Link(domtree.nodes, domtree.postorder);
      Number(domtree.nodes, domtree.postorder);
      Propagate(domtree.nodes, domtree.postorder);
    }

    /** Link children and siblings; push the blocks without an immediate dominator. */
    method Link(t: Tree, post: seq<Block>)
      requires (post != [] ==> Ordered(t, post)) && stack == []
      requires |nodes| == |t| && forall a | 0 <= a < |nodes| :: nodes[a] == ExtraNode(None, None, 0, 0)
      modifies this
      ensures LinkedUpTo(nodes, t, post, |post|) && stack == (if post == [] then [] else [post[|post| - 1]])
      ensures post != [] ==> nodes[post[|post| - 1]].sibling == None
      ensures Unnumbered(nodes, post)
    {
      hide LinkedUpTo;
      LinkNone(nodes, t, post);
      var k := 0;
      while k < |post|
        invariant 0 <= k <= |post| && |nodes| == |t| && LinkedUpTo(nodes, t, post, k)
        invariant stack == if k == |post| && post != [] then [post[|post| - 1]] else []
        invariant post != [] ==> nodes[post[|post| - 1]].sibling == None
        invariant Unnumbered(nodes, post)
      {
        var block := post[k];
        ghost var e := nodes;
        assert NodeOK(t, post[|post| - 1], block);
        match t[block].idom {
          case Some(inst) =>
            var idom := inst.block;
            ghost var p := ParentIndex(t, post, k, idom);
            var sib := nodes[idom].child;
            nodes := nodes[idom := nodes[idom].(child := Some(block))];
            nodes := nodes[block := nodes[block].(sibling := sib)];
          case None =>
            stack := stack + [block];
        }
        LinkStep(e, nodes, t, post, k);
        k := k + 1;
      }
    }

    /** Number the blocks in pre-order, from a stack. */
    method Number(t: Tree, post: seq<Block>)
      requires (post != [] ==> Ordered(t, post)) && LinkedUpTo(nodes, t, post, |post|)
      requires stack == (if post == [] then [] else [post[|post| - 1]])
               && (post != [] ==> nodes[post[|post| - 1]].sibling == None)
      requires Unnumbered(nodes, post)
      modifies this
      ensures LinkedUpTo(nodes, t, post, |post|) && stack == [] && Unnumbered(nodes, post)
      ensures post != [] ==> var f := PreAt(t, post, |post| - 1); NumbersUpTo(nodes, f, |f|)
    {
      hide PreAt, PreKids, Ordered, ListOf, LinkedUpTo, StackOK, Todo, NumbersUpTo, Unique, Pushed;
      if post == [] {
        return;
      }
      ghost var f, work := PreAt(t, post, |post| - 1), [Work(|post| - 1, 0, 0)];
      NumberStart(nodes, t, post);
      PreUnique(t, post, |post| - 1);
      var n := 0;
      while stack != []
        invariant n <= |f| && NumbersUpTo(nodes, f, n) && LinkedUpTo(nodes, t, post, |post|)
        invariant StackOK(nodes, t, post, stack, work) && f[n..] == Todo(t, post, work) && Unnumbered(nodes, post)
        decreases |f| - n
      {
        work := NumberRound(nodes, t, post, f, n, stack, work);
        var block := stack[|stack| - 1];
        stack := stack[..|stack| - 1];
        n := n + 1;
        nodes := nodes[block := nodes[block].(preNumber := n, preMax := n)];
        stack := stack + Pushed(nodes[block].sibling) + Pushed(nodes[block].child);
      }
      StackDone(nodes, t, post, work);
    }

    /** Raise the greatest number of each block to those of its children. */
    method Propagate(t: Tree, post: seq<Block>)
      requires (post != [] ==> Ordered(t, post)) && LinkedUpTo(nodes, t, post, |post|)
      requires post != [] ==> var f := PreAt(t, post, |post| - 1); NumbersUpTo(nodes, f, |f|)
      requires Unnumbered(nodes, post)
      modifies this`nodes
      ensures Unnumbered(nodes, post)
      ensures |nodes| == |t| && LinkedUpTo(nodes, t, post, |post|) && forall p | 0 <= p < |post| ::
              MaxAt(nodes, t, post, |post|, p)
    {
      hide PreAt, Shape, NumbersUpTo, LinkedUpTo, Placed;
      LinkedSize(nodes, t, post);
      forall p | 0 <= p < |post| ensures MaxAt(nodes, t, post, 0, p) {
        NumbersPlace(nodes, t, post, p);
      }
      var j := 0;
      while j < |post|
        invariant 0 <= j <= |post| && |nodes| == |t| && LinkedUpTo(nodes, t, post, |post|) && Unnumbered(nodes, post)
        invariant forall p | 0 <= p < |post| :: MaxAt(nodes, t, post, j, p)
      {
        var block := post[j];
        ghost var e := nodes;
        match t[block].idom {
          case Some(inst) =>
            var idom := inst.block;
            ghost var p := ParentIndex(t, post, j, idom);
            nodes := nodes[idom := nodes[idom].(preMax := Max(nodes[block].preMax, nodes[idom].preMax))];
          case None =>
        }
        LinksKept(e, nodes, t, post);
        ghost var i := j;
        j := j + 1;
        forall p | 0 <= p < |post| ensures MaxAt(nodes, t, post, j, p) {
          MaxStep(e, nodes, t, post, i, p);
        }
      }
    }

    /** Does block `a` dominate block `b`? Unreachable blocks all have the same number. */
    method Dominates(a: Block, b: Block, ghost domtree: DominatorTree, ghost cfg: Cfg) returns (r: bool)
      requires domtree.Valid(cfg) && Valid(domtree.nodes, domtree.postorder)
      ensures Reachable(cfg, a) && Reachable(cfg, b) ==> (r <==> Dom(cfg, Point(a, 0), Point(b, 0)))
      ensures !(Reachable(cfg, a) && Reachable(cfg, b)) ==> (r <==> !Reachable(cfg, a) && !Reachable(cfg, b))
    {
      hide Dom, Reachable, Numbered;
      ghost var t, post := domtree.nodes, domtree.postorder;
      NumberReachable(nodes, t, post, a);
      NumberReachable(nodes, t, post, b);
      assert (a in post <==> Reachable(cfg, a)) && (b in post <==> Reachable(cfg, b));
      r := NumberOf(nodes, a) <= NumberOf(nodes, b) && MaxOf(nodes, a) >= MaxOf(nodes, b);
      if a in post && b in post {
        ghost var i :| 0 <= i < |post| && post[i] == a;
        ghost var j :| 0 <= j < |post| && post[j] == b;
        assert MaxAt(nodes, t, post, |post|, i) && MaxAt(nodes, t, post, |post|, j);
        Intervals(nodes, t, post, i, j);
        AncIffDom(t, cfg, Point(a, 0), Point(b, 0));
      }
    }

    /** The immediate children of `block`, in reverse post-order. */
    method Children(block: Block, ghost t: Tree, ghost post: seq<Block>) returns (r: seq<Block>)
      requires Valid(t, post) && block < |nodes|
      ensures forall b: Block :: b in r <==> b in post && b < |t| && t[b].idom.Some? && t[b].idom.value.block == block
      ensures forall i, j | 0 <= i < j < |r| :: Rpo(t, r[i]) < Rpo(t, r[j])
    {
      hide ListOf;
      r := [];
      var next := nodes[block].child;
      ghost var k: nat := |post|;
      assert ListOf(nodes, t, post, next, k, block);
      while next.Some?
        invariant k <= |post| && ListOf(nodes, t, post, next, k, block) && r + Kids(t, post, k, block) ==
                  Kids(t, post, |post|, block)
        decreases k
      {
        ghost var m := ListHead(nodes, t, post, next, k, block);
        assert Unique(post);
        KidsHead(nodes, t, post, next, k, block, m);
        r, next, k := r + [next.value], nodes[next.value].sibling, m;
      }
      KidsNone(nodes, t, post, k, block);
      if post != [] {
        KidsOrder(t, post, |post|, block);
        assert r == Kids(t, post, |post|, block);
        forall b: Block ensures b in r <==> b in post && b < |t| && t[b].idom.Some? && t[b].idom.value.block == block {
          KidsMember(t, post, |post|, block, b);
          assert post[..|post|] == post;
        }
      }
    }
  }
}
