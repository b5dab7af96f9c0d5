/** The pre-order of a dominator tree, and where the sub-trees are in it. */
module DomtreeOrder {
  import opened DomtreePaths
  import opened DomtreeTree
  import opened DomtreePass

  /** `t` is a tree on the blocks of `post`, numbered in reverse post-order. */
  ghost predicate Ordered(t: Tree, post: seq<Block>) {
    && post != [] && Shape(t, post[|post| - 1]) && Numbered(t, post, 0)
    && (forall i, j | 0 <= i < j < |post| :: post[i] != post[j])
  }

  /** Is `post[j]` an immediate child of block `a`? */
  predicate Kid(t: Tree, post: seq<Block>, j: nat, a: Block) {
    j < |post| && post[j] < |t| && t[post[j]].idom.Some? && t[post[j]].idom.value.block == a
  }

  /** Is `a` on the way from `b` up the tree? */
  ghost predicate Over(t: Tree, a: Block, b: Block) {
    Anc(t, Point(a, 0), Point(b, 0))
  }

  /** The sub-tree of `post[i]` in pre-order, children in reverse post-order. */
  ghost function PreAt(t: Tree, post: seq<Block>, i: nat): (r: seq<Block>)
    requires i < |post|
    ensures r != [] && r[0] == post[i]
    decreases i, 1
  {
    [post[i]] + PreKids(t, post, i, post[i])
  }

  /** The sub-trees of those children of `a` that are among the first `k` of the post-order. */
  ghost function PreKids(t: Tree, post: seq<Block>, k: nat, a: Block): seq<Block>
    requires k <= |post|
    decreases k, 0
  {
    if k == 0 then []
    else (if Kid(t, post, k - 1, a) then PreAt(t, post, k - 1) else []) + PreKids(t, post, k - 1, a)
  }

  lemma KidsSplit(t: Tree, post: seq<Block>, k: nat, a: Block)
    requires 0 < k <= |post|
    ensures PreKids(t, post, k, a) == (if Kid(t, post, k - 1, a) then PreAt(t, post, k - 1) else []) + PreKids(t, post,
            k - 1, a)
  {
  }

  lemma ParentIndex(t: Tree, post: seq<Block>, j: nat, a: Block) returns (p: nat)
    requires Ordered(t, post) && Kid(t, post, j, a)
    ensures j < p < |post| && post[p] == a
  {
    assert NodeOK(t, post[|post| - 1], post[j]);
    assert a in post;
    p :| 0 <= p < |post| && post[p] == a;
  }

  lemma KidOver(t: Tree, post: seq<Block>, j: nat, a: Block)
    requires Ordered(t, post) && Kid(t, post, j, a)
    ensures Over(t, a, post[j])
  {
    assert NodeOK(t, post[|post| - 1], post[j]);
  }

  lemma OverTrans(t: Tree, a: Block, b: Block, c: Block)
    requires Over(t, a, b) && Over(t, b, c)
    ensures Over(t, a, c)
  {
    AncTrans(t, Point(a, 0), Point(b, 0), Point(c, 0));
  }

  /** A block other than `b` is over `b` when it is over the block of the immediate dominator. */
  lemma OverUp(t: Tree, post: seq<Block>, a: Block, b: Block)
    requires Ordered(t, post) && Over(t, a, b) && a != b
    ensures b < |t| && t[b].idom.Some? && Over(t, a, t[b].idom.value.block)
  {
    assert Anc(t, Point(a, 0), t[b].idom.value);
  }

  /** The entry is over every block. */
  lemma {:induction false} RootOver(t: Tree, post: seq<Block>, j: nat)
    requires Ordered(t, post) && j < |post|
    ensures Over(t, post[|post| - 1], post[j])
    decreases |post| - j
  {
    if j < |post| - 1 {
      assert NodeOK(t, post[|post| - 1], post[j]);
      var a := t[post[j]].idom.value.block;
      var p := ParentIndex(t, post, j, a);
      RootOver(t, post, p);
      KidOver(t, post, j, a);
      OverTrans(t, post[|post| - 1], a, post[j]);
    }
  }

  // ----- what the pre-order of a sub-tree contains -----

  lemma {:induction false} PreOver(t: Tree, post: seq<Block>, i: nat, x: Block)
    requires Ordered(t, post) && i < |post| && x in PreAt(t, post, i)
    ensures Over(t, post[i], x)
    decreases i, 1
  {
    if x != post[i] {
      var m := InKids(t, post, i, post[i], x);
      PreOver(t, post, m, x);
      KidOver(t, post, m, post[i]);
      OverTrans(t, post[i], post[m], x);
    }
  }

  lemma {:induction false} InKids(t: Tree, post: seq<Block>, k: nat, a: Block, x: Block) returns (m: nat)
    requires k <= |post| && x in PreKids(t, post, k, a)
    ensures m < k && Kid(t, post, m, a) && x in PreAt(t, post, m)
    decreases k
  {
    m := k - 1;
    if !(Kid(t, post, m, a) && x in PreAt(t, post, m)) {
      m := InKids(t, post, k - 1, a, x);
    }
  }

  /** `r` is the stretch of `s` that starts at `o`. */
  ghost predicate Stretch(s: seq<Block>, o: nat, r: seq<Block>) {
    o + |r| <= |s| && forall i | 0 <= i < |r| :: r[i] == s[o + i]
  }

  lemma StretchIn(s: seq<Block>, o: nat, r: seq<Block>, o': nat, q: seq<Block>)
    requires Stretch(s, o, r) && Stretch(r, o', q)
    ensures Stretch(s, o + o', q)
  {
    forall i | 0 <= i < |q| ensures q[i] == s[o + o' + i] {
      assert q[i] == r[o' + i];
    }
  }

  lemma StretchSize(s: seq<Block>, o: nat, r: seq<Block>)
    requires Stretch(s, o, r)
    ensures o + |r| <= |s|
  {
  }

  lemma StretchAt(s: seq<Block>, o: nat, r: seq<Block>, i: nat)
    requires Stretch(s, o, r) && i < |r|
    ensures o + i < |s| && s[o + i] == r[i]
  {
  }

  lemma StretchSelf(s: seq<Block>)
    ensures Stretch(s, 0, s)
  {
  }

  lemma StretchRight(s: seq<Block>, r: seq<Block>)
    ensures Stretch(s + r, |s|, r) && Stretch(s + r, 0, s)
  {
  }

  /** The pre-order of a child is a stretch of that of its siblings, the end of it for the last child. */
  lemma {:induction false} KidStretch(t: Tree, post: seq<Block>, k: nat, a: Block, m: nat) returns (o: nat)
    requires m < k <= |post| && Kid(t, post, m, a)
    ensures Stretch(PreKids(t, post, k, a), o, PreAt(t, post, m)) && o + |PreAt(t, post, m)| <= |PreKids(t, post, k, a)|
    ensures PreKids(t, post, m, a) == [] ==> o + |PreAt(t, post, m)| == |PreKids(t, post, k, a)|
    decreases k
  {
    hide PreAt, Stretch, PreKids;
    var first, rest := if Kid(t, post, k - 1, a) then PreAt(t, post, k - 1) else [], PreKids(t, post, k - 1, a);
    KidsSplit(t, post, k, a);
    StretchRight(first, rest);
    o := 0;
    if m < k - 1 {
      o := KidStretch(t, post, k - 1, a, m);
      StretchIn(PreKids(t, post, k, a), |first|, rest, o, PreAt(t, post, m));
      o := |first| + o;
    }
    StretchSize(PreKids(t, post, k, a), o, PreAt(t, post, m));
  }

  /** The sub-tree of every block of a sub-tree is a stretch of it. */
  lemma {:induction false} SubStretch(t: Tree, post: seq<Block>, i: nat, p: nat) returns (o: nat)
    requires Ordered(t, post) && i < |post| && p < |post| && post[p] in PreAt(t, post, i)
    ensures Stretch(PreAt(t, post, i), o, PreAt(t, post, p))
    decreases i
  {
    hide PreKids, Shape, Numbered, Stretch;
    o := 0;
    if p == i {
      StretchSelf(PreAt(t, post, i));
    } else {
      var kids := PreKids(t, post, i, post[i]);
      var m := InKids(t, post, i, post[i], post[p]);
      var o1 := SubStretch(t, post, m, p);
      var o2 := KidStretch(t, post, i, post[i], m);
      StretchIn(kids, o2, PreAt(t, post, m), o1, PreAt(t, post, p));
      StretchRight([post[i]], kids);
      StretchIn(PreAt(t, post, i), 1, kids, o2 + o1, PreAt(t, post, p));
      o := 1 + (o2 + o1);
    }
  }

  /** All children of a block come before it in the post-order. */
  lemma {:induction false} KidsBelow(t: Tree, post: seq<Block>, i: nat, k: nat)
    requires Ordered(t, post) && i <= k <= |post| && i < |post|
    ensures PreKids(t, post, k, post[i]) == PreKids(t, post, i, post[i])
    decreases k
  {
    hide PreAt;
    if k > i {
      if Kid(t, post, k - 1, post[i]) {
        var p := ParentIndex(t, post, k - 1, post[i]);
        assert false;
      }
      KidsBelow(t, post, i, k - 1);
      assert [] + PreKids(t, post, k - 1, post[i]) == PreKids(t, post, k - 1, post[i]);
    }
  }

  /** The pre-order of a sub-tree lists all blocks below its root. */
  lemma {:induction false} OverPre(t: Tree, post: seq<Block>, i: nat, j: nat)
    requires Ordered(t, post) && i < |post| && j < |post| && Over(t, post[i], post[j])
    ensures post[j] in PreAt(t, post, i)
    decreases |post| - j
  {
    hide Stretch, PreKids, Shape, Numbered, Over;
    if j != i {
      OverUp(t, post, post[i], post[j]);
      var a := t[post[j]].idom.value.block;
      var p := ParentIndex(t, post, j, a);
      OverPre(t, post, i, p);
      var o := SubStretch(t, post, i, p);
      var o' := KidStretch(t, post, p, a, j);
      StretchAt(PreKids(t, post, p, a), o', PreAt(t, post, j), 0);
      StretchAt(PreAt(t, post, i), o, PreAt(t, post, p), 1 + o');
    }
  }

  // ----- no block twice -----

  lemma {:induction false} AncLinear(t: Tree, u: Point, v: Point, x: Point)
    requires Anc(t, u, x) && Anc(t, v, x)
    ensures Anc(t, u, v) || Anc(t, v, u)
    decreases Rpo(t, x.block)
  {
    if !(u.block == x.block && u.at <= x.at) && !(v.block == x.block && v.at <= x.at) {
      AncLinear(t, u, v, t[x.block].idom.value);
    }
  }

  lemma KidsApart(t: Tree, post: seq<Block>, a: Block, m: nat, m': nat, x: Block)
    requires Ordered(t, post) && Kid(t, post, m, a) && Kid(t, post, m', a) && Over(t, post[m], x)
             && Over(t, post[m'], x)
    ensures m == m'
  {
    AncLinear(t, Point(post[m], 0), Point(post[m'], 0), Point(x, 0));
    if m != m' {
      if Over(t, post[m], post[m']) {
        KidNotOver(t, post, a, m, m');
      } else {
        KidNotOver(t, post, a, m', m);
      }
    }
  }

  lemma KidNotOver(t: Tree, post: seq<Block>, a: Block, m: nat, m': nat)
    requires Ordered(t, post) && Kid(t, post, m, a) && Kid(t, post, m', a) && m != m'
    ensures !Over(t, post[m], post[m'])
  {
    if Over(t, post[m], post[m']) {
      OverUp(t, post, post[m], post[m']);
      assert NodeOK(t, post[|post| - 1], post[m]);
      AncRpo(t, post[|post| - 1], Point(post[m], 0), Point(a, 0));
    }
  }

  ghost predicate Unique(s: seq<Block>) {
    forall i, j | 0 <= i < j < |s| :: s[i] != s[j]
  }

  lemma UniqueAppend(s: seq<Block>, r: seq<Block>)
    requires Unique(s) && Unique(r) && forall x | x in s :: x !in r
    ensures Unique(s + r)
  {
    forall i, j | 0 <= i < j < |s + r| ensures (s + r)[i] != (s + r)[j] {
      if i < |s| <= j {
        assert s[i] in s && r[j - |s|] in r;
      }
    }
  }

  lemma {:induction false} PreUnique(t: Tree, post: seq<Block>, i: nat)
    requires Ordered(t, post) && i < |post|
    ensures Unique(PreAt(t, post, i))
    decreases i, 1
  {
    KidsUnique(t, post, i, post[i]);
    if post[i] in PreKids(t, post, i, post[i]) {
      var m := InKids(t, post, i, post[i], post[i]);
      PreOver(t, post, m, post[i]);
      AncRpo(t, post[|post| - 1], Point(post[m], 0), Point(post[i], 0));
    }
    UniqueAppend([post[i]], PreKids(t, post, i, post[i]));
  }

  lemma {:induction false} KidsUnique(t: Tree, post: seq<Block>, k: nat, a: Block)
    requires Ordered(t, post) && k <= |post|
    ensures Unique(PreKids(t, post, k, a))
    decreases k, 0
  {
    if k > 0 {
      KidsUnique(t, post, k - 1, a);
      if Kid(t, post, k - 1, a) {
        PreUnique(t, post, k - 1);
        var first, rest := PreAt(t, post, k - 1), PreKids(t, post, k - 1, a);
        forall x | x in first ensures x !in rest {
          if x in rest {
            var m := InKids(t, post, k - 1, a, x);
            PreOver(t, post, k - 1, x);
            PreOver(t, post, m, x);
            KidsApart(t, post, a, k - 1, m, x);
          }
        }
        UniqueAppend(first, rest);
      } else {
        assert [] + PreKids(t, post, k - 1, a) == PreKids(t, post, k - 1, a);
      }
    }
  }
}
