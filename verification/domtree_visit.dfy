/** Depth-first traversal by recursion, and what its post-order says about paths. */
module DomtreeVisit {
  import opened DomtreePaths

  ghost predicate Closed(succs: seq<seq<Block>>) {
    forall b, i | 0 <= b < |succs| && 0 <= i < |succs[b]| :: succs[b][i] < |succs|
  }

  ghost function Left(n: nat, seen: set<Block>): nat {
    |set b: Block | b < n && b !in seen|
  }

  lemma LeftShrinks(n: nat, seen: set<Block>, seen': set<Block>)
    requires seen <= seen'
    ensures Left(n, seen') <= Left(n, seen)
    ensures (exists b: Block | b < n :: b in seen' - seen) ==> Left(n, seen') < Left(n, seen)
  {
    var a, a' := set b: Block | b < n && b !in seen, set b: Block | b < n && b !in seen';
    Smaller(a', a);
    if b: Block :| b < n && b in seen' - seen {
      assert b in a;
      Smaller(a', a - {b});
    }
  }

  lemma Smaller(a: set<Block>, b: set<Block>)
    requires a <= b
    ensures |a| <= |b|
  {
    assert b == a + (b - a);
  }

  /** The blocks seen and the blocks finished, in order, by a recursive traversal from `b`. */
  ghost function Visit(succs: seq<seq<Block>>, b: Block, seen: set<Block>): (r: (set<Block>, seq<Block>))
    requires Closed(succs) && b < |succs|
    ensures seen <= r.0
    decreases Left(|succs|, seen), 0
  {
    if b in seen then (seen, []) else
      LeftShrinks(|succs|, seen, seen + {b});
      var r := VisitAll(succs, succs[b], seen + {b});
      (r.0, r.1 + [b])
  }

  ghost function VisitAll(succs: seq<seq<Block>>, cs: seq<Block>, seen: set<Block>): (r: (set<Block>, seq<Block>))
    requires Closed(succs) && forall i | 0 <= i < |cs| :: cs[i] < |succs|
    ensures seen <= r.0
    decreases Left(|succs|, seen), |cs|
  {
    if cs == [] then (seen, []) else
      var r := Visit(succs, cs[0], seen);
      LeftShrinks(|succs|, seen, r.0);
      var q := VisitAll(succs, cs[1..], r.0);
      (q.0, r.1 + q.1)
  }

  ghost function AsSet(s: seq<Block>): set<Block> {
    set b | b in s
  }

  // ----- paths of blocks -----

  /** `s` leads from `c` to `x` along successors, outside `avoid`. */
  ghost predicate Leads(succs: seq<seq<Block>>, avoid: set<Block>, s: seq<Block>, c: Block, x: Block) {
    && s != [] && s[0] == c && s[|s| - 1] == x && (forall i | 0 <= i < |s| :: s[i] !in avoid)
    && forall i | 0 <= i < |s| - 1 :: s[i] < |succs| && s[i + 1] in succs[s[i]]
  }

  ghost predicate Reach(succs: seq<seq<Block>>, avoid: set<Block>, c: Block, x: Block) {
    exists s :: Leads(succs, avoid, s, c, x)
  }

  /** `out` are exactly the blocks that can be reached from `c` outside `avoid`. */
  ghost predicate ReachedFrom(succs: seq<seq<Block>>, avoid: set<Block>, c: Block, out: seq<Block>) {
    forall x :: x in out <==> Reach(succs, avoid, c, x)
  }

  /** `out` is cut in stretches, one for each of `cs` in order: the blocks that can be reached from it outside `avoid`
  and the stretches before. */
  ghost predicate Stretches(succs: seq<seq<Block>>, avoid: set<Block>, cs: seq<Block>, out: seq<Block>)
    decreases |cs|
  {
    if cs == [] then out == []
    else exists m | 0 <= m <= |out| ::
           && ReachedFrom(succs, avoid, cs[0], out[..m])
           && Stretches(succs, avoid + AsSet(out[..m]), cs[1..], out[m..])
  }

  /** The blocks `post[lo..k]` come just before block `k` of the order, in stretches for its successors. The blocks
  before `lo`, and some blocks `open` that come later, were met before block `k`. */
  ghost predicate Place(succs: seq<seq<Block>>, post: seq<Block>, k: nat, lo: nat, open: set<Block>) {
    && lo <= k < |post| && post[k] < |succs| && open <= AsSet(post[k + 1..])
    && ReachedFrom(succs, AsSet(post[..lo]) + open, post[k], post[lo..k + 1])
    && Stretches(succs, AsSet(post[..lo]) + open + {post[k]}, succs[post[k]], post[lo..k])
  }

  ghost predicate Placed(succs: seq<seq<Block>>, post: seq<Block>, k: nat) {
    exists lo, open :: Place(succs, post, k, lo, open)
  }

  /** A depth-first post-order: every block is in its place, and the last one has all others before it. */
  ghost predicate DepthFirst(succs: seq<seq<Block>>, post: seq<Block>) {
    && (forall k | 0 <= k < |post| :: Placed(succs, post, k))
    && (post != [] ==> Place(succs, post, |post| - 1, 0, {}))
  }

  lemma LeadsMore(succs: seq<seq<Block>>, avoid: set<Block>, b: Block, s: seq<Block>, c: Block, x: Block)
    requires b < |succs| && c in succs[b] && b !in avoid && Leads(succs, avoid + {b}, s, c, x)
    ensures Reach(succs, avoid, b, x)
  {
    var s' := [b] + s;
    assert forall i | 0 < i < |s'| :: s'[i] == s[i - 1];
    assert Leads(succs, avoid, s', b, x);
  }

  lemma ReachLess(succs: seq<seq<Block>>, avoid: set<Block>, avoid': set<Block>, c: Block, x: Block)
    requires Reach(succs, avoid', c, x) && avoid <= avoid'
    ensures Reach(succs, avoid, c, x)
  {
    var s :| Leads(succs, avoid', s, c, x);
    assert Leads(succs, avoid, s, c, x);
  }

  /** A set that holds `c` and every successor, outside `avoid`, of its blocks holds what can be reached from `c`. */
  lemma {:induction false} Stays(succs: seq<seq<Block>>, avoid: set<Block>, all: set<Block>, s: seq<Block>, c: Block,
      x: Block)
    requires Leads(succs, avoid, s, c, x) && c in all
    requires forall b, y | b in all && b < |succs| && y in succs[b] :: y in all || y in avoid
    ensures x in all
    decreases |s|
  {
    if |s| > 1 {
      var s' := s[..|s| - 1];
      assert s'[|s'| - 1] == s[|s| - 2] && forall i | 0 <= i < |s'| :: s'[i] == s[i];
      Stays(succs, avoid, all, s', c, s[|s| - 2]);
    }
  }

  // ----- the traversal finds what can be reached -----

  /** What is known of a traversal that starts from `cs` and has seen `seen`. */
  ghost predicate Found(succs: seq<seq<Block>>, cs: seq<Block>, seen: set<Block>, r: (set<Block>, seq<Block>)) {
    && r.0 == seen + AsSet(r.1) && (forall x | x in r.1 :: x !in seen && x < |succs|)
    && (forall c | c in cs :: c in r.0)
    && (forall b, y | b in r.1 && b < |succs| && y in succs[b] :: y in r.0)
    && (forall x | x in r.1 :: exists c | c in cs :: Reach(succs, seen, c, x))
  }

  lemma {:induction false} VisitFinds(succs: seq<seq<Block>>, b: Block, seen: set<Block>)
    requires Closed(succs) && b < |succs|
    ensures Found(succs, [b], seen, Visit(succs, b, seen))
    decreases Left(|succs|, seen), 0
  {
    hide Leads;
    if b !in seen {
      LeftShrinks(|succs|, seen, seen + {b});
      var r := VisitAll(succs, succs[b], seen + {b});
      VisitAllFinds(succs, succs[b], seen + {b});
      var out := r.1 + [b];
      assert out[|r.1|] == b;
      forall x | x in out ensures Reach(succs, seen, b, x) {
        if x in r.1 {
          var c :| c in succs[b] && Reach(succs, seen + {b}, c, x);
          var s :| Leads(succs, seen + {b}, s, c, x);
          LeadsMore(succs, seen, b, s, c, x);
        } else {
          LeadsSelf(succs, seen, b);
        }
      }
    }
  }

  lemma LeadsSelf(succs: seq<seq<Block>>, avoid: set<Block>, b: Block)
    requires b !in avoid
    ensures Reach(succs, avoid, b, b)
  {
    assert Leads(succs, avoid, [b], b, b);
  }

  lemma {:induction false} VisitAllFinds(succs: seq<seq<Block>>, cs: seq<Block>, seen: set<Block>)
    requires Closed(succs) && forall i | 0 <= i < |cs| :: cs[i] < |succs|
    ensures Found(succs, cs, seen, VisitAll(succs, cs, seen))
    decreases Left(|succs|, seen), |cs|
  {
    hide Reach;
    if cs != [] {
      var r := Visit(succs, cs[0], seen);
      VisitFinds(succs, cs[0], seen);
      LeftShrinks(|succs|, seen, r.0);
      VisitAllFinds(succs, cs[1..], r.0);
      var q := VisitAll(succs, cs[1..], r.0);
      assert forall x :: x in r.1 + q.1 <==> x in r.1 || x in q.1;
      forall x | x in r.1 + q.1 ensures exists c | c in cs :: Reach(succs, seen, c, x) {
        if x in r.1 {
          assert cs[0] in cs && Reach(succs, seen, cs[0], x);
        } else {
          var c :| c in cs[1..] && Reach(succs, r.0, c, x);
          ReachLess(succs, seen, r.0, c, x);
          assert c in cs;
        }
      }
    }
  }

  /** The blocks finished by a traversal from `b` are those that can be reached from `b` outside what was seen. */
  lemma WhitePath(succs: seq<seq<Block>>, b: Block, seen: set<Block>)
    requires Closed(succs) && b < |succs|
    ensures ReachedFrom(succs, seen, b, Visit(succs, b, seen).1)
  {
    hide Leads, Visit;
    VisitFinds(succs, b, seen);
    var r := Visit(succs, b, seen);
    forall x ensures x in r.1 <==> Reach(succs, seen, b, x) {
      if Reach(succs, seen, b, x) {
        var s :| Leads(succs, seen, s, b, x);
        assert b !in seen && b in r.1 by { NotAvoided(succs, seen, s, b, x); }
        Stays(succs, seen, AsSet(r.1), s, b, x);
      }
    }
  }

  lemma NotAvoided(succs: seq<seq<Block>>, avoid: set<Block>, s: seq<Block>, c: Block, x: Block)
    requires Leads(succs, avoid, s, c, x)
    ensures c !in avoid
  {
  }

  /** The successors are finished in stretches, in their order. */
  lemma {:induction false} VisitStretches(succs: seq<seq<Block>>, cs: seq<Block>, seen: set<Block>)
    requires Closed(succs) && forall i | 0 <= i < |cs| :: cs[i] < |succs|
    ensures Stretches(succs, seen, cs, VisitAll(succs, cs, seen).1)
    decreases |cs|
  {
    hide ReachedFrom, Visit, Closed;
    if cs != [] {
      var r := Visit(succs, cs[0], seen);
      VisitFinds(succs, cs[0], seen);
      WhitePath(succs, cs[0], seen);
      VisitStretches(succs, cs[1..], r.0);
      var out := VisitAll(succs, cs, seen).1;
      assert out[..|r.1|] == r.1 && out[|r.1|..] == VisitAll(succs, cs[1..], r.0).1;
    }
  }

  /** A block that a traversal finishes is in its place in any order that contains the traversal. */
  lemma VisitPlace(succs: seq<seq<Block>>, b: Block, seen: set<Block>, pre: seq<Block>, suf: seq<Block>,
      open: set<Block>)
    requires Closed(succs) && b < |succs| && b !in seen && seen == AsSet(pre) + open && open <= AsSet(suf)
    ensures var out := Visit(succs, b, seen).1;
            out != [] && Place(succs, pre + out + suf, |pre| + |out| - 1, |pre|, open)
  {
    hide ReachedFrom, Stretches, VisitAll;
    var all := VisitAll(succs, succs[b], seen + {b}).1;
    var out := all + [b];
    WhitePath(succs, b, seen);
    VisitStretches(succs, succs[b], seen + {b});
    var post, k, lo := pre + out + suf, |pre| + |all|, |pre|;
    assert post[..lo] == pre && post[k] == b && post[lo..k + 1] == out && post[lo..k] == all && post[k + 1..] == suf;
  }

  /** All blocks that a traversal finishes are in their places. */
  lemma {:induction false} VisitPlaces(succs: seq<seq<Block>>, b: Block, seen: set<Block>, pre: seq<Block>,
      suf: seq<Block>, open: set<Block>, k: nat)
    requires Closed(succs) && b < |succs| && seen == AsSet(pre) + open && open <= AsSet(suf)
    requires |pre| <= k < |pre| + |Visit(succs, b, seen).1|
    ensures Placed(succs, pre + Visit(succs, b, seen).1 + suf, k)
    decreases Left(|succs|, seen), 0
  {
    hide Place;
    LeftShrinks(|succs|, seen, seen + {b});
    var all := VisitAll(succs, succs[b], seen + {b}).1;
    var out := all + [b];
    if k == |pre| + |all| {
      VisitPlace(succs, b, seen, pre, suf, open);
    } else {
      assert AsSet([b] + suf) >= open + {b};
      VisitAllPlaces(succs, succs[b], seen + {b}, pre, [b] + suf, open + {b}, k);
      assert pre + out + suf == pre + all + ([b] + suf);
    }
  }

  lemma {:induction false} VisitAllPlaces(succs: seq<seq<Block>>, cs: seq<Block>, seen: set<Block>, pre: seq<Block>,
      suf: seq<Block>, open: set<Block>, k: nat)
    requires Closed(succs) && (forall i | 0 <= i < |cs| :: cs[i] < |succs|)
    requires seen == AsSet(pre) + open && open <= AsSet(suf) && |pre| <= k < |pre| + |VisitAll(succs, cs, seen).1|
    ensures Placed(succs, pre + VisitAll(succs, cs, seen).1 + suf, k)
    decreases Left(|succs|, seen), |cs|
  {
    hide Place, Visit;
    var r := Visit(succs, cs[0], seen);
    LeftShrinks(|succs|, seen, r.0);
    var q := VisitAll(succs, cs[1..], r.0);
    if k < |pre| + |r.1| {
      assert AsSet(q.1 + suf) >= AsSet(suf);
      VisitPlaces(succs, cs[0], seen, pre, q.1 + suf, open, k);
      assert pre + (r.1 + q.1) + suf == pre + r.1 + (q.1 + suf);
    } else {
      VisitFinds(succs, cs[0], seen);
      assert AsSet(pre + r.1) == AsSet(pre) + AsSet(r.1);
      VisitAllPlaces(succs, cs[1..], r.0, pre + r.1, suf, open, k);
      assert pre + (r.1 + q.1) + suf == (pre + r.1) + q.1 + suf;
    }
  }

  /** The whole traversal: every block is in its place, and the entry's place is the whole order. */
  lemma VisitOrder(succs: seq<seq<Block>>, entry: Block)
    requires Closed(succs) && entry < |succs|
    ensures DepthFirst(succs, Visit(succs, entry, {}).1)
  {
    hide Place, Visit;
    var post := Visit(succs, entry, {}).1;
    assert [] + post + [] == post;
    forall k | 0 <= k < |post| ensures Placed(succs, post, k) {
      VisitPlaces(succs, entry, {}, [], [], {}, k);
    }
    VisitPlace(succs, entry, {}, [], [], {});
  }
}
