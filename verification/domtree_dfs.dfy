/** Depth-first traversal of the control flow graph, and the post-order it gives. */
module DomtreeDfs {
  import opened Options
  import opened DomtreePaths
  import opened DomtreeVisit

  datatype Event = Enter(block: Block) | Exit(block: Block)

  ghost predicate Edge(cfg: Cfg, p: Block, b: Block) {
    exists q: Point | q.block == p :: Jump(cfg, q, b)
  }

  /** `succs[b]` are the destinations of the branches of block `b`. */
  ghost predicate SuccsOK(cfg: Cfg, succs: seq<seq<Block>>) {
    && |succs| == |cfg.preds|
    && Closed(succs)
    && (forall b: Block, c: Block :: Edge(cfg, b, c) <==> b < |succs| && c in succs[b])
  }

  lemma ReachableEdge(cfg: Cfg, p: Block, b: Block)
    requires Reachable(cfg, p) && Edge(cfg, p, b)
    ensures Reachable(cfg, b)
  {
    var q: Point :| q.block == p && Jump(cfg, q, b);
    var s :| Path(cfg, s, Point(p, 0));
    var s' := Through(cfg, s, p, q.at);
    PathStep(cfg, s', q, Point(b, 0));
  }

  lemma EntryReachable(cfg: Cfg)
    requires cfg.entry < |cfg.preds|
    ensures Reachable(cfg, cfg.entry)
  {
    var s := [Point(cfg.entry, 0)];
    assert Path(cfg, s, Point(cfg.entry, 0));
  }

  /** A set of blocks that holds the entry and all successors of its blocks holds every reachable block. */
  lemma {:induction false} ClosedReaches(cfg: Cfg, blocks: set<Block>, s: seq<Point>, p: Point)
    requires Path(cfg, s, p) && cfg.entry in blocks && forall b, c | b in blocks && Edge(cfg, b, c) :: c in blocks
    ensures p.block in blocks
    decreases |s|
  {
    if |s| > 1 {
      var q := s[|s| - 2];
      ClosedReaches(cfg, blocks, s[..|s| - 1], q);
      if q.block != p.block {
        assert Jump(cfg, q, p.block);
        assert Edge(cfg, q.block, p.block);
      }
    }
  }

  // ----- the state of a traversal -----

  /** Some block whose exit is on the stack below index `k` branches to `b`. */
  ghost predicate Opened(cfg: Cfg, stack: seq<Event>, k: nat, b: Block) {
    exists i | 0 <= i < k && i < |stack| && stack[i].Exit? :: Edge(cfg, stack[i].block, b)
  }

  /** Some block that comes later than `i` in the output, or whose exit is still on the stack, branches to `out[i]`. */
  ghost predicate Later(cfg: Cfg, stack: seq<Event>, out: seq<Block>, i: nat)
    requires i < |out|
  {
    Opened(cfg, stack, |stack|, out[i]) || exists j | i < j < |out| :: Edge(cfg, out[j], out[i])
  }

  /** Every block on the stack can be reached, and above the bottom of the stack is there because a block below it
  branches to it. */
  ghost predicate Called(cfg: Cfg, stack: seq<Event>) {
    && (forall k | 0 <= k < |stack| :: Reachable(cfg, stack[k].block))
    && (forall k | 0 < k < |stack| :: Opened(cfg, stack, k, stack[k].block))
  }

  /** The blocks seen are those already given out and those whose exit is on the stack, each once. */
  ghost predicate Partition(stack: seq<Event>, seen: set<Block>, out: seq<Block>) {
    && (forall k | 0 <= k < |stack| && stack[k].Exit? :: stack[k].block in seen && stack[k].block !in out)
    && (forall j, k | 0 <= j < k < |stack| && stack[j].Exit? && stack[k].Exit? :: stack[j].block != stack[k].block)
    && (forall i | 0 <= i < |out| :: out[i] in seen)
    && (forall i, j | 0 <= i < j < |out| :: out[i] != out[j])
    && (forall b | b in seen :: b in out || Exit(b) in stack)
  }

  /** The entry is at the bottom of the stack until it is given out last. */
  ghost predicate Bottom(cfg: Cfg, stack: seq<Event>, seen: set<Block>, out: seq<Block>) {
    if stack == [] then out != [] && out[|out| - 1] == cfg.entry
    else stack[0].block == cfg.entry && (stack[0].Enter? ==> seen == {} && |stack| == 1)
  }

  ghost predicate Ordered(cfg: Cfg, stack: seq<Event>, out: seq<Block>) {
    && (forall i | 0 <= i < |out| :: Reachable(cfg, out[i]))
    && (forall i | 0 <= i < |out| && out[i] != cfg.entry :: Later(cfg, stack, out, i))
  }

  /** Every successor of a block seen is seen or waits on the stack. */
  ghost predicate Covered(cfg: Cfg, stack: seq<Event>, seen: set<Block>) {
    forall b, c | b in seen && Edge(cfg, b, c) :: c in seen || Enter(c) in stack
  }

  ghost predicate DfsOK(cfg: Cfg, stack: seq<Event>, seen: set<Block>, out: seq<Block>) {
    && Called(cfg, stack) && Partition(stack, seen, out) && Bottom(cfg, stack, seen, out)
    && Ordered(cfg, stack, out) && Covered(cfg, stack, seen)
  }

  lemma DfsStart(cfg: Cfg)
    requires cfg.entry < |cfg.preds|
    ensures DfsOK(cfg, [Enter(cfg.entry)], {}, [])
  {
    EntryReachable(cfg);
  }

  lemma DfsEnd(cfg: Cfg, seen: set<Block>, out: seq<Block>)
    requires DfsOK(cfg, [], seen, out)
    ensures PostOrder(cfg, out)
  {
    assert out[|out| - 1] in out && cfg.entry in seen;
    forall b ensures b in out <==> Reachable(cfg, b) {
      if Reachable(cfg, b) {
        var s :| Path(cfg, s, Point(b, 0));
        ClosedReaches(cfg, seen, s, Point(b, 0));
      }
    }
    forall i | 0 <= i < |out| - 1 ensures Follows(cfg, out, i) {
      assert Later(cfg, [], out, i);
      var j :| i < j < |out| && Edge(cfg, out[j], out[i]);
      var q: Point :| q.block == out[j] && Jump(cfg, q, out[i]);
    }
  }

  // ----- one step of the traversal -----

  /** Entries for the successors not yet seen, the first successor on top of the stack. */
  function Unseen(cs: seq<Block>, seen: set<Block>): (r: seq<Event>)
    ensures forall k | 0 <= k < |r| :: r[k].Enter? && r[k].block in cs && r[k].block !in seen
    ensures forall c | c in cs && c !in seen :: Enter(c) in r
  {
    if cs == [] then [] else Unseen(cs[1..], seen) + if cs[0] in seen then [] else [Enter(cs[0])]
  }

  lemma OpenedKept(cfg: Cfg, stack: seq<Event>, stack': seq<Event>, k: nat, b: Block)
    requires Opened(cfg, stack, k, b) && k <= |stack| && k <= |stack'| && stack[..k] == stack'[..k]
    ensures Opened(cfg, stack', k, b)
  {
    hide Edge;
    var i :| 0 <= i < k && i < |stack| && stack[i].Exit? && Edge(cfg, stack[i].block, b);
    assert stack[..k][i] == stack[i];
    assert stack'[..k][i] == stack'[i];
  }

  lemma OpenedUpTo(cfg: Cfg, stack: seq<Event>, k: nat, k': nat, b: Block)
    requires Opened(cfg, stack, k, b) && k <= k'
    ensures Opened(cfg, stack, k', b)
  {
  }

  lemma CalledPop(cfg: Cfg, stack: seq<Event>)
    requires Called(cfg, stack) && stack != []
    ensures Called(cfg, stack[..|stack| - 1])
  {
    hide Reachable, Opened;
    var rest := stack[..|stack| - 1];
    forall k | 0 < k < |rest| ensures Opened(cfg, rest, k, rest[k].block) {
      assert rest[..k] == stack[..k];
      OpenedKept(cfg, stack, rest, k, rest[k].block);
    }
  }

  /** Blocks that a block whose exit is on the stack branches to may be pushed. */
  lemma CalledPush(cfg: Cfg, stack: seq<Event>, p: nat, more: seq<Event>)
    requires Called(cfg, stack) && p < |stack| && stack[p].Exit? && forall k | 0 <= k < |more| ::
             Edge(cfg, stack[p].block, more[k].block)
    ensures Called(cfg, stack + more)
  {
    hide Reachable, Opened, Edge;
    var all := stack + more;
    forall k | 0 <= k < |all|
      ensures Reachable(cfg, all[k].block)
      ensures k > 0 ==> Opened(cfg, all, k, all[k].block)
    {
      if k < |stack| {
        assert all[..k] == stack[..k];
        if k > 0 { OpenedKept(cfg, stack, all, k, all[k].block); }
      } else {
        assert all[k] == more[k - |stack|];
        ReachableEdge(cfg, stack[p].block, all[k].block);
        OpenedBy(cfg, all, p, k);
      }
    }
  }

  lemma OpenedBy(cfg: Cfg, stack: seq<Event>, p: nat, k: nat)
    requires p < k < |stack| && stack[p].Exit? && Edge(cfg, stack[p].block, stack[k].block)
    ensures Opened(cfg, stack, k, stack[k].block)
  {
  }

  /** The top of the stack may become the exit of the same block. */
  lemma CalledExit(cfg: Cfg, stack: seq<Event>)
    requires Called(cfg, stack) && stack != []
    ensures Called(cfg, stack[..|stack| - 1] + [Exit(stack[|stack| - 1].block)])
  {
    hide Reachable, Opened;
    var all := stack[..|stack| - 1] + [Exit(stack[|stack| - 1].block)];
    forall k | 0 < k < |all| ensures Opened(cfg, all, k, all[k].block) {
      assert all[..k] == stack[..k];
      OpenedKept(cfg, stack, all, k, all[k].block);
    }
  }

  /** An entry on top of the stack opens nothing. */
  lemma OrderedEnter(cfg: Cfg, stack: seq<Event>, out: seq<Block>, more: seq<Event>)
    requires Ordered(cfg, stack, out) && stack != [] && stack[|stack| - 1].Enter?
    ensures Ordered(cfg, stack[..|stack| - 1] + more, out)
  {
    hide Reachable, Edge;
    var n := |stack| - 1;
    var all := stack[..n] + more;
    forall i | 0 <= i < |out| && out[i] != cfg.entry ensures Later(cfg, all, out, i) {
      assert Later(cfg, stack, out, i);
      if Opened(cfg, stack, |stack|, out[i]) {
        assert Opened(cfg, stack, n, out[i]);
        assert all[..n] == stack[..n];
        OpenedKept(cfg, stack, all, n, out[i]);
        OpenedUpTo(cfg, all, n, |all|, out[i]);
      }
    }
  }

  /** A block given out comes before the block that opened it. */
  lemma OrderedExit(cfg: Cfg, stack: seq<Event>, out: seq<Block>)
    requires Ordered(cfg, stack, out) && Called(cfg, stack) && stack != [] && stack[0].block == cfg.entry
    ensures Ordered(cfg, stack[..|stack| - 1], out + [stack[|stack| - 1].block])
  {
    hide Reachable, Edge;
    var n := |stack| - 1;
    var b, rest := stack[n].block, stack[..n];
    var out' := out + [b];
    forall i | 0 <= i < |out'| && out'[i] != cfg.entry ensures Later(cfg, rest, out', i) {
      if i == |out| {
        assert rest[..n] == stack[..n];
        OpenedKept(cfg, stack, rest, n, b);
      } else {
        assert Later(cfg, stack, out, i);
        LaterExit(cfg, stack, out, i);
      }
    }
  }

  lemma LaterExit(cfg: Cfg, stack: seq<Event>, out: seq<Block>, i: nat)
    requires stack != [] && i < |out| && Later(cfg, stack, out, i)
    ensures Later(cfg, stack[..|stack| - 1], out + [stack[|stack| - 1].block], i)
  {
    hide Edge;
    var n := |stack| - 1;
    var out' := out + [stack[n].block];
    if Opened(cfg, stack, |stack|, out[i]) {
      var k :| 0 <= k < |stack| && stack[k].Exit? && Edge(cfg, stack[k].block, out[i]);
      if k == n {
        assert Edge(cfg, out'[|out|], out'[i]);
      } else {
        assert stack[..n][k] == stack[k];
        assert Opened(cfg, stack[..n], n, out[i]);
      }
    } else {
      var j :| i < j < |out| && Edge(cfg, out[j], out[i]);
      assert Edge(cfg, out'[j], out'[i]);
    }
  }

  lemma PartitionEnter(stack: seq<Event>, seen: set<Block>, out: seq<Block>, b: Block, more: seq<Event>)
    requires Partition(stack, seen, out) && stack != [] && stack[|stack| - 1] == Enter(b) && b !in seen
    requires forall k | 0 <= k < |more| :: more[k].Enter?
    ensures Partition(stack[..|stack| - 1] + [Exit(b)] + more, seen + {b}, out)
  {
    var n := |stack| - 1;
    var all := stack[..n] + [Exit(b)] + more;
    assert all[n] == Exit(b);
    forall x | x in seen ensures x in out || Exit(x) in all {
      if Exit(x) in stack {
        var k :| 0 <= k < |stack| && stack[k] == Exit(x);
        assert all[k] == Exit(x);
      }
    }
  }

  lemma PartitionSkip(stack: seq<Event>, seen: set<Block>, out: seq<Block>)
    requires Partition(stack, seen, out) && stack != [] && stack[|stack| - 1].Enter?
    ensures Partition(stack[..|stack| - 1], seen, out)
  {
    var rest := stack[..|stack| - 1];
    forall x | x in seen ensures x in out || Exit(x) in rest {
      if Exit(x) in stack {
        var k :| 0 <= k < |stack| && stack[k] == Exit(x);
        assert rest[k] == Exit(x);
      }
    }
  }

  lemma PartitionExit(stack: seq<Event>, seen: set<Block>, out: seq<Block>, b: Block)
    requires Partition(stack, seen, out) && stack != [] && stack[|stack| - 1] == Exit(b)
    ensures Partition(stack[..|stack| - 1], seen, out + [b])
  {
    var rest, out' := stack[..|stack| - 1], out + [b];
    assert out'[|out|] == b;
    forall x | x in seen ensures x in out' || Exit(x) in rest {
      if x in out {
        assert x in out';
      } else {
        var k :| 0 <= k < |stack| && stack[k] == Exit(x);
        if k < |rest| { assert rest[k] == Exit(x); }
      }
    }
  }

  /** The entry popped is seen by now. */
  lemma CoveredPop(cfg: Cfg, stack: seq<Event>, seen: set<Block>, seen': set<Block>, more: seq<Event>)
    requires Covered(cfg, stack, seen) && stack != [] && seen <= seen' <= seen + {stack[|stack| - 1].block}
    requires stack[|stack| - 1].block in seen' && seen' != seen ==>
             forall c | Edge(cfg, stack[|stack| - 1].block, c) :: c in seen' || Enter(c) in more
    requires stack[|stack| - 1].Enter? ==> stack[|stack| - 1].block in seen'
    ensures Covered(cfg, stack[..|stack| - 1] + more, seen')
  {
    hide Edge;
    var rest := stack[..|stack| - 1];
    var all := rest + more;
    forall b, c | b in seen' && Edge(cfg, b, c) ensures c in seen' || Enter(c) in all {
      if b !in seen {
        if c !in seen' {
          var k :| 0 <= k < |more| && more[k] == Enter(c);
          assert all[|rest| + k] == Enter(c);
        }
      } else if c !in seen' {
        var k :| 0 <= k < |stack| && stack[k] == Enter(c);
        assert all[k] == Enter(c);
      }
    }
  }

  // ----- what is left of the recursive traversal -----

  ghost predicate Inside(succs: seq<seq<Block>>, stack: seq<Event>) {
    forall k | 0 <= k < |stack| :: stack[k].block < |succs|
  }

  /** What the recursive traversal still gives out from a stack. */
  ghost function Finish(succs: seq<seq<Block>>, stack: seq<Event>, seen: set<Block>): seq<Block>
    requires Closed(succs) && Inside(succs, stack)
    decreases |stack|
  {
    if stack == [] then [] else
      var n := |stack| - 1;
      match stack[n]
      case Exit(b) => [b] + Finish(succs, stack[..n], seen)
      case Enter(b) =>
        var r := Visit(succs, b, seen);
        r.1 + Finish(succs, stack[..n], r.0)
  }

  lemma FinishTop(succs: seq<seq<Block>>, stack: seq<Event>, b: Block, seen: set<Block>)
    requires Closed(succs) && Inside(succs, stack) && b < |succs|
    ensures Inside(succs, stack + [Enter(b)]) && Inside(succs, stack + [Exit(b)])
    ensures Finish(succs, stack + [Enter(b)], seen) == Visit(succs, b, seen).1 + Finish(succs, stack,
            Visit(succs, b, seen).0)
    ensures Finish(succs, stack + [Exit(b)], seen) == [b] + Finish(succs, stack, seen)
  {
    hide Visit, Closed;
    assert (stack + [Enter(b)])[..|stack|] == stack;
    assert (stack + [Exit(b)])[..|stack|] == stack;
  }

  /** Leaving out successors seen before makes no difference. */
  lemma {:induction false} FinishPush(succs: seq<seq<Block>>, stack: seq<Event>, cs: seq<Block>, seen0: set<Block>,
      seen: set<Block>)
    requires Closed(succs) && Inside(succs, stack) && seen0 <= seen && forall i | 0 <= i < |cs| :: cs[i] < |succs|
    ensures Inside(succs, stack + Unseen(cs, seen0))
    ensures Finish(succs, stack + Unseen(cs, seen0), seen) ==
            VisitAll(succs, cs, seen).1 + Finish(succs, stack, VisitAll(succs, cs, seen).0)
    decreases |cs|
  {
    hide Finish, Closed, Left;
    var all := stack + Unseen(cs, seen0);
    if cs == [] {
      assert all == stack;
    } else {
      var r := Visit(succs, cs[0], seen);
      FinishPush(succs, stack, cs[1..], seen0, r.0);
      var rest := stack + Unseen(cs[1..], seen0);
      assert r.1 + (VisitAll(succs, cs[1..], r.0).1 + Finish(succs, stack, VisitAll(succs, cs, seen).0))
          == VisitAll(succs, cs, seen).1 + Finish(succs, stack, VisitAll(succs, cs, seen).0);
      if cs[0] in seen0 {
        assert all == rest;
      } else {
        assert all == rest + [Enter(cs[0])];
        FinishTop(succs, rest, cs[0], seen);
      }
    }
  }

  lemma FinishEnter(succs: seq<seq<Block>>, stack: seq<Event>, b: Block, seen: set<Block>)
    requires Closed(succs) && Inside(succs, stack) && b < |succs| && b !in seen
    ensures Inside(succs, stack + [Enter(b)]) && Inside(succs, stack + [Exit(b)] + Unseen(succs[b], seen + {b}))
    ensures Finish(succs, stack + [Enter(b)], seen) == Finish(succs, stack + [Exit(b)] + Unseen(succs[b], seen + {b}),
            seen + {b})
  {
    hide Unseen, Finish, VisitAll, Left;
    FinishTop(succs, stack, b, seen);
    var r := VisitAll(succs, succs[b], seen + {b});
    FinishTop(succs, stack, b, r.0);
    FinishPush(succs, stack + [Exit(b)], succs[b], seen + {b}, seen + {b});
    assert r.1 + [b] + Finish(succs, stack, r.0) == r.1 + ([b] + Finish(succs, stack, r.0));
  }

  lemma FinishNone(succs: seq<seq<Block>>, seen: set<Block>)
    requires Closed(succs)
    ensures Finish(succs, [], seen) == []
  {
  }

  lemma SeenDone(succs: seq<seq<Block>>, b: Block, seen: set<Block>)
    requires Closed(succs) && b < |succs|
    ensures b in seen ==> Visit(succs, b, seen) == (seen, [])
  {
  }

  lemma NoBlocks(succs: seq<seq<Block>>)
    ensures DepthFirst(succs, [])
  {
  }

  lemma NoEntry(cfg: Cfg)
    requires cfg.entry >= |cfg.preds|
    ensures PostOrder(cfg, [])
  {
    forall b, s ensures !Path(cfg, s, Point(b, 0)) {
      if Path(cfg, s, Point(b, 0)) { NoPath(cfg, s, Point(b, 0)); }
    }
  }

  lemma {:induction false} NoPath(cfg: Cfg, s: seq<Point>, p: Point)
    requires Path(cfg, s, p)
    ensures cfg.entry < |cfg.preds|
    decreases |s|
  {
    if |s| > 1 { NoPath(cfg, s[..|s| - 1], s[|s| - 2]); }
  }

  // ----- the traversal -----

  /** A block met for the first time: its exit and the successors not yet seen go on the stack. */
  lemma EnterStep(cfg: Cfg, succs: seq<seq<Block>>, stack: seq<Event>, seen: set<Block>, out: seq<Block>, b: Block)
    requires DfsOK(cfg, stack, seen, out) && SuccsOK(cfg, succs) && stack != [] && stack[|stack| - 1] == Enter(b)
             && b !in seen && b < |succs|
    ensures DfsOK(cfg, stack[..|stack| - 1] + [Exit(b)] + Unseen(succs[b], seen + {b}), seen + {b}, out)
  {
    hide Edge, Reachable, Unseen, Called, Partition, Ordered, Covered;
    var n, more := |stack| - 1, Unseen(succs[b], seen + {b});
    var open := stack[..n] + [Exit(b)];
    CalledExit(cfg, stack);
    CalledPush(cfg, open, n, more);
    PartitionEnter(stack, seen, out, b, more);
    assert stack[..n] + ([Exit(b)] + more) == open + more;
    OrderedEnter(cfg, stack, out, [Exit(b)] + more);
    forall c | Edge(cfg, b, c) ensures c in seen + {b} || Enter(c) in [Exit(b)] + more {
      assert c in succs[b];
    }
    CoveredPop(cfg, stack, seen, seen + {b}, [Exit(b)] + more);
  }

  /** A block seen before is dropped, an exit is given out. */
  lemma PopStep(cfg: Cfg, stack: seq<Event>, seen: set<Block>, out: seq<Block>)
    requires DfsOK(cfg, stack, seen, out) && stack != [] && (stack[|stack| - 1].Enter? ==>
             stack[|stack| - 1].block in seen)
    ensures DfsOK(cfg, stack[..|stack| - 1], seen, out + Given(Some(stack[|stack| - 1])))
  {
    hide Edge, Reachable, Called, Partition, Ordered, Covered;
    var n := |stack| - 1;
    CalledPop(cfg, stack);
    assert stack[..n] + [] == stack[..n];
    CoveredPop(cfg, stack, seen, seen, []);
    if stack[n].Enter? {
      assert out + [] == out;
      PartitionSkip(stack, seen, out);
      OrderedEnter(cfg, stack, out, []);
    } else {
      PartitionExit(stack, seen, out, stack[n].block);
      OrderedExit(cfg, stack, out);
    }
  }

  function Given(e: Option<Event>): seq<Block> {
    if e.Some? && e.value.Exit? then [e.value.block] else []
  }

  class Dfs {
    var stack: seq<Event>
    var seen: set<Block>

    ghost predicate Running(succs: seq<seq<Block>>)
      reads this
    {
      Closed(succs) && Inside(succs, stack) && forall b | b in seen :: b < |succs|
    }

    constructor ()
      ensures stack == [] && seen == {}
    {
      stack, seen := [], {};
    }

    /** Start over at the entry block. */
    method Iter(entry: Option<Block>)
      modifies this
      ensures stack == (if entry.Some? then [Enter(entry.value)] else []) && seen == {}
    {
      seen, stack := {}, [];
      if entry.Some? {
        stack := stack + [Enter(entry.value)];
      }
    }

    /** The next event. */
    method Next(succs: seq<seq<Block>>, ghost cfg: Cfg, ghost out: seq<Block>) returns (r: Option<Event>)
      requires Running(succs) && SuccsOK(cfg, succs) && (stack != [] ==> DfsOK(cfg, stack, seen, out))
      modifies this
      ensures Running(succs) && (r.None? <==> old(stack) == [])
      ensures r.None? ==> unchanged(this)
      ensures r.Some? ==> DfsOK(cfg, stack, seen, out + Given(r))
      ensures old(Finish(succs, stack, seen)) == Given(r) + Finish(succs, stack, seen)
      ensures r.Some? ==>
                Left(|succs|, seen) < old(Left(|succs|, seen)) || (seen == old(seen) && |stack| < old(|stack|))
    {
      hide Unseen, DfsOK, Edge, Left, Visit, Closed, Finish;
      if |stack| == 0 {
        return None;
      }
      var top := stack[|stack| - 1];
      ghost var s0, seen0 := stack, seen;
      ghost var rest := stack[..|stack| - 1];
      assert s0 == rest + [top];
      stack := stack[..|stack| - 1];
      FinishTop(succs, rest, top.block, seen);
      if top.Enter? && top.block !in seen {
        seen := seen + {top.block};
        stack := stack + [Exit(top.block)] + Unseen(succs[top.block], seen);
        EnterStep(cfg, succs, s0, seen0, out, top.block);
        assert out + [] == out;
        FinishEnter(succs, rest, top.block, seen0);
        LeftShrinks(|succs|, seen0, seen);
      } else {
        PopStep(cfg, s0, seen0, out);
        SeenDone(succs, top.block, seen);
      }
      return Some(top);
    }

    /** The blocks in the order in which the traversal leaves them. */
    method PostOrderIter(succs: seq<seq<Block>>, cfg: Cfg) returns (post: seq<Block>)
      requires SuccsOK(cfg, succs)
      modifies this
      ensures PostOrder(cfg, post) && DepthFirst(succs, post)
      ensures post == if cfg.entry < |succs| then Visit(succs, cfg.entry, {}).1 else []
    {
      hide Unseen, DfsOK, Edge, Left, Visit, Closed, PostOrder, Finish, DepthFirst;
      post := [];
      if cfg.entry >= |succs| {
        Iter(None);
        NoEntry(cfg);
        NoBlocks(succs);
        return;
      }
      Iter(Some(cfg.entry));
      DfsStart(cfg);
      FinishTop(succs, [], cfg.entry, {});
      FinishNone(succs, Visit(succs, cfg.entry, {}).0);
      assert stack == [] + [Enter(cfg.entry)];
      var e := Some(Enter(cfg.entry));
      while e.Some?
        invariant Running(succs) && DfsOK(cfg, stack, seen, post) && (e.None? ==> stack == [])
        invariant post + Finish(succs, stack, seen) == Visit(succs, cfg.entry, {}).1
        decreases e.Some?, Left(|succs|, seen), |stack|
      {
        e := Next(succs, cfg, post);
        assert post + [] == post;
        post := post + Given(e);
      }
      FinishNone(succs, seen);
      DfsEnd(cfg, seen, post);
      assert post + [] == post;
      VisitOrder(succs, cfg.entry);
    }
  }
}
