/** The worklist that computes the markers at the start of every block. */
module AliasWorklist {
  import opened Options
  import opened DomtreePaths
  import opened AliasFunc
  import opened AliasMarkers

  // ----- one edge -----

  /** The input states after the markers `state` have come along an edge to block `c`. */
  function Flow(input: Inputs, state: LastStores, c: Block): Inputs {
    if c in input then input[c := MeetFrom(input[c], state, Point(c, 1))] else input[c := state]
  }

  lemma FlowEdge(f: Func, input: Inputs, state: LastStores, c: Block)
    ensures EdgeOK(f, Flow(input, state, c), state, c)
  {
  }

  /** An edge that has been absorbed stays absorbed. */
  lemma FlowKeeps(f: Func, input: Inputs, state: LastStores, c: Block, s: LastStores, e: Block)
    requires EdgeOK(f, input, s, e)
    ensures EdgeOK(f, Flow(input, state, c), s, e)
  {
  }

  lemma FlowDone(f: Func, input: Inputs, state: LastStores, c: Block, b: Block)
    requires b < |f.insts| == |f.succs| && b in input && BlockDone(f, input, b) && Flow(input, state, c)[b] == input[b]
    ensures BlockDone(f, Flow(input, state, c), b)
  {
    hide EdgeOK;
    var input' := Flow(input, state, c);
    forall e | e in f.succs[b] ensures EdgeOK(f, input', Out(f, input'[b], b), e) {
      FlowKeeps(f, input, state, c, Out(f, input[b], b), e);
    }
  }

  // ----- termination -----

  function Open(s: LastStores, r: Region, b: Block): nat {
    if Marker(s, r) == Some(Point(b, 1)) then 0 else 1
  }

  /** How often the state of block `b` can still change. */
  ghost function Rank(input: Inputs, b: Block): nat {
    if b !in input then 5
    else Open(input[b], Heap, b) + Open(input[b], Table, b) + Open(input[b], Vmctx, b) + Open(input[b], Other, b)
  }

  ghost function RankSum(input: Inputs, n: nat): nat {
    if n == 0 then 0 else RankSum(input, n - 1) + Rank(input, n - 1)
  }

  lemma FlowRank(input: Inputs, state: LastStores, c: Block)
    ensures var input' := Flow(input, state, c);
            Rank(input', c) <= Rank(input, c) && (c !in input || input'[c] != input[c] ==>
                Rank(input', c) < Rank(input, c))
  {
    if c in input {
      var s, s' := input[c], Flow(input, state, c)[c];
      forall r ensures Open(s', r, c) <= Open(s, r, c) && (Marker(s', r) != Marker(s, r) ==>
          Open(s', r, c) < Open(s, r, c)) {}
      if s != s' {
        assert Marker(s, Heap) != Marker(s', Heap) || Marker(s, Table) != Marker(s', Table)
            || Marker(s, Vmctx) != Marker(s', Vmctx) || Marker(s, Other) != Marker(s', Other);
      }
    }
  }

  lemma {:induction false} RankSumChange(input: Inputs, input': Inputs, c: Block, n: nat)
    requires forall b | b != c :: Rank(input', b) == Rank(input, b)
    ensures RankSum(input', n) == RankSum(input, n) + if c < n then Rank(input', c) - Rank(input, c) else 0
    decreases n
  {
    if n > 0 {
      RankSumChange(input, input', c, n - 1);
    }
  }

  lemma FlowFalls(input: Inputs, state: LastStores, c: Block, n: nat)
    requires c < n
    ensures var input' := Flow(input, state, c);
            RankSum(input', n) <= RankSum(input, n) && (c !in input || input'[c] != input[c] ==>
                RankSum(input', n) < RankSum(input, n))
  {
    FlowRank(input, state, c);
    RankSumChange(input, Flow(input, state, c), c, n);
  }

  lemma {:induction false} RankSumDefault(input: Inputs, b: Block, n: nat)
    requires b !in input
    ensures RankSum(input[b := NO_STORES], n) <= RankSum(input, n)
    decreases n
  {
    if n > 0 {
      RankSumDefault(input, b, n - 1);
    }
  }

  // ----- the queue -----

  ghost predicate QueueOK(f: Func, queue: seq<Block>, queueSet: set<Block>) {
    && (forall b :: b in queueSet <==> b in queue)
    && (forall i, j | 0 <= i < j < |queue| :: queue[i] != queue[j])
    && (forall b | b in queue :: b < |f.insts|)
  }

  /** All blocks that are not in the queue agree with their successors. */
  ghost predicate Working(f: Func, input: Inputs, waiting: set<Block>)
    requires |f.insts| == |f.succs|
  {
    && (forall b | b in input :: b < |f.insts|)
    && (forall b | b in input && b !in waiting :: BlockDone(f, input, b))
    && (if f.cfg.entry in input then EdgeOK(f, input, NO_STORES, f.cfg.entry) else f.cfg.entry in waiting)
  }

  lemma WorkDone(f: Func, input: Inputs)
    requires BlocksOK(f) && Working(f, input, {})
    ensures Consistent(f, input)
  {
  }

  /** Block `b` is taken from the queue; a block without a state gets the initial one. */
  lemma WorkStart(f: Func, input: Inputs, waiting: set<Block>, b: Block)
    requires |f.insts| == |f.succs| && Working(f, input, waiting) && b in waiting && b < |f.insts|
             && (b in input || b == f.cfg.entry)
    ensures var input' := if b in input then input else input[b := NO_STORES]; Working(f, input', waiting)
  {
    hide Absorbs, Out;
    if b !in input {
      var input' := input[b := NO_STORES];
      assert EdgeOK(f, input', NO_STORES, b) by { SelfAbsorbs(NO_STORES, b); }
      forall x | x in input' && x !in waiting ensures BlockDone(f, input', x) {
        assert BlockDone(f, input, x);
        forall e | e in f.succs[x] ensures EdgeOK(f, input', Out(f, input'[x], x), e) {
          assert EdgeOK(f, input, Out(f, input[x], x), e);
        }
      }
    }
  }

  lemma WorkInit(f: Func)
    requires |f.insts| == |f.succs|
    ensures Working(f, map[], {f.cfg.entry}) && QueueOK(f, [f.cfg.entry], {f.cfg.entry}) == (f.cfg.entry < |f.insts|)
  {
    assert f.cfg.entry in [f.cfg.entry];
  }

  /** All successors of `b` have taken up the markers at its end. */
  lemma WorkFinish(f: Func, input: Inputs, waiting: set<Block>, b: Block, state: LastStores)
    requires |f.insts| == |f.succs| && b < |f.insts| && Working(f, input, waiting + {b}) && b in input
    requires b in waiting || (state == Out(f, input[b], b) && forall e | e in f.succs[b] :: EdgeOK(f, input, state, e))
    requires f.cfg.entry in input
    ensures Working(f, input, waiting)
  {
    hide EdgeOK, Out;
    if b in waiting {
      assert waiting + {b} == waiting;
    }
  }

  lemma QueuePop(f: Func, queue: seq<Block>, queueSet: set<Block>)
    requires QueueOK(f, queue, queueSet) && queue != []
    ensures var b := queue[|queue| - 1];
            b in queueSet && b < |f.insts| && QueueOK(f, queue[..|queue| - 1], queueSet - {b})
                && queueSet - {b} + {b} == queueSet
  {
    var b, q := queue[|queue| - 1], queue[..|queue| - 1];
    assert b in queue && queue == q + [b];
    assert forall i | 0 <= i < |q| :: q[i] == queue[i] && queue[i] in queue;
    forall x: Block ensures x in queueSet - {b} <==> x in q {
      assert x in queue <==> x in q || x == b;
    }
  }

  lemma QueuePush(f: Func, queue: seq<Block>, queueSet: set<Block>, b: Block)
    requires QueueOK(f, queue, queueSet) && b !in queueSet && b < |f.insts|
    ensures QueueOK(f, queue + [b], queueSet + {b})
  {
    forall i, j | 0 <= i < j < |queue + [b]| ensures (queue + [b])[i] != (queue + [b])[j] {
      assert queue[i] in queue;
    }
  }

  lemma SelfAbsorbs(s: LastStores, b: Block)
    ensures Absorbs(s, s, b)
  {
  }

  /** The markers `state` at the end of block `b` flow to its successor `c`; `c` waits if its state changes. */
  lemma WorkFlow(f: Func, input: Inputs, waiting: set<Block>, waiting': set<Block>, state: LastStores, c: Block)
    requires |f.insts| == |f.succs| && Working(f, input, waiting) && f.cfg.entry in input && c < |f.insts|
             && waiting <= waiting'
    requires c !in input || Flow(input, state, c)[c] != input[c] ==> c in waiting'
    ensures Working(f, Flow(input, state, c), waiting')
  {
    hide EdgeOK, BlockDone;
    var input' := Flow(input, state, c);
    forall x | x in input' && x !in waiting' ensures BlockDone(f, input', x) {
      FlowDone(f, input, state, c, x);
    }
    FlowKeeps(f, input, state, c, NO_STORES, f.cfg.entry);
  }

  // ----- the steps of the worklist -----

  type Work = (Inputs, seq<Block>)

  /** The markers `state` come to block `c`, which is queued if its state changes. */
  function FlowTo(w: Work, state: LastStores, c: Block): Work {
    var input := Flow(w.0, state, c);
    (input, if (c !in w.0 || input[c] != w.0[c]) && c !in w.1 then w.1 + [c] else w.1)
  }

  function FlowAll(w: Work, state: LastStores, cs: seq<Block>): Work
    decreases |cs|
  {
    if cs == [] then w else FlowTo(FlowAll(w, state, cs[..|cs| - 1]), state, cs[|cs| - 1])
  }

  /** The last block of the queue is taken. */
  ghost function WorkStep(f: Func, w: Work): Work
    requires |f.insts| == |f.succs| && w.1 != [] && w.1[|w.1| - 1] < |f.insts|
  {
    var b := w.1[|w.1| - 1];
    var input := if b in w.0 then w.0 else w.0[b := NO_STORES];
    FlowAll((input, w.1[..|w.1| - 1]), Out(f, input[b], b), f.succs[b])
  }

  /** The worklist after `n` steps, or when it is empty. */
  ghost function Steps(f: Func, n: nat): Work
    requires |f.insts| == |f.succs|
  {
    if n == 0 then (map[], [f.cfg.entry])
    else
      var w := Steps(f, n - 1);
      if w.1 == [] || w.1[|w.1| - 1] >= |f.insts| then w else WorkStep(f, w)
  }

  lemma {:induction false} StepsEnd(f: Func, n: nat, m: nat)
    requires |f.insts| == |f.succs| && Steps(f, n).1 == [] && n <= m
    ensures Steps(f, m) == Steps(f, n)
    decreases m
  {
    if n < m {
      StepsEnd(f, n, m - 1);
    }
  }
}
