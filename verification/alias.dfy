/** Alias analysis: last stores, known memory values, and the replacement of redundant loads. */
module AliasAnalysis {
  import opened Options
  import opened DomtreePaths
  import opened Domtree
  import opened AliasFunc
  import opened AliasMarkers
  import opened AliasPrecise
  import opened AliasWorklist
  import opened AliasTrace
  import opened AliasValues
  import opened AliasEquiv
  import opened AliasReuse

  /** The table of values of a function, as far as aliases go. */
  class Dfg {
    var aliases: seq<Alias>

    constructor ()
      ensures aliases == []
    {
      aliases := [];
    }

    /** Make the result of the load at `at` an alias of what `src` resolves to. */
    method ChangeToAlias(at: Point, dest: Value, src: Value)
      modifies this
      ensures aliases == old(aliases) + [Alias(at, dest, Resolve(old(aliases), src))]
    {
      aliases := aliases + [Alias(at, dest, Resolve(aliases, src))];
    }
  }

  class Analysis {
    const domtree: DominatorTree
    var blockInput: Inputs
    var memValues: map<MemoryLoc, Known>
    /** The instructions that were processed. */
    ghost var done: set<Point>

    /** Block states agree along every edge, and what is noted about memory holds in every run. */
    ghost predicate Valid(f: Func, m: Machine)
      reads this, domtree
    {
      && FuncOK(f) && domtree.Valid(f.cfg) && Consistent(f, blockInput) && Precise(f, blockInput)
      && (forall key | key in memValues :: memValues[key].def in done
           && KnownOK(f, m, blockInput, key, memValues[key].def, memValues[key].value))
    }

    constructor (f: Func, domtree: DominatorTree, ghost m: Machine)
      requires FuncOK(f) && domtree.Valid(f.cfg)
      ensures Valid(f, m) && this.domtree == domtree && done == {}
    {
      this.domtree, blockInput, memValues, done := domtree, map[], map[], {};
      new;
      ComputeBlockInputStates(f);
    }

    /** Compute the markers at the start of every block. */
    method ComputeBlockInputStates(f: Func)
      requires BlocksOK(f) && blockInput == map[]
      modifies this`blockInput
      ensures Consistent(f, blockInput) && Precise(f, blockInput) && exists n :: Steps(f, n) == (blockInput, [])
    {
      hide Working, RankSum, Consistent, QueueOK, FlowAll, Precise;
      var entry := f.cfg.entry;
      var queue: seq<Block>, queueSet: set<Block> := [entry], {entry};
      WorkInit(f);
      ghost var step: nat := 0;
      while queue != []
        invariant Steps(f, step) == (blockInput, queue)
        invariant QueueOK(f, queue, queueSet) && Working(f, blockInput, queueSet)
        invariant forall b | b in queue :: b in blockInput || b == entry
        invariant entry in blockInput || queue == [entry]
        decreases RankSum(blockInput, |f.insts|), |queue|
      {
        var block := queue[|queue| - 1];
        QueuePop(f, queue, queueSet);
        assert block in queue;
        queue := queue[..|queue| - 1];
        WorkStart(f, blockInput, queueSet, block);
        if block !in blockInput {
          RankSumDefault(blockInput, block, |f.insts|);
          blockInput := blockInput[block := NO_STORES];
        }
        queueSet := queueSet - {block};
        var state := blockInput[block];
        for n := 0 to |f.insts[block]|
          invariant state == After(f, blockInput[block], block, n)
        {
          state := Update(state, f.insts[block][n], Point(block, n + 1));
        }
        queue, queueSet := FlowSuccs(f, block, state, queue, queueSet);
        step := step + 1;
      }
      StepsPrecise(f, step);
      assert queueSet == {} by { QueueEmpty(f, queueSet); }
      WorkDone(f, blockInput);
    }

    /** Hand the markers at the end of `block` to its successors, and queue those whose state changes. */
    method FlowSuccs(f: Func, block: Block, state: LastStores, queue: seq<Block>, queueSet: set<Block>)
        returns (queue': seq<Block>, queueSet': set<Block>)
      requires BlocksOK(f) && block < |f.insts| && block in blockInput && f.cfg.entry in blockInput
               && block !in queueSet
      requires QueueOK(f, queue, queueSet) && Working(f, blockInput, queueSet + {block}) && state ==
               Out(f, blockInput[block], block)
      requires forall b | b in queue :: b in blockInput
      modifies this`blockInput
      ensures QueueOK(f, queue', queueSet') && Working(f, blockInput, queueSet') && f.cfg.entry in blockInput
              && forall b | b in queue' :: b in blockInput
      ensures RankSum(blockInput, |f.insts|) <= old(RankSum(blockInput, |f.insts|))
      ensures RankSum(blockInput, |f.insts|) == old(RankSum(blockInput, |f.insts|)) ==> queue' == queue
      ensures (blockInput, queue') == FlowAll((old(blockInput), queue), state, f.succs[block])
    {
      hide Working, RankSum, QueueOK, EdgeOK, Out, CfgOK, MeetFrom, Jump, InstOK, Reachable;
      queue', queueSet' := queue, queueSet;
      var succs := f.succs[block];
      for i := 0 to |succs|
        invariant (blockInput, queue') == FlowAll((old(blockInput), queue), state, succs[..i])
        invariant QueueOK(f, queue', queueSet') && Working(f, blockInput, queueSet' + {block})
        invariant f.cfg.entry in blockInput && block in blockInput && forall b | b in queue' :: b in blockInput
        invariant forall j | 0 <= j < i :: EdgeOK(f, blockInput, state, succs[j])
        invariant block in queueSet' || blockInput[block] == old(blockInput[block])
        invariant RankSum(blockInput, |f.insts|) <= old(RankSum(blockInput, |f.insts|))
        invariant RankSum(blockInput, |f.insts|) == old(RankSum(blockInput, |f.insts|)) ==> queue' == queue
      {
        var succ := succs[i];
        assert succ in f.succs[block];
        ghost var input := blockInput;
        FlowFalls(input, state, succ, |f.insts|);
        FlowEdge(f, input, state, succ);
        forall j | 0 <= j < i ensures EdgeOK(f, Flow(input, state, succ), state, succs[j]) {
          FlowKeeps(f, input, state, succ, state, succs[j]);
        }
        var updated;
        if succ in blockInput {
          var old_ := blockInput[succ];
          blockInput := blockInput[succ := MeetFrom(old_, state, Point(succ, 1))];
          updated := blockInput[succ] != old_;
        } else {
          blockInput := blockInput[succ := state];
          updated := true;
        }
        assert succs[..i + 1][..i] == succs[..i];
        QueueSame(f, queue', queueSet');
        ghost var waiting := queueSet' + {block};
        if updated && succ !in queueSet' {
          QueuePush(f, queue', queueSet', succ);
          queue', queueSet' := queue' + [succ], queueSet' + {succ};
        }
        WorkFlow(f, input, waiting, queueSet' + {block}, state, succ);
      }
      assert succs[..|succs|] == succs;
      WorkFinish(f, blockInput, queueSet', block, state);
    }

    /** Process one instruction, given the markers before it; return the markers after it, and the value that
    replaces it if it is a redundant load. */
    method ProcessInst(f: Func, dfg: Dfg, state: LastStores, p: Point, ghost m: Machine)
        returns (state': LastStores, r: Option<Value>)
      requires Valid(f, m) && MachineOK(f, m) && RegionsOK(f, m) && LogOK(f, m, dfg.aliases)
      requires IsInst(f, p) && p !in done && state == StateAt(f, blockInput, p)
      modifies this`memValues, this`done
      ensures Valid(f, m) && done == old(done) + {p} && state' == Update(state, InstAt(f, p), p)
      ensures r.Some? ==> InstAt(f, p).results != [] && AliasOK(f, m,
              Alias(p, InstAt(f, p).results[0], Resolve(dfg.aliases, r.value)))
      ensures r.Some? ==> IsLoad(InstAt(f, p)) && Reads(f, m, r.value, p)
      ensures InstOK(InstAt(f, p)) && TableStep(f, blockInput, dfg.aliases, p, old(memValues), memValues, r)
    {
      hide Consistent, Precise, KnownOK, AliasOK, LogOK, MachineOK, RegionsOK, Ssa, StateAt, Reads, Reachable, Dom,
          DominatorTree.Valid;
      r := None;
      var i := InstAt(f, p);
      InstFacts(f, p);
      done := done + {p};
      if i.access.Some? {
        var a := i.access.value;
        var address := Resolve(dfg.aliases, a.address);
        if CanStore(i.op) {
          var data := Resolve(dfg.aliases, a.data.value);
          var loc := MemoryLoc(Some(p), address, a.offset, a.ty, ExtOpcode(i.op));
          StoreKnown(f, m, dfg.aliases, blockInput, loc, p, data);
          memValues := memValues[loc := Known(p, data)];
        } else if CanLoad(i.op) {
          var loc := MemoryLoc(GetLastStore(state, i, p), address, a.offset, a.ty, ExtOpcode(i.op));
          LoadLoc(f, m, dfg.aliases, blockInput, loc, p);
          if loc in memValues {
            var known := memValues[loc];
            var dominates := domtree.Dominates(known.def, p, f.cfg);
            if dominates {
              r := Some(known.value);
              NewAlias(f, m, dfg.aliases, blockInput, loc, known.def, known.value, p);
              KnownReads(f, m, blockInput, loc, known.def, known.value, p);
            }
          }
          if r.None? {
            LoadKnown(f, m, blockInput, loc, p);
            memValues := memValues[loc := Known(p, i.results[0])];
          }
        }
      }
      state' := Update(state, i, p);
    }

    /** Replace all redundant loads, visiting the blocks in the given order. */
    method ComputeAndUpdateAliases(f: Func, dfg: Dfg, order: seq<Block>, ghost m: Machine)
      requires Valid(f, m) && MachineOK(f, m) && RegionsOK(f, m) && done == {} && dfg.aliases == []
      requires (forall i | 0 <= i < |order| :: order[i] < |f.insts|) && forall i, j | 0 <= i < j < |order| ::
               order[i] != order[j]
      modifies this`memValues, this`done, dfg
      ensures Valid(f, m) && Equivalent(f, m, dfg.aliases)
      ensures forall i | 0 <= i < |dfg.aliases| :: AliasOK(f, m, dfg.aliases[i])
      ensures DomFirst(f.cfg, order) && Contiguous(f.cfg, order) ==> Maximal(f, blockInput, dfg.aliases, order)
    {
      hide Consistent, Precise, KnownOK, AliasOK, FuncOK, LogOK, MachineOK, RegionsOK, Equivalent, Fresh,
          DominatorTree.Valid, HeldAll, NoneMissed, TableStep, DomFirst, Contiguous, Logged, DefAt;
      NoAliases(f, m);
      assert memValues == map[];
      ReuseStart(f, blockInput, order);
      for i := 0 to |order|
        invariant Reusing(f, blockInput, dfg.aliases, memValues, order, i, 0)
        invariant Valid(f, m) && LogOK(f, m, dfg.aliases) && Fresh(dfg.aliases)
        invariant forall q | q in done :: q.block in order[..i]
        invariant forall a | a in dfg.aliases :: a.at in done
      {
        var block := order[i];
        assert block !in order[..i];
        var state := Start(blockInput, block);
        for n := 0 to |f.insts[block]|
          invariant Reusing(f, blockInput, dfg.aliases, memValues, order, i, n)
          invariant Valid(f, m) && LogOK(f, m, dfg.aliases) && Fresh(dfg.aliases)
          invariant forall q | q in done :: q.block in order[..i] || (q.block == block && q.at <= n)
          invariant forall a | a in dfg.aliases :: a.at in done
          invariant state == After(f, Start(blockInput, block), block, n)
        {
          var p := Point(block, n + 1);
          ghost var log, table := dfg.aliases, memValues;
          var state', r := ProcessInst(f, dfg, state, p, m);
          state := state';
          if r.Some? {
            Replaced(f, m, dfg.aliases, p, r.value);
            dfg.ChangeToAlias(p, f.insts[block][n].results[0], r.value);
          }
          LoggedAs(f, log, dfg.aliases, p, r);
          ReuseStep(f, m, blockInput, log, dfg.aliases, table, memValues, order, i, n, r);
        }
        if DomFirst(f.cfg, order) && Contiguous(f.cfg, order) {
          ReuseNext(f, blockInput, dfg.aliases, memValues, order, i, |f.insts[block]|);
        }
        assert order[..i + 1] == order[..i] + [block];
      }
      LogAll(f, m, dfg.aliases);
      if DomFirst(f.cfg, order) && Contiguous(f.cfg, order) {
        ReuseEnd(f, blockInput, dfg.aliases, order);
      }
    }
  }

  lemma LoggedAs(f: Func, log: seq<Alias>, log': seq<Alias>, p: Point, r: Option<Value>)
    requires IsInst(f, p) && (r.None? ==> log' == log)
    requires r.Some? ==>
               InstAt(f, p).results != [] && |log'| == |log| + 1 && log'[..|log|] == log
               && log'[|log|].at == p && log'[|log|].from == InstAt(f, p).results[0]
    ensures Logged(f, log, log', p, r)
  {
  }

  lemma NoAliases(f: Func, m: Machine)
    ensures LogOK(f, m, []) && Fresh([])
  {
  }

  lemma LogAll(f: Func, m: Machine, log: seq<Alias>)
    requires FuncOK(f) && LogOK(f, m, log) && Fresh(log)
    ensures Equivalent(f, m, log) && forall i | 0 <= i < |log| :: AliasOK(f, m, log[i])
  {
    hide Equivalent, AliasOK, FuncOK, Fresh;
    LogEquivalent(f, m, log);
  }

  lemma Replaced(f: Func, m: Machine, log: seq<Alias>, p: Point, v: Value)
    requires FuncOK(f) && LogOK(f, m, log) && Fresh(log) && IsInst(f, p) && InstAt(f, p).results != []
    requires AliasOK(f, m, Alias(p, InstAt(f, p).results[0], Resolve(log, v))) && forall a | a in log :: a.at != p
    ensures var a := Alias(p, InstAt(f, p).results[0], Resolve(log, v)); LogOK(f, m, log + [a]) && Fresh(log + [a])
  {
    hide AliasOK, FuncOK, LogOK, Fresh;
    ResolveFresh(log, v);
    LogAppend(f, m, log, Alias(p, InstAt(f, p).results[0], Resolve(log, v)));
  }

  lemma InstFacts(f: Func, p: Point)
    requires FuncOK(f) && IsInst(f, p)
    ensures InstOK(InstAt(f, p)) && UsesOK(f, p) && (IsLoad(InstAt(f, p)) ==> Reachable(f.cfg, p.block))
  {
  }

  lemma LocResolved(f: Func, m: Machine, log: seq<Alias>, loc: MemoryLoc, p: Point)
    requires FuncOK(f) && LogOK(f, m, log) && IsInst(f, p) && InstAt(f, p).access.Some?
    requires var a := InstAt(f, p).access.value;
             loc.address == Resolve(log, a.address) && loc.offset == a.offset && loc.ty == a.ty && loc.ext ==
                 ExtOpcode(InstAt(f, p).op)
    ensures LocAt(f, m, loc, p)
  {
    hide SameAt, Avail, LogOK, BlocksOK;
    InstFactsSsa(f, p);
    OperandsIn(InstAt(f, p));
    Resolved(f, m, log, InstAt(f, p).access.value.address, p);
  }

  lemma InstFactsSsa(f: Func, p: Point)
    requires Ssa(f) && IsInst(f, p)
    ensures UsesOK(f, p)
  {
  }

  lemma StoreKnown(f: Func, m: Machine, log: seq<Alias>, input: Inputs, loc: MemoryLoc, p: Point, data: Value)
    requires FuncOK(f) && LogOK(f, m, log) && IsInst(f, p) && InstOK(InstAt(f, p)) && IsStore(InstAt(f, p))
             && loc.lastStore == Some(p)
    requires var a := InstAt(f, p).access.value;
             && loc.address == Resolve(log, a.address) && loc.offset == a.offset && loc.ty == a.ty && loc.ext ==
                 ExtOpcode(InstAt(f, p).op)
             && a.data.Some? && data == Resolve(log, a.data.value)
    ensures KnownOK(f, m, input, loc, p, data)
  {
    hide SameAt, Avail, LogOK, BlocksOK, LocAt;
    InstFactsSsa(f, p);
    LocResolved(f, m, log, loc, p);
    OperandsIn(InstAt(f, p));
    Resolved(f, m, log, InstAt(f, p).access.value.data.value, p);
  }

  lemma LoadLoc(f: Func, m: Machine, log: seq<Alias>, input: Inputs, loc: MemoryLoc, p: Point)
    requires FuncOK(f) && LogOK(f, m, log) && IsInst(f, p) && InstOK(InstAt(f, p)) && IsLoad(InstAt(f, p))
    requires loc.lastStore == GetLastStore(StateAt(f, input, p), InstAt(f, p), p)
    requires var a := InstAt(f, p).access.value;
             loc.address == Resolve(log, a.address) && loc.offset == a.offset && loc.ty == a.ty && loc.ext ==
                 ExtOpcode(InstAt(f, p).op)
    ensures LoadOf(f, m, input, loc, p)
  {
    hide LocAt, LogOK, BlocksOK, StateAt;
    LocResolved(f, m, log, loc, p);
  }

  lemma LoadKnown(f: Func, m: Machine, input: Inputs, loc: MemoryLoc, p: Point)
    requires LoadOf(f, m, input, loc, p)
    ensures KnownOK(f, m, input, loc, p, InstAt(f, p).results[0])
  {
    hide LocAt, StateAt;
  }

  lemma QueueSame(f: Func, queue: seq<Block>, queueSet: set<Block>)
    requires QueueOK(f, queue, queueSet)
    ensures forall b :: b in queueSet <==> b in queue
  {
  }

  lemma QueueEmpty(f: Func, queueSet: set<Block>)
    requires QueueOK(f, [], queueSet)
    ensures queueSet == {}
  {
  }
}
