/** Which loads are replaced: what the table of memory values holds, and when it misses nothing. */
module AliasReuse {
  import opened Options
  import opened DomtreePaths
  import opened AliasFunc
  import opened AliasPaths
  import opened AliasMarkers
  import opened AliasTrace
  import opened AliasValues
  import opened AliasEquiv

  type Table = map<MemoryLoc, Known>

  /** The instruction is a load or store of a location. */
  ghost predicate Accesses(f: Func, p: Point) {
    IsInst(f, p) && (IsLoad(InstAt(f, p)) || IsStore(InstAt(f, p)))
  }

  /** The store that the instruction is or follows, as far as the markers tell. */
  ghost function Mark(f: Func, input: Inputs, p: Point): Option<Point>
    requires IsInst(f, p)
  {
    if CanStore(InstAt(f, p).op) then Some(p) else GetLastStore(StateAt(f, input, p), InstAt(f, p), p)
  }

  /** The location, with the aliases `log` in force. */
  function LocOf(log: seq<Alias>, i: Inst, last: Option<Point>): MemoryLoc
    requires i.access.Some?
  {
    var a := i.access.value;
    MemoryLoc(last, Resolve(log, a.address), a.offset, a.ty, ExtOpcode(i.op))
  }

  ghost function KeyAt(f: Func, input: Inputs, log: seq<Alias>, p: Point): MemoryLoc
    requires Accesses(f, p)
  {
    LocOf(log, InstAt(f, p), Mark(f, input, p))
  }

  /** What one instruction does: a store notes its data; a load is replaced if the table has its location from an
  instruction that dominates it, and notes its result if not. */
  ghost predicate TableStep(f: Func, input: Inputs, log: seq<Alias>, p: Point, table: Table, table': Table,
      r: Option<Value>)
    requires IsInst(f, p) && InstOK(InstAt(f, p))
  {
    var i := InstAt(f, p);
    if IsStore(i) then
      r == None && table' == table[KeyAt(f, input, log, p) := Known(p, Resolve(log, i.access.value.data.value))]
    else if IsLoad(i) then
      var key := KeyAt(f, input, log, p);
      if key in table && Dom(f.cfg, table[key].def, p) then r == Some(table[key].value) && table' == table
      else r == None && table' == table[key := Known(p, i.results[0])]
    else
      r == None && table' == table
  }

  // ----- orders of blocks -----

  ghost predicate Under(cfg: Cfg, a: Block, b: Block) {
    Dom(cfg, Point(a, 0), Point(b, 0))
  }

  /** No block comes before one that dominates it. */
  ghost predicate DomFirst(cfg: Cfg, order: seq<Block>) {
    forall i, j | 0 <= i < j < |order| && Reachable(cfg, order[i]) :: !Under(cfg, order[j], order[i])
  }

  /** All blocks between a block and one that it dominates are dominated by it, too. */
  ghost predicate Contiguous(cfg: Cfg, order: seq<Block>) {
    forall i, j, k | 0 <= i < j < k < |order| && Under(cfg, order[i], order[k]) :: Under(cfg, order[i], order[j])
  }

  // ----- what is noted stays -----

  ghost predicate Held(f: Func, input: Inputs, log: seq<Alias>, table: Table, p: Point)
    requires Accesses(f, p)
  {
    var key := KeyAt(f, input, log, p);
    key in table && Dom(f.cfg, table[key].def, p)
  }

  /** Instruction `p` was visited, in block `j` of the order, when the first `n` instructions of block `i` are done. */
  ghost predicate Visited(order: seq<Block>, i: nat, n: nat, j: nat, p: Point) {
    j <= i && j < |order| && p.block == order[j] && (j == i ==> p.at <= n)
  }

  /** All blocks from `j` to `i` are dominated by block `j`. */
  ghost predicate Inside(cfg: Cfg, order: seq<Block>, j: nat, i: nat) {
    i < |order| && forall k | j <= k <= i :: Under(cfg, order[j], order[k])
  }

  ghost predicate HeldAll(f: Func, input: Inputs, log: seq<Alias>, table: Table, order: seq<Block>, i: nat, n: nat) {
    forall j, p |
      Visited(order, i, n, j, p) && Accesses(f, p) && Reachable(f.cfg, p.block) && Inside(f.cfg, order, j, i) ::
      Held(f, input, log, table, p)
  }

  /** `p` makes the load at `x` redundant: it accesses the same location under the same marker, and dominates it. */
  ghost predicate Provides(f: Func, input: Inputs, p: Point, x: Point) {
    && Accesses(f, p) && Accesses(f, x) && IsLoad(InstAt(f, x)) && Dom(f.cfg, p, x) && p != x
    && LocOf([], InstAt(f, p), Mark(f, input, p)) == LocOf([], InstAt(f, x), Mark(f, input, x))
  }

  /** No redundant load among those visited was missed. */
  ghost predicate NoneMissed(f: Func, input: Inputs, log: seq<Alias>, order: seq<Block>, i: nat, n: nat) {
    forall j, p: Point, x: Point | Visited(order, i, n, j, x) && p.block in order && Provides(f, input, p, x) ::
      Removed(log, x)
  }

  /** The same for all blocks of the order. */
  ghost predicate Maximal(f: Func, input: Inputs, log: seq<Alias>, order: seq<Block>) {
    forall p: Point, x: Point | p.block in order && x.block in order && Provides(f, input, p, x) :: Removed(log, x)
  }

  // ----- dominance of instructions -----

  /** An instruction dominates what comes later in its block and everything in blocks that its block dominates. */
  lemma InstUnder(f: Func, p: Point, x: Point)
    requires BlocksOK(f) && IsInst(f, p) && Under(f.cfg, p.block, x.block) && (p.block == x.block ==> p.at <= x.at)
    ensures Dom(f.cfg, p, x)
  {
    hide BlocksOK, Dom;
    if p.block == x.block {
      DomEarlier(f.cfg, p, x);
    } else {
      assert Dom(f.cfg, Point(p.block, 0), x) by { DomLater(f.cfg, Point(p.block, 0), x); }
      LastBranch(f, p.block);
      PassesAll(f.cfg, p.block, |f.insts[p.block]|, p.at, x);
    }
  }

  lemma LastBranch(f: Func, b: Block)
    requires BlocksOK(f) && b < |f.insts|
    ensures forall q, c | Jump(f.cfg, q, c) && q.block == b :: q.at == |f.insts[b]|
  {
  }

  lemma PassesAll(cfg: Cfg, h: Block, n: nat, k: nat, x: Point)
    requires (forall q, c | Jump(cfg, q, c) && q.block == h :: q.at == n) && k <= n && h != x.block
    requires Dom(cfg, Point(h, 0), x)
    ensures Dom(cfg, Point(h, k), x)
  {
    forall s | Path(cfg, s, x) ensures Point(h, k) in s {
      Leaves(cfg, s, x, h, n, k);
    }
  }

  /** Dominance of instructions comes from dominance of blocks. */
  lemma UnderInst(f: Func, p: Point, x: Point)
    requires Dom(f.cfg, p, x) && Reachable(f.cfg, x.block)
    ensures Under(f.cfg, p.block, x.block)
    ensures p.block == x.block ==> p.at <= x.at
  {
    if p.block == x.block {
      DomEarlier(f.cfg, Point(x.block, 0), Point(x.block, 0));
      if p.at > x.at {
        var s0 :| Path(f.cfg, s0, Point(x.block, 0));
        var s := Through(f.cfg, s0, x.block, x.at);
        DomEarlier(f.cfg, x, p);
        NotMutual(f.cfg, s, p, x);
      }
    } else {
      DomEarlier(f.cfg, Point(p.block, 0), p);
      DomTrans(f.cfg, Point(p.block, 0), p, x);
      DomHeader(f.cfg, Point(p.block, 0), x);
    }
  }

  // ----- one instruction -----

  /** The location of an instruction does not change when a load that does not strictly dominate it is replaced. */
  lemma KeyStable(f: Func, m: Machine, input: Inputs, log: seq<Alias>, a: Alias, p: Point)
    requires FuncOK(f) && LogOK(f, m, log) && Accesses(f, p) && Reachable(f.cfg, p.block)
    requires DefAt(f, a.from, a.at) && (Dom(f.cfg, a.at, p) ==> a.at == p)
    ensures KeyAt(f, input, log + [a], p) == KeyAt(f, input, log, p)
  {
    hide LogOK, BlocksOK, SameAt, DefAt, Dom, Reachable, StateAt;
    var x := InstAt(f, p).access.value.address;
    OperandsIn(InstAt(f, p));
    assert UsesOK(f, p);
    Resolved(f, m, log, x, p);
    ResolveAppend(log, a, x);
    var y := Resolve(log, x);
    var d :| DefAt(f, y, d) && Before(f, d, p);
    assert y == a.from ==> d == a.at;
  }

  /** A store that is the marker of an instruction dominates it. */
  lemma MarkDominates(f: Func, input: Inputs, p: Point, x: Point)
    requires BlocksOK(f) && Consistent(f, input) && Accesses(f, p) && IsLoad(InstAt(f, p)) && InstOK(InstAt(f, p))
    requires Mark(f, input, p) == Some(x)
    ensures Dom(f.cfg, x, p)
  {
    hide BlocksOK, Consistent, StateAt, MarkerOK;
    var r := InstAt(f, p).memflags.value;
    forall s | Path(f.cfg, s, p) ensures x in s {
      MarkersSound(f, input, s, p, r);
      MarkerIn(f, s, r, x);
    }
  }

  lemma MarkerIn(f: Func, s: seq<Point>, r: Region, x: Point)
    requires MarkerOK(f, s, r, Some(x))
    ensures x in s
  {
  }

  lemma PathTo(f: Func, p: Point) returns (s: seq<Point>)
    requires Reachable(f.cfg, p.block)
    ensures Path(f.cfg, s, p)
  {
    var s0 :| Path(f.cfg, s0, Point(p.block, 0));
    s := Through(f.cfg, s0, p.block, p.at);
  }

  /** What instruction `p` noted is still there after an instruction `x` that `p` dominates. */
  lemma HeldKept(f: Func, input: Inputs, log: seq<Alias>, table: Table, table': Table, p: Point, x: Point,
      r: Option<Value>)
    requires BlocksOK(f) && Consistent(f, input) && Accesses(f, p) && Reachable(f.cfg, p.block)
    requires IsInst(f, x) && InstOK(InstAt(f, x)) && Dom(f.cfg, p, x) && p != x
    requires Held(f, input, log, table, p) && TableStep(f, input, log, x, table, table', r)
    ensures Held(f, input, log, table', p)
  {
    hide BlocksOK, Consistent, Mark, Dom, Reachable;
    var key := KeyAt(f, input, log, p);
    if Accesses(f, x) && KeyAt(f, input, log, x) == key {
      if IsStore(InstAt(f, x)) {
        StoreNotMark(f, input, log, p, x);
      } else {
        DomTrans(f.cfg, table[key].def, p, x);
      }
    }
  }

  lemma StoreNotMark(f: Func, input: Inputs, log: seq<Alias>, p: Point, x: Point)
    requires BlocksOK(f) && Consistent(f, input) && Accesses(f, p) && Reachable(f.cfg, p.block)
    requires Accesses(f, x) && IsStore(InstAt(f, x)) && Dom(f.cfg, p, x) && p != x
    ensures KeyAt(f, input, log, x) != KeyAt(f, input, log, p)
  {
    hide Consistent, Dom, Reachable, StateAt, CfgOK;
    if Mark(f, input, p) == Some(x) {
      MarkDominates(f, input, p, x);
      var s := PathTo(f, p);
      NotMutual(f.cfg, s, x, p);
    }
  }

  /** An instruction has noted its location, or found it. */
  lemma HeldHere(f: Func, input: Inputs, log: seq<Alias>, table: Table, table': Table, x: Point, r: Option<Value>)
    requires Accesses(f, x) && InstOK(InstAt(f, x)) && TableStep(f, input, log, x, table, table', r)
    ensures Held(f, input, log, table', x)
  {
    hide KeyAt, Dom;
    DomEarlier(f.cfg, x, x);
  }

  /** The log after instruction `x`. */
  ghost predicate Logged(f: Func, log: seq<Alias>, log': seq<Alias>, x: Point, r: Option<Value>)
    requires IsInst(f, x)
  {
    if r.None? then log' == log
    else |log'| == |log| + 1 && log'[..|log|] == log && log'[|log|].at == x && DefAt(f, log'[|log|].from, x)
  }

  lemma KeyLogged(f: Func, m: Machine, input: Inputs, log: seq<Alias>, log': seq<Alias>, p: Point, x: Point,
      r: Option<Value>)
    requires FuncOK(f) && LogOK(f, m, log) && Accesses(f, p) && Reachable(f.cfg, p.block) && IsInst(f, x)
    requires Logged(f, log, log', x, r) && (Dom(f.cfg, x, p) ==> x == p)
    ensures KeyAt(f, input, log', p) == KeyAt(f, input, log, p)
  {
    hide FuncOK, LogOK, Dom, Reachable, KeyAt, DefAt;
    if r.Some? {
      assert log' == log + [log'[|log|]];
      KeyStable(f, m, input, log, log'[|log|], p);
    }
  }

  /** In an order with dominators first, an instruction does not dominate one that was visited before it. */
  lemma NotBack(f: Func, order: seq<Block>, i: nat, n: nat, j: nat, p: Point)
    requires DomFirst(f.cfg, order) && i < |order| && Visited(order, i, n, j, p) && Reachable(f.cfg, p.block)
    ensures !Dom(f.cfg, Point(order[i], n + 1), p)
  {
    hide Dom, Reachable;
    var x := Point(order[i], n + 1);
    if Dom(f.cfg, x, p) {
      UnderInst(f, x, p);
    }
  }

  lemma Once(cfg: Cfg, order: seq<Block>, j: nat, i: nat)
    requires DomFirst(cfg, order) && j <= i < |order| && Reachable(cfg, order[j])
    ensures order[j] == order[i] ==> j == i
  {
    DomEarlier(cfg, Point(order[j], 0), Point(order[j], 0));
  }

  /** The next instruction `x` of the order keeps what is held. */
  lemma HeldStep(f: Func, m: Machine, input: Inputs, log: seq<Alias>, log': seq<Alias>, table: Table, table': Table,
      order: seq<Block>, i: nat, n: nat, r: Option<Value>)
    requires FuncOK(f) && Consistent(f, input) && LogOK(f, m, log) && DomFirst(f.cfg, order)
    requires i < |order| && IsInst(f, Point(order[i], n + 1)) && InstOK(InstAt(f, Point(order[i], n + 1)))
    requires HeldAll(f, input, log, table, order, i, n)
    requires TableStep(f, input, log, Point(order[i], n + 1), table, table', r)
    requires Logged(f, log, log', Point(order[i], n + 1), r)
    ensures HeldAll(f, input, log', table', order, i, n + 1)
  {
    hide Consistent, LogOK, Dom, Reachable, KeyAt, BlocksOK, Ssa, DomFirst, TableStep, Logged, Under;
    var x := Point(order[i], n + 1);
    forall j, p | Visited(order, i, n + 1, j, p) && Accesses(f, p) && Reachable(f.cfg, p.block)
                  && Inside(f.cfg, order, j, i) ensures Held(f, input, log', table', p) {
      if p == x {
        HeldHere(f, input, log, table, table', x, r);
      } else {
        assert Visited(order, i, n, j, p);
        NotBack(f, order, i, n, j, p);
        Once(f.cfg, order, j, i);
        InstUnder(f, p, x);
        HeldKept(f, input, log, table, table', p, x, r);
      }
      KeyLogged(f, m, input, log, log', p, x, r);
    }
  }

  /** A load that an earlier instruction makes redundant is replaced. */
  lemma NotMissed(f: Func, m: Machine, input: Inputs, log: seq<Alias>, table: Table, table': Table,
      order: seq<Block>, i: nat, n: nat, p: Point, r: Option<Value>)
    requires FuncOK(f) && DomFirst(f.cfg, order) && Contiguous(f.cfg, order)
    requires i < |order| && IsInst(f, Point(order[i], n + 1)) && InstOK(InstAt(f, Point(order[i], n + 1)))
    requires HeldAll(f, input, log, table, order, i, n)
    requires TableStep(f, input, log, Point(order[i], n + 1), table, table', r)
    requires p.block in order && Provides(f, input, p, Point(order[i], n + 1))
    ensures r.Some?
  {
    hide BlocksOK, Ssa, DomFirst, Dom, Mark, Contiguous;
    var x := Point(order[i], n + 1);
    assert Reachable(f.cfg, x.block) by { LoadReachable(f, x); }
    var j := ProviderVisited(f, order, i, n, p, x);
    assert Held(f, input, log, table, p);
    assert KeyAt(f, input, log, p) == KeyAt(f, input, log, x);
    DomTrans(f.cfg, table[KeyAt(f, input, log, p)].def, p, x);
  }

  lemma LoadReachable(f: Func, x: Point)
    requires FuncOK(f) && IsInst(f, x) && IsLoad(InstAt(f, x))
    ensures Reachable(f.cfg, x.block)
  {
  }

  lemma ProviderVisited(f: Func, order: seq<Block>, i: nat, n: nat, p: Point, x: Point) returns (j: nat)
    requires DomFirst(f.cfg, order) && Contiguous(f.cfg, order) && i < |order| && x == Point(order[i], n + 1)
    requires p.block in order && Dom(f.cfg, p, x) && p != x && Reachable(f.cfg, x.block)
    ensures Visited(order, i, n, j, p) && Inside(f.cfg, order, j, i) && Reachable(f.cfg, p.block)
  {
    hide Dom;
    UnderInst(f, p, x);
    j :| 0 <= j < |order| && order[j] == p.block;
    DomEarlier(f.cfg, Point(p.block, 0), Point(p.block, 0));
    assert j <= i || p.block == x.block;
    if p.block == x.block {
      j := i;
    }
    var s := PathTo(f, x);
    DominatorReachable(f, s, p, x);
  }

  lemma DominatorReachable(f: Func, s: seq<Point>, p: Point, x: Point)
    requires Path(f.cfg, s, x) && Dom(f.cfg, p, x)
    ensures Reachable(f.cfg, p.block)
  {
    var i :| 0 <= i < |s| && s[i] == p;
    PathCut(f.cfg, s, x, i);
    PathReachable(f.cfg, s[..i + 1], p);
  }

  lemma MissedStep(f: Func, m: Machine, input: Inputs, log: seq<Alias>, log': seq<Alias>, table: Table, table': Table,
      order: seq<Block>, i: nat, n: nat, r: Option<Value>)
    requires FuncOK(f) && DomFirst(f.cfg, order) && Contiguous(f.cfg, order)
    requires i < |order| && IsInst(f, Point(order[i], n + 1)) && InstOK(InstAt(f, Point(order[i], n + 1)))
    requires HeldAll(f, input, log, table, order, i, n) && NoneMissed(f, input, log, order, i, n)
    requires TableStep(f, input, log, Point(order[i], n + 1), table, table', r)
    requires Logged(f, log, log', Point(order[i], n + 1), r)
    ensures NoneMissed(f, input, log', order, i, n + 1)
  {
    hide FuncOK, DomFirst, Contiguous, HeldAll, TableStep, Provides, DefAt;
    var n' := n + 1;
    forall j, p: Point, x: Point | Visited(order, i, n', j, x) && p.block in order && Provides(f, input, p, x)
      ensures Removed(log', x)
    {
      if x == Point(order[i], n + 1) {
        NotMissed(f, m, input, log, table, table', order, i, n, p, r);
      } else {
        assert Visited(order, i, n, j, x);
        var k :| 0 <= k < |log| && log[k].at == x;
        assert log'[k] == log[k];
      }
    }
  }

  // ----- a run over all blocks -----

  lemma ReuseStart(f: Func, input: Inputs, order: seq<Block>)
    ensures HeldAll(f, input, [], map[], order, 0, 0) && NoneMissed(f, input, [], order, 0, 0)
  {
  }

  /** The next block begins. */
  lemma ReuseNext(f: Func, input: Inputs, log: seq<Alias>, table: Table, order: seq<Block>, i: nat, n: nat)
    requires i < |order| && order[i] < |f.insts| && n == |f.insts[order[i]]|
    requires HeldAll(f, input, log, table, order, i, n) && NoneMissed(f, input, log, order, i, n)
    ensures HeldAll(f, input, log, table, order, i + 1, 0) && NoneMissed(f, input, log, order, i + 1, 0)
  {
    hide Held, Under, Reachable, Dom, Removed;
    var i' := i + 1;
    forall j, p | Visited(order, i', 0, j, p) && Accesses(f, p) && Reachable(f.cfg, p.block)
                  && Inside(f.cfg, order, j, i') ensures Held(f, input, log, table, p) {
      assert Visited(order, i, n, j, p) && Inside(f.cfg, order, j, i);
    }
    forall j, p: Point, x: Point | Visited(order, i', 0, j, x) && p.block in order && Provides(f, input, p, x)
      ensures Removed(log, x)
    {
      assert Visited(order, i, n, j, x);
    }
  }

  lemma ReuseEnd(f: Func, input: Inputs, log: seq<Alias>, order: seq<Block>)
    requires NoneMissed(f, input, log, order, |order|, 0)
    ensures Maximal(f, input, log, order)
  {
    hide Provides, Removed;
    forall p: Point, x: Point | p.block in order && x.block in order && Provides(f, input, p, x)
      ensures Removed(log, x)
    {
      var j :| 0 <= j < |order| && order[j] == x.block;
      assert Visited(order, |order|, 0, j, x);
    }
  }

  ghost predicate Reusing(f: Func, input: Inputs, log: seq<Alias>, table: Table, order: seq<Block>, i: nat, n: nat) {
    DomFirst(f.cfg, order) && Contiguous(f.cfg, order) ==>
      HeldAll(f, input, log, table, order, i, n) && NoneMissed(f, input, log, order, i, n)
  }

  lemma ReuseStep(f: Func, m: Machine, input: Inputs, log: seq<Alias>, log': seq<Alias>, table: Table, table': Table,
      order: seq<Block>, i: nat, n: nat, r: Option<Value>)
    requires FuncOK(f) && Consistent(f, input) && LogOK(f, m, log) && Reusing(f, input, log, table, order, i, n)
    requires i < |order| && IsInst(f, Point(order[i], n + 1)) && InstOK(InstAt(f, Point(order[i], n + 1)))
    requires TableStep(f, input, log, Point(order[i], n + 1), table, table', r)
    requires Logged(f, log, log', Point(order[i], n + 1), r)
    ensures Reusing(f, input, log', table', order, i, n + 1)
  {
    hide FuncOK, Consistent, LogOK, DomFirst, Contiguous, HeldAll, NoneMissed, TableStep, Logged;
    if DomFirst(f.cfg, order) && Contiguous(f.cfg, order) {
      HeldStep(f, m, input, log, log', table, table', order, i, n, r);
      MissedStep(f, m, input, log, log', table, table', order, i, n, r);
    }
  }
}
