/** Visiting blocks in reverse post-order can lose a redundant load: an entry of the table is overwritten by a load that
it does not dominate, and that does not dominate the redundant one. */
module AliasLost {
  import opened Options
  import opened DomtreePaths
  import opened DomtreeVisit
  import opened Domtree
  import D = DomtreeDfs
  import opened AliasFunc
  import opened AliasMarkers
  import opened AliasPrecise
  import opened AliasTrace
  import opened AliasValues
  import opened AliasReuse
  import opened AliasAnalysis

  // Block 0 branches to blocks 1 and 2, block 1 to blocks 3 and 2. Blocks 1, 2 and 3 load the same location.
  const JUMP := Inst(Op(0, false, false, false), None, None, [], [])
  const CFG := Cfg(0, [[], [Point(0, 1)], [Point(0, 1), Point(1, 2)], [Point(1, 2)]])
  const SUCCS: seq<seq<Block>> := [[1, 2], [3, 2], [], []]
  const FUNC := Func(CFG, [[JUMP], [LoadTo(1), JUMP], [LoadTo(2)], [LoadTo(3)]], [[0], [], [], []], SUCCS)

  function LoadTo(v: Value): Inst {
    Inst(Load, Some(Heap), Some(Access(0, 0, 0, None)), [], [v])
  }

  ghost const MACHINE := Machine(
    (env: Env, mem: Mem) => true,
    (op: Opcode, ty: Type) => 1,
    (op: Opcode, ty: Type, bytes: seq<int>) => if bytes == [] then 0 else bytes[0],
    (ty: Type, d: int) => [d],
    (p: Point, xs: seq<int>, b: Block, k: nat) => 0,
    (p: Point, xs: seq<int>, b: Block) => true,
    (p: Point, xs: seq<int>, mem: Mem, mem': Mem, rs: seq<int>) => mem == mem')

  lemma InstIs(p: Point)
    requires IsInst(FUNC, p)
    ensures p.block < 4 && InstAt(FUNC, p) == if 1 <= p.block && p.at == 1 then LoadTo(p.block) else JUMP
  {
  }

  lemma DefIs(v: Value, p: Point)
    ensures DefAt(FUNC, v, p) <==> v < 4 && p == Point(v, if v == 0 then 0 else 1)
  {
    if p.at > 0 && IsInst(FUNC, p) {
      InstIs(p);
    }
  }

  lemma UseIs(p: Point, x: Value)
    requires IsInst(FUNC, p) && x in Uses(InstAt(FUNC, p))
    ensures x == 0 && p != Point(0, 0)
  {
    InstIs(p);
  }

  lemma {:induction false} FromEntry(s: seq<Point>, p: Point)
    requires Path(CFG, s, p)
    ensures s[0] == Point(0, 0)
    decreases |s|
  {
    if |s| > 1 {
      FromEntry(s[..|s| - 1], s[|s| - 2]);
    }
  }

  /** A way to the load of block 3, and one to that of block 2 that does not go through block 1. */
  lemma Ways() returns (a: seq<Point>, b: seq<Point>)
    ensures Path(CFG, a, Point(3, 1)) && Point(2, 1) !in a && Path(CFG, b, Point(2, 1)) && Point(1, 1) !in b
    ensures forall k | 0 <= k < 4 :: Reachable(CFG, k)
  {
    var e := [Point(0, 0)];
    assert Path(CFG, e, Point(0, 0));
    PathStep(CFG, e, Point(0, 0), Point(0, 1));
    var e1 := e + [Point(0, 1)];
    PathStep(CFG, e1, Point(0, 1), Point(2, 0));
    var b0 := e1 + [Point(2, 0)];
    PathStep(CFG, b0, Point(2, 0), Point(2, 1));
    b := b0 + [Point(2, 1)];
    PathStep(CFG, e1, Point(0, 1), Point(1, 0));
    var a0 := e1 + [Point(1, 0)];
    PathStep(CFG, a0, Point(1, 0), Point(1, 1));
    var a1 := a0 + [Point(1, 1)];
    PathStep(CFG, a1, Point(1, 1), Point(1, 2));
    var a2 := a1 + [Point(1, 2)];
    PathStep(CFG, a2, Point(1, 2), Point(3, 0));
    var a3 := a2 + [Point(3, 0)];
    PathStep(CFG, a3, Point(3, 0), Point(3, 1));
    a := a3 + [Point(3, 1)];
  }

  /** Every way to block 3 goes through the load of block 1. */
  lemma {:induction false} Dominated(s: seq<Point>, p: Point)
    requires Path(CFG, s, p) && p.block == 3
    ensures Point(1, 1) in s
    decreases |s|
  {
    var t, q := s[..|s| - 1], s[|s| - 2];
    if q.block == 3 {
      Dominated(t, q);
    } else {
      assert q == Point(1, 2);
      var t' := Earlier(CFG, t, 1, 2, 1);
      assert t'[|t'| - 1] == Point(1, 1);
    }
  }

  lemma FuncFits()
    ensures FuncOK(FUNC)
  {
    hide Dom, DefAt, InstAt, Uses, Path;
    var a, b := Ways();
    assert BlocksOK(FUNC) by {
      assert CfgOK(CFG);
      forall p | IsInst(FUNC, p) ensures InstOK(InstAt(FUNC, p)) && Reachable(CFG, p.block) {
        InstIs(p);
      }
      forall q, c | Jump(CFG, q, c) ensures q.at == |FUNC.insts[q.block]| && c in SUCCS[q.block] {
        assert c < 4;
      }
    }
    forall v, p, q | DefAt(FUNC, v, p) && DefAt(FUNC, v, q) ensures p == q {
      DefIs(v, p);
      DefIs(v, q);
    }
    forall p, x | IsInst(FUNC, p) && x in Uses(InstAt(FUNC, p)) ensures Avail(FUNC, x, p) {
      UseIs(p, x);
      DefIs(0, Point(0, 0));
      EntryDominates(p);
    }
  }

  lemma EntryDominates(p: Point)
    ensures Dom(CFG, Point(0, 0), p)
  {
    forall s | Path(CFG, s, p) ensures Point(0, 0) in s {
      FromEntry(s, p);
    }
  }

  lemma MachineFits()
    ensures MachineOK(FUNC, MACHINE) && RegionsOK(FUNC, MACHINE)
  {
    hide Path, Exec, Uses;
    forall p | IsInst(FUNC, p) ensures !InstAt(FUNC, p).op.Store? {
      InstIs(p);
    }
    forall t: seq<Config>, p: Point | Trace(FUNC, MACHINE, [], t, p)
      ensures exists reg :: Respects(FUNC, MACHINE, reg, t)
    {
      var reg: int -> Region := (a: int) => Heap;
      forall k | 0 <= k < |t|
        ensures InRegion(FUNC, MACHINE, reg, t[k]) && (k + 1 < |t| ==> ChangesOK(FUNC, reg, t, k))
      {
        if IsInst(FUNC, t[k].point) {
          InstIs(t[k].point);
        }
        if k + 1 < |t| {
          NoChange(t, k);
        }
      }
      assert Respects(FUNC, MACHINE, reg, t);
    }
  }

  lemma NoChange(t: seq<Config>, k: nat)
    requires k + 1 < |t| && Exec(FUNC, MACHINE, [], t, k)
    ensures SameMem(t[k].mem, t[k + 1].mem)
  {
    hide LoadVal, Vals, EnvKept;
    if t[k].point.at > 0 {
      InstIs(t[k].point);
    }
  }

  lemma SuccsFit()
    ensures CfgOK(CFG) && D.SuccsOK(CFG, SUCCS)
  {
    forall b: Block, c: Block ensures D.Edge(CFG, b, c) <==> b < |SUCCS| && c in SUCCS[b] {
      if D.Edge(CFG, b, c) {
        var q: Point :| q.block == b && Jump(CFG, q, c);
      }
      if b < |SUCCS| && c in SUCCS[b] {
        assert Jump(CFG, Point(b, if b == 0 then 1 else 2), c);
      }
    }
  }

  /** Visiting `b` after those in `seen`, when its successors give `out`. */
  lemma Opened(succs: seq<seq<Block>>, b: Block, seen: set<Block>, seen': set<Block>, out: seq<Block>,
      out': seq<Block>)
    requires Closed(succs) && b < |succs| && b !in seen && out' == out + [b]
    requires VisitAll(succs, succs[b], seen + {b}) == (seen', out)
    ensures Visit(succs, b, seen) == (seen', out')
  {
  }

  lemma NoneLeft(succs: seq<seq<Block>>, seen: set<Block>)
    requires Closed(succs)
    ensures VisitAll(succs, [], seen) == (seen, [])
  {
  }

  /** Visiting the blocks of `cs`, when the first gives `r` and the others then give `q`. */
  lemma Both(succs: seq<seq<Block>>, cs: seq<Block>, seen: set<Block>, r: (set<Block>, seq<Block>),
      q: (set<Block>, seq<Block>), out: seq<Block>)
    requires Closed(succs) && cs != [] && forall i | 0 <= i < |cs| :: cs[i] < |succs|
    requires Visit(succs, cs[0], seen) == r && VisitAll(succs, cs[1..], r.0) == q && out == r.1 + q.1
    ensures VisitAll(succs, cs, seen) == (q.0, out)
  {
  }

  lemma AlreadySeen(succs: seq<seq<Block>>, b: Block, seen: set<Block>)
    requires Closed(succs) && b < |succs| && b in seen
    ensures Visit(succs, b, seen) == (seen, [])
  {
  }

  /** From block 1, with block 0 on the stack. */
  lemma FromFirst()
    ensures Closed(SUCCS) && Visit(SUCCS, 1, {0}) == ({0, 1, 2, 3}, [3, 2, 1])
  {
    hide Visit, VisitAll;
    var s1, s2, s3: set<Block> := {0, 1}, {0, 1, 3}, {0, 1, 2, 3};
    assert [2][1..] == [] && SUCCS[1][1..] == [2];
    NoneLeft(SUCCS, s2);
    NoneLeft(SUCCS, s3);
    assert s1 + {3} == s2 && s2 + {2} == s3 && {0} + {1} == s1;
    Opened(SUCCS, 3, s1, s2, [], [3]);
    Opened(SUCCS, 2, s2, s3, [], [2]);
    Both(SUCCS, [2], s2, (s3, [2]), (s3, []), [2]);
    Both(SUCCS, SUCCS[1], s1, (s2, [3]), (s3, [2]), [3, 2]);
    Opened(SUCCS, 1, {0}, s3, [3, 2], [3, 2, 1]);
  }

  /** The traversal gives blocks 3, 2, 1, 0. */
  lemma PostOrderIs()
    ensures Closed(SUCCS) && Visit(SUCCS, 0, {}).1 == [3, 2, 1, 0]
  {
    hide Visit, VisitAll;
    FromFirst();
    var s3: set<Block> := {0, 1, 2, 3};
    assert [2][1..] == [] && SUCCS[0][1..] == [2] && {} + {0} == {0};
    NoneLeft(SUCCS, s3);
    AlreadySeen(SUCCS, 2, s3);
    Both(SUCCS, [2], s3, (s3, []), (s3, []), []);
    Both(SUCCS, SUCCS[0], {0}, (s3, [3, 2, 1]), (s3, []), [3, 2, 1]);
    Opened(SUCCS, 0, {}, s3, [3, 2, 1], [3, 2, 1, 0]);
  }

  const LOC := MemoryLoc(None, 0, 0, 0, None)

  lemma KeyIs(input: Inputs, k: Block)
    requires FuncOK(FUNC) && Consistent(FUNC, input) && Precise(FUNC, input) && 1 <= k <= 3
    ensures Accesses(FUNC, Point(k, 1)) && KeyAt(FUNC, input, [], Point(k, 1)) == LOC
  {
    hide Consistent, Precise, Ssa, StateAt;
    InstIs(Point(k, 1));
    var a, b := Ways();
    forall q: Point | Reachable(CFG, q.block) ensures !WritesAt(FUNC, q, Heap) {
      if IsInst(FUNC, q) {
        InstIs(q);
      }
    }
    NeverWritten(FUNC, input, Point(k, 1), Heap);
  }

  /** The load of block `k` is not replaced if what the table holds does not dominate it. */
  lemma Noted(input: Inputs, k: Block, table: Table, table': Table, r: Option<Value>)
    requires FuncOK(FUNC) && Consistent(FUNC, input) && Precise(FUNC, input) && 1 <= k <= 3
    requires InstOK(InstAt(FUNC, Point(k, 1))) && TableStep(FUNC, input, [], Point(k, 1), table, table', r)
    requires LOC in table ==> !Dom(CFG, table[LOC].def, Point(k, 1))
    ensures r == None && LOC in table' && table'[LOC].def == Point(k, 1)
  {
    hide FuncOK, Consistent, Precise, KeyAt, Dom;
    KeyIs(input, k);
    InstIs(Point(k, 1));
  }

  lemma StartIs(input: Inputs, k: Block)
    requires 1 <= k <= 3
    ensures IsInst(FUNC, Point(k, 1)) && StateAt(FUNC, input, Point(k, 1)) == Start(input, k)
  {
    FirstState(FUNC, input, Point(k, 1));
  }

  lemma Redundant(input: Inputs)
    requires FuncOK(FUNC) && Consistent(FUNC, input) && Precise(FUNC, input)
    ensures Provides(FUNC, input, Point(1, 1), Point(3, 1))
    ensures !Dom(CFG, Point(1, 1), Point(2, 1)) && !Dom(CFG, Point(2, 1), Point(3, 1))
  {
    hide FuncOK, Consistent, Precise, StateAt;
    KeyIs(input, 1);
    KeyIs(input, 3);
    InstIs(Point(1, 1));
    InstIs(Point(3, 1));
    forall s | Path(CFG, s, Point(3, 1)) ensures Point(1, 1) in s {
      Dominated(s, Point(3, 1));
    }
    var a, b := Ways();
  }

  /** The load of block 3 is redundant and is not replaced when blocks are visited in reverse post-order. */
  method LoseReuse() returns (first: Option<Value>, second: Option<Value>, third: Option<Value>, ghost input: Inputs)
    ensures Visit(SUCCS, 0, {}).1 == [3, 2, 1, 0] && Provides(FUNC, input, Point(1, 1), Point(3, 1))
    ensures first == second == third == None
  {
    hide FuncOK, MachineOK, RegionsOK, Consistent, Precise, KnownOK, StateAt, Start, Dom, Visit, D.SuccsOK, CfgOK,
        InstAt, InstOK, TableStep, Provides, Update, IsInst, DominatorTree.Valid;
    SuccsFit();
    PostOrderIs();
    FuncFits();
    MachineFits();
    var domtree := new DominatorTree();
    domtree.Compute(CFG, SUCCS);
    var analysis := new Analysis(FUNC, domtree, MACHINE);
    var dfg := new Dfg();
    NoAliases(FUNC, MACHINE);
    input := analysis.blockInput;
    Redundant(input);
    StartIs(input, 1);
    StartIs(input, 2);
    StartIs(input, 3);
    ghost var table0 := analysis.memValues;
    var state;
    state, first := analysis.ProcessInst(FUNC, dfg, Start(analysis.blockInput, 1), Point(1, 1), MACHINE);
    ghost var table1 := analysis.memValues;
    Noted(input, 1, table0, table1, first);
    state, second := analysis.ProcessInst(FUNC, dfg, Start(analysis.blockInput, 2), Point(2, 1), MACHINE);
    ghost var table2 := analysis.memValues;
    Noted(input, 2, table1, table2, second);
    state, third := analysis.ProcessInst(FUNC, dfg, Start(analysis.blockInput, 3), Point(3, 1), MACHINE);
    Noted(input, 3, table2, analysis.memValues, third);
  }
}
