/** A function with two regions of memory that meets the premises of alias analysis: the base of the heap is kept in
the context, a store goes to the heap, and the base is loaded again. */
module AliasExample {
  import opened Options
  import opened DomtreePaths
  import D = DomtreeDfs
  import opened AliasFunc
  import opened AliasMarkers
  import opened AliasTrace
  import opened AliasValues

  // The context address and some data are arguments 0 and 1; the base is loaded as value 2 and again as value 3.
  const CFG := Cfg(0, [[]])
  const BASE := Inst(Load, Some(Vmctx), Some(Access(0, 0, 0, None)), [], [2])
  const STORE := Inst(Store, Some(Heap), Some(Access(2, 0, 0, Some(1))), [], [])
  const AGAIN := Inst(Load, Some(Vmctx), Some(Access(0, 0, 0, None)), [], [3])
  const FUNC := Func(CFG, [[BASE, STORE, AGAIN]], [[0, 1]], [[]])

  /** Values take one cell of memory. The heap does not begin where the context is. */
  const MACHINE := Machine(
    (env: Env, mem: Mem) => mem(env(0)) != env(0),
    (op: Opcode, ty: Type) => 1,
    (op: Opcode, ty: Type, bytes: seq<int>) => if bytes == [] then 0 else bytes[0],
    (ty: Type, d: int) => [d],
    (p: Point, xs: seq<int>, b: Block, k: nat) => 0,
    (p: Point, xs: seq<int>, b: Block) => true,
    (p: Point, xs: seq<int>, mem: Mem, mem': Mem, rs: seq<int>) => true)

  lemma InstIs(p: Point)
    requires IsInst(FUNC, p)
    ensures p.block == 0 && 1 <= p.at <= 3 && InstAt(FUNC, p) == if p.at == 1 then BASE else if p.at == 2 then STORE
            else AGAIN
  {
  }

  function Home(v: Value): Point {
    Point(0, if v < 2 then 0 else if v == 2 then 1 else 3)
  }

  lemma DefIs(v: Value, p: Point)
    ensures DefAt(FUNC, v, p) <==> v < 4 && p == Home(v)
  {
    if p.at > 0 && IsInst(FUNC, p) {
      InstIs(p);
    }
  }

  lemma UseIs(p: Point, x: Value)
    requires IsInst(FUNC, p) && x in Uses(InstAt(FUNC, p))
    ensures x < 4 && Home(x).at < p.at
  {
    InstIs(p);
  }

  lemma FuncFacts()
    ensures FuncOK(FUNC)
  {
    hide Dom, DefAt, Reachable, InstAt, Uses;
    assert BlocksOK(FUNC) by {
      D.EntryReachable(CFG);
      forall p | IsInst(FUNC, p) ensures InstOK(InstAt(FUNC, p)) && Reachable(CFG, p.block) {
        InstIs(p);
      }
    }
    forall v, p, q | DefAt(FUNC, v, p) && DefAt(FUNC, v, q) ensures p == q {
      DefIs(v, p);
      DefIs(v, q);
    }
    forall p, x | IsInst(FUNC, p) && x in Uses(InstAt(FUNC, p)) ensures Avail(FUNC, x, p) {
      UseIs(p, x);
      DefIs(x, Home(x));
      InstIs(p);
      DomEarlier(CFG, Home(x), p);
    }
  }

  // ----- runs -----

  /** The context is where it was and holds the base, which is not its own address. */
  ghost predicate Steady(t: seq<Config>, k: nat)
    requires k < |t|
  {
    var a, b := t[0].env(0), t[0].mem(t[0].env(0));
    t[k].point == Point(0, k) && t[k].env(0) == a && t[k].mem(a) == b != a && (k >= 2 ==> t[k].env(2) == b)
  }

  lemma {:induction false} Runs(t: seq<Config>, p: Point, k: nat)
    requires Trace(FUNC, MACHINE, [], t, p) && k < |t|
    ensures Steady(t, k)
    decreases k
  {
    if k == 0 {
      PathStart(t, p);
    } else {
      Runs(t, p, k - 1);
      RunStep(t, p, k - 1);
    }
  }

  lemma PathStart(t: seq<Config>, p: Point)
    requires Trace(FUNC, MACHINE, [], t, p)
    ensures Steady(t, 0)
  {
    TraceCut(FUNC, MACHINE, [], t, p, 0);
    assert Points(t[..1])[0] == t[0].point;
  }

  lemma RunStep(t: seq<Config>, p: Point, k: nat)
    requires Trace(FUNC, MACHINE, [], t, p) && k + 1 < |t| && Steady(t, k)
    ensures Steady(t, k + 1)
  {
    assert Exec(FUNC, MACHINE, [], t, k);
    TraceCut(FUNC, MACHINE, [], t, p, k + 1);
    var s := Points(t[..k + 2]);
    assert s[k] == t[k].point && s[k + 1] == t[k + 1].point;
    assert Step(CFG, s[k], s[k + 1]);
    if k > 0 {
      InstIs(t[k].point);
    }
  }

  lemma RegionsKept(t: seq<Config>, p: Point)
    requires Trace(FUNC, MACHINE, [], t, p)
    ensures exists reg :: Respects(FUNC, MACHINE, reg, t)
  {
    var home := t[0].env(0);
    var reg := (a: int) => if a == home then Vmctx else Heap;
    forall k | 0 <= k < |t| ensures InRegion(FUNC, MACHINE, reg, t[k]) && (k + 1 < |t| ==> ChangesOK(FUNC, reg, t, k)) {
      Runs(t, p, k);
      if k + 1 < |t| {
        Changes(t, p, k, reg);
      }
      if IsInst(FUNC, t[k].point) {
        InstIs(t[k].point);
      }
    }
    assert Respects(FUNC, MACHINE, reg, t);
  }

  lemma Changes(t: seq<Config>, p: Point, k: nat, reg: int -> Region)
    requires Trace(FUNC, MACHINE, [], t, p) && k + 1 < |t| && Steady(t, k)
    requires forall a :: reg(a) == if a == t[0].env(0) then Vmctx else Heap
    ensures ChangesOK(FUNC, reg, t, k)
  {
    hide Path;
    assert Exec(FUNC, MACHINE, [], t, k);
    if k > 0 {
      InstIs(t[k].point);
    }
  }

  /** The second load of the base finds the value of the first one, although the store lies between them. */
  lemma SecondLoad()
    requires FuncOK(FUNC) && MachineOK(FUNC, MACHINE) && RegionsOK(FUNC, MACHINE)
    ensures Reads(FUNC, MACHINE, 2, Point(0, 3))
  {
    hide Ssa, RegionsOK, MachineOK, Dom, Trace, Reads;
    var input := map[0 := NO_STORES];
    var first, second := Point(0, 1), Point(0, 3);
    var key := MemoryLoc(None, 0, 0, 0, None);
    InstIs(first);
    InstIs(second);
    States(input);
    Located(first);
    Located(second);
    DomEarlier(CFG, first, second);
    KnownReads(FUNC, MACHINE, input, key, first, 2, second);
  }

  lemma States(input: Inputs)
    requires input == map[0 := NO_STORES]
    ensures Consistent(FUNC, input)
    ensures GetLastStore(StateAt(FUNC, input, Point(0, 1)), BASE, Point(0, 1)) == None
    ensures GetLastStore(StateAt(FUNC, input, Point(0, 3)), AGAIN, Point(0, 3)) == None
  {
    assert After(FUNC, NO_STORES, 0, 1) == NO_STORES;
    assert After(FUNC, NO_STORES, 0, 2).vmctx == None;
  }

  lemma Located(p: Point)
    requires p == Point(0, 1) || p == Point(0, 3)
    ensures LocAt(FUNC, MACHINE, MemoryLoc(None, 0, 0, 0, None), p)
  {
    hide Dom, Trace;
    InstIs(p);
    DefIs(0, Point(0, 0));
    DomEarlier(CFG, Point(0, 0), p);
  }

  /** The premises can be met by a function with two regions, and then loads are replaced across stores. */
  lemma TwoRegions()
    ensures FuncOK(FUNC) && MachineOK(FUNC, MACHINE) && RegionsOK(FUNC, MACHINE)
    ensures Reads(FUNC, MACHINE, 2, Point(0, 3))
    ensures exists t :: Trace(FUNC, MACHINE, [], t, Point(0, 3))
  {
    hide Trace, Reads, FuncOK, Respects;
    FuncFacts();
    forall t, p | Trace(FUNC, MACHINE, [], t, p) ensures exists reg :: Respects(FUNC, MACHINE, reg, t) {
      RegionsKept(t, p);
    }
    SecondLoad();
    var t := SomeRun();
  }

  lemma SomeRun() returns (t: seq<Config>)
    ensures Trace(FUNC, MACHINE, [], t, Point(0, 3))
  {
    var env: Env, mem: Mem, mem': Mem := (x: Value) => if x == 2 then 5 else 0, (a: int) => 5, (a: int) => if a ==
        5 then 0 else 5;
    var s := [Point(0, 0), Point(0, 1), Point(0, 2), Point(0, 3)];
    t := [Config(s[0], env, mem), Config(s[1], env, mem), Config(s[2], env, mem), Config(s[3], env, mem')];
    assert Points(t) == s;
    SomePath(s);
    assert Exec(FUNC, MACHINE, [], t, 0);
    InstIs(s[1]);
    assert Bytes(mem, 0, 1) == [5];
    assert Exec(FUNC, MACHINE, [], t, 1);
    InstIs(s[2]);
    assert Exec(FUNC, MACHINE, [], t, 2);
  }

  lemma SomePath(s: seq<Point>)
    requires s == [Point(0, 0), Point(0, 1), Point(0, 2), Point(0, 3)]
    ensures Path(CFG, s, Point(0, 3))
  {
    PathStep(CFG, [s[0]], s[0], s[1]);
    PathStep(CFG, [s[0], s[1]], s[1], s[2]);
    PathStep(CFG, [s[0], s[1], s[2]], s[2], s[3]);
    assert [s[0]] + [s[1]] == [s[0], s[1]];
    assert [s[0], s[1]] + [s[2]] == [s[0], s[1], s[2]];
    assert [s[0], s[1], s[2]] + [s[3]] == s;
  }
}
