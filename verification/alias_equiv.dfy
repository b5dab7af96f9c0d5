/** Replacing loads keeps the meaning of a function. */
module AliasEquiv {
  import opened DomtreePaths
  import opened AliasFunc
  import opened AliasPaths
  import opened AliasMarkers
  import opened AliasTrace
  import opened AliasValues

  // ----- a new alias -----

  /** A known value can be used instead of the load. */
  lemma KnownAvail(f: Func, m: Machine, input: Inputs, key: MemoryLoc, d: Point, v: Value, p: Point)
    requires FuncOK(f) && KnownOK(f, m, input, key, d, v) && Before(f, d, p)
    ensures Avail(f, v, p)
  {
    hide Dom, Reachable, LocAt, Ssa, SameAt, StateAt;
    if CanStore(InstAt(f, d).op) {
      AvailLater(f, v, d, p);
    } else {
      assert DefAt(f, v, d);
    }
  }

  lemma NewAlias(f: Func, m: Machine, log: seq<Alias>, input: Inputs, key: MemoryLoc, d: Point, v: Value, p: Point)
    requires FuncOK(f) && MachineOK(f, m) && RegionsOK(f, m) && Consistent(f, input) && LogOK(f, m, log)
    requires KnownOK(f, m, input, key, d, v) && LoadOf(f, m, input, key, p) && Dom(f.cfg, d, p) && d != p
    ensures InstAt(f, p).results != [] && AliasOK(f, m, Alias(p, InstAt(f, p).results[0], Resolve(log, v)))
  {
    hide Dom, RegionsOK, MachineOK, Consistent, LocAt, Avail, Ssa, LogOK, Reads;
    var x, y := InstAt(f, p).results[0], Resolve(log, v);
    KnownAvail(f, m, input, key, d, v, p);
    Resolved(f, m, log, v, p);
    KnownReads(f, m, input, key, d, v, p);
    ReadsSame(f, m, v, y, p);
    forall q | Before(f, p, q) ensures SameAt(f, m, x, y, q) {
      forall t: seq<Config> | Trace(f, m, [], t, q) ensures t[|t| - 1].env(x) == t[|t| - 1].env(y) {
        TraceReachable(f, m, [], t, q);
        AliasAt(f, m, log, input, key, d, v, p, q, t);
      }
    }
  }

  lemma ReadsSame(f: Func, m: Machine, v: Value, y: Value, p: Point)
    requires IsInst(f, p) && InstAt(f, p).access.Some? && Reads(f, m, v, p) && SameAt(f, m, v, y, p)
    ensures Reads(f, m, y, p)
  {
    hide LoadVal, Exec;
  }

  /** The result of a replaced load and the value that replaces it are the same wherever the load dominates. */
  lemma AliasAt(f: Func, m: Machine, log: seq<Alias>, input: Inputs, key: MemoryLoc, d: Point, v: Value, p: Point,
      q: Point, t: seq<Config>)
    requires FuncOK(f) && MachineOK(f, m) && RegionsOK(f, m) && Consistent(f, input) && LogOK(f, m, log)
    requires KnownOK(f, m, input, key, d, v) && LoadOf(f, m, input, key, p) && Dom(f.cfg, d, p) && d != p
    requires Avail(f, Resolve(log, v), p) && SameAt(f, m, v, Resolve(log, v), p) && Dom(f.cfg, p, q) && p != q
             && Trace(f, m, [], t, q)
    ensures t[|t| - 1].env(InstAt(f, p).results[0]) == t[|t| - 1].env(Resolve(log, v))
  {
    hide Dom, RegionsOK, MachineOK, Consistent, Avail, BlocksOK, LogOK, KnownOK, LoadVal, Exec, StateAt, LocAt, Ssa;
    var y := Resolve(log, v);
    var j := DomVisited(f.cfg, Points(t), p, q);
    assert t[j].point == p;
    TraceCut(f, m, [], t, q, j);
    var u := t[..j + 1];
    assert u[|u| - 1] == t[j];
    LoadReads(f, m, input, key, d, v, p, u);
    LoadDefines(f, m, t, q, p, j);
    AvailStable(f, m, t, q, y, p, j);
  }

  // ----- resolving ends -----

  /** No alias leads to a value that was replaced before. */
  ghost predicate Fresh(log: seq<Alias>) {
    forall i, j | 0 <= j <= i < |log| :: log[i].to != log[j].from
  }

  lemma {:induction false} ResolveAppend(log: seq<Alias>, a: Alias, v: Value)
    ensures Resolve(log + [a], v) == (if Resolve(log, v) == a.from then a.to else Resolve(log, v))
    decreases |log|
  {
    if log == [] {
      assert [a][1..] == [];
    } else {
      assert (log + [a])[1..] == log[1..] + [a];
      ResolveAppend(log[1..], a, if log[0].from == v then log[0].to else v);
    }
  }

  /** Resolving leaves no value that was replaced. */
  lemma {:induction false} ResolveFresh(log: seq<Alias>, v: Value)
    requires Fresh(log)
    ensures !Dest(log, Resolve(log, v))
    decreases |log|
  {
    if log != [] {
      var n := |log| - 1;
      var rest, a := log[..n], log[n];
      assert rest + [a] == log;
      assert forall i | 0 <= i < n :: rest[i] == log[i];
      ResolveFresh(rest, v);
      ResolveAppend(rest, a, v);
      var y := Resolve(log, v);
      assert forall i | 0 <= i < n ::
               log[i].from != y by { assert forall i | 0 <= i < n :: rest[i].from == log[i].from; }
    }
  }

  // ----- runs of the original function are runs of the rewritten one -----

  lemma ValsResolved(f: Func, m: Machine, log: seq<Alias>, t: seq<Config>, p: Point)
    requires FuncOK(f) && LogOK(f, m, log) && Trace(f, m, [], t, p) && IsInst(f, p)
    ensures Vals(t[|t| - 1].env, log, Uses(InstAt(f, p))) == Vals(t[|t| - 1].env, [], Uses(InstAt(f, p)))
    ensures forall x | x in Uses(InstAt(f, p)) :: t[|t| - 1].env(Resolve(log, x)) == t[|t| - 1].env(x)
  {
    hide LogOK, Exec, BlocksOK;
    var xs, env := Uses(InstAt(f, p)), t[|t| - 1].env;
    assert UsesOK(f, p);
    forall x | x in xs ensures env(Resolve(log, x)) == env(x) {
      Resolved(f, m, log, x, p);
    }
    forall i | 0 <= i < |xs| ensures env(Resolve(log, xs[i])) == env(Resolve([], xs[i])) {
      assert xs[i] in xs;
    }
  }

  /** One instruction does the same when its operands resolve to values that are the same. */
  lemma InstSame(f: Func, m: Machine, log: seq<Alias>, c: Config, c': Config)
    requires IsInst(f, c.point) && InstOK(InstAt(f, c.point)) && ExecInst(f, m, [], c, c')
    requires Removed(log, c.point) ==> IsLoad(InstAt(f, c.point))
    requires var xs := Uses(InstAt(f, c.point));
             Vals(c.env, log, xs) == Vals(c.env, [], xs) && forall x | x in xs :: c.env(Resolve(log, x)) == c.env(x)
    ensures ExecInst(f, m, log, c, c')
  {
    var i := InstAt(f, c.point);
    if i.access.Some? {
      var xs := Uses(i);
      assert xs[|i.args|] == i.access.value.address;
      assert i.access.value.address in xs;
      if i.access.value.data.Some? {
        assert xs[|i.args| + 1] == i.access.value.data.value;
        assert i.access.value.data.value in xs;
      }
    }
    assert !Removed([], c.point);
  }

  lemma RemovedLoad(f: Func, m: Machine, log: seq<Alias>, p: Point)
    requires LogOK(f, m, log) && Removed(log, p)
    ensures IsInst(f, p) && IsLoad(InstAt(f, p))
  {
    var i :| 0 <= i < |log| && log[i].at == p;
    assert AliasOK(f, m, log[i]);
  }

  /** Every run of the original function is a run of the rewritten one. */
  lemma Forward(f: Func, m: Machine, log: seq<Alias>, t: seq<Config>, p: Point)
    requires FuncOK(f) && LogOK(f, m, log) && Trace(f, m, [], t, p)
    ensures Trace(f, m, log, t, p)
  {
    hide ExecInst, BlocksOK, Ssa, LogOK, Path;
    forall k | 0 <= k < |t| - 1 ensures Exec(f, m, log, t, k) {
      assert Exec(f, m, [], t, k);
      var q := t[k].point;
      TraceCut(f, m, [], t, p, k);
      assert t[..k + 1][k] == t[k];
      if q.at > 0 {
        ValsResolved(f, m, log, t[..k + 1], q);
        if Removed(log, q) {
          RemovedLoad(f, m, log, q);
        }
        InstSame(f, m, log, t[k], t[k + 1]);
      } else if k > 0 {
        TraceCut(f, m, [], t, p, k - 1);
        assert t[..k][k - 1] == t[k - 1];
        if IsInst(f, t[k - 1].point) {
          ValsResolved(f, m, log, t[..k], t[k - 1].point);
        }
      }
    }
  }

  // ----- runs of the rewritten function are runs of the original one -----

  /** The same values, except for values that were replaced. */
  ghost predicate AgreeEnv(log: seq<Alias>, a: Env, b: Env) {
    forall x | !Dest(log, x) :: a(x) == b(x)
  }

  ghost predicate AgreeAt(log: seq<Alias>, c: Config, c': Config) {
    c.point == c'.point && c.mem == c'.mem && AgreeEnv(log, c.env, c'.env)
  }

  /** The same points and memories, and the same values except those that were replaced. */
  ghost predicate Agree(log: seq<Alias>, t: seq<Config>, t': seq<Config>) {
    |t| == |t'| && forall k | 0 <= k < |t| :: AgreeAt(log, t[k], t'[k])
  }

  /** The values of the original function after a step of the rewritten one. */
  ghost function LiftEnv(f: Func, m: Machine, log: seq<Alias>, c: Config, next: Env): Env {
    (x: Value) =>
      if !Dest(log, x) then next(x)
      else if IsInst(f, c.point) && IsLoad(InstAt(f, c.point)) && x in InstAt(f, c.point).results then
          LoadVal(m, [], InstAt(f, c.point), c)
      else c.env(x)
  }

  lemma NotDest(f: Func, m: Machine, log: seq<Alias>, x: Value, p: Point)
    requires FuncOK(f) && LogOK(f, m, log) && DefAt(f, x, p) && !Removed(log, p)
    ensures !Dest(log, x)
  {
    forall i | 0 <= i < |log| ensures log[i].from != x {
      assert AliasOK(f, m, log[i]);
      assert DefAt(f, log[i].from, log[i].at);
    }
  }

  /** Operands mean the same in the rewritten function and in the original one. */
  lemma ValsLift(f: Func, m: Machine, log: seq<Alias>, u: seq<Config>, c': Config, q: Point)
    requires FuncOK(f) && LogOK(f, m, log) && Fresh(log) && Trace(f, m, [], u, q) && IsInst(f, q)
             && AgreeAt(log, u[|u| - 1], c')
    ensures Vals(c'.env, log, Uses(InstAt(f, q))) == Vals(u[|u| - 1].env, [], Uses(InstAt(f, q)))
    ensures forall x | x in Uses(InstAt(f, q)) :: c'.env(Resolve(log, x)) == u[|u| - 1].env(x)
  {
    hide Exec, BlocksOK, Ssa, LogOK, Fresh, Uses, Dest;
    var xs, env := Uses(InstAt(f, q)), u[|u| - 1].env;
    ValsResolved(f, m, log, u, q);
    forall x ensures c'.env(Resolve(log, x)) == env(Resolve(log, x)) {
      ResolveFresh(log, x);
    }
    assert Vals(c'.env, log, xs) == Vals(env, log, xs);
  }

  lemma InstLift(f: Func, m: Machine, log: seq<Alias>, c: Config, c': Config, d': Config)
    requires FuncOK(f) && LogOK(f, m, log) && IsInst(f, c.point) && InstOK(InstAt(f, c.point)) && AgreeAt(log, c, c')
             && ExecInst(f, m, log, c', d')
    requires var xs := Uses(InstAt(f, c.point));
             Vals(c'.env, log, xs) == Vals(c.env, [], xs) && forall x | x in xs :: c'.env(Resolve(log, x)) == c.env(x)
    ensures ExecInst(f, m, [], c, Config(d'.point, LiftEnv(f, m, log, c, d'.env), d'.mem))
  {
    hide BlocksOK, Ssa, LogOK, Dest, Uses;
    var i, q := InstAt(f, c.point), c.point;
    var env := LiftEnv(f, m, log, c, d'.env);
    assert !Removed([], q);
    LiftKept(f, m, log, c, c', d');
    OperandsIn(i);
    if Removed(log, q) {
      RemovedLoad(f, m, log, q);
      RemovedDest(f, m, log, q);
    } else {
      forall x | x in i.results ensures !Dest(log, x) {
        NotDest(f, m, log, x, q);
      }
      ValsSame(env, d'.env, i.results);
    }
  }

  lemma ValsSame(a: Env, b: Env, xs: seq<Value>)
    requires forall x | x in xs :: a(x) == b(x)
    ensures Vals(a, [], xs) == Vals(b, [], xs)
  {
    forall i | 0 <= i < |xs| ensures a(Resolve([], xs[i])) == b(Resolve([], xs[i])) {
      assert xs[i] in xs;
    }
  }

  lemma LiftKept(f: Func, m: Machine, log: seq<Alias>, c: Config, c': Config, d': Config)
    requires IsInst(f, c.point) && AgreeAt(log, c, c') && EnvKept(c'.env, d'.env, InstAt(f, c.point).results)
    ensures EnvKept(c.env, LiftEnv(f, m, log, c, d'.env), InstAt(f, c.point).results)
  {
    hide Dest, LoadVal;
  }

  lemma OperandsIn(i: Inst)
    ensures i.access.Some? ==>
              i.access.value.address in Uses(i) && (i.access.value.data.Some? ==> i.access.value.data.value in Uses(i))
  {
    if i.access.Some? {
      assert Uses(i)[|i.args|] == i.access.value.address;
      assert i.access.value.data.Some? ==> Uses(i)[|i.args| + 1] == i.access.value.data.value;
    }
  }

  lemma RemovedDest(f: Func, m: Machine, log: seq<Alias>, p: Point)
    requires LogOK(f, m, log) && Removed(log, p)
    ensures IsInst(f, p) && InstAt(f, p).results != [] && Dest(log, InstAt(f, p).results[0])
  {
    var i :| 0 <= i < |log| && log[i].at == p;
    assert AliasOK(f, m, log[i]);
  }

  lemma HeaderLift(f: Func, m: Machine, log: seq<Alias>, before: Config, before': Config, c: Config, c': Config,
      d': Config)
    requires FuncOK(f) && LogOK(f, m, log) && c.point.at == 0 && c.point.block < |f.params| && AgreeAt(log, c, c')
             && before'.point == before.point
    requires ExecHeader(f, m, log, before', c', d')
    requires IsInst(f, before.point) ==>
               var xs := Uses(InstAt(f, before.point)); Vals(before'.env, log, xs) == Vals(before.env, [], xs)
    ensures ExecHeader(f, m, [], before, c, Config(d'.point, LiftEnv(f, m, log, c, d'.env), d'.mem))
  {
    hide BlocksOK, Ssa, LogOK, Dest;
    var ps := f.params[c.point.block];
    forall x | x in ps ensures !Dest(log, x) {
      assert DefAt(f, x, c.point);
      if Removed(log, c.point) {
        RemovedLoad(f, m, log, c.point);
      }
      NotDest(f, m, log, x, c.point);
    }
  }

  lemma LiftAgree(f: Func, m: Machine, log: seq<Alias>, u: seq<Config>, t': seq<Config>, d: Config)
    requires u != [] && |t'| == |u| + 1 && Agree(log, u, t'[..|u|])
    requires d == Config(t'[|u|].point, LiftEnv(f, m, log, u[|u| - 1], t'[|u|].env), t'[|u|].mem)
    ensures Agree(log, u + [d], t')
  {
    hide Dest, LoadVal;
    forall k | 0 <= k < |t'| ensures AgreeAt(log, (u + [d])[k], t'[k]) {
      if k < |u| {
        assert AgreeAt(log, u[k], t'[..|u|][k]);
      }
    }
  }

  /** The last step of the lifted run. */
  lemma LiftLast(f: Func, m: Machine, log: seq<Alias>, u: seq<Config>, t': seq<Config>, p: Point, q: Point, d: Config)
    requires FuncOK(f) && LogOK(f, m, log) && Fresh(log) && Trace(f, m, log, t', p) && u != [] && |t'| == |u| + 1
    requires Agree(log, u, t'[..|u|]) && Trace(f, m, [], u, q)
    requires d == Config(t'[|u|].point, LiftEnv(f, m, log, u[|u| - 1], t'[|u|].env), t'[|u|].mem)
    ensures Exec(f, m, [], u + [d], |u| - 1)
  {
    hide BlocksOK, Ssa, LogOK, Fresh, Dest, ExecInst, ExecHeader, Path, Vals, Uses, LiftEnv, AgreeEnv;
    var k := |u| - 1;
    var c, c', d' := u[k], t'[k], t'[k + 1];
    assert Exec(f, m, log, t', k);
    assert c.point == q by { TraceLast(f, m, [], u, q); }
    assert AgreeAt(log, u[k], t'[..|u|][k]);
    if q.at > 0 {
      ValsLift(f, m, log, u, c', q);
      InstLift(f, m, log, c, c', d');
    } else if k > 0 {
      var b, b' := u[k - 1], t'[k - 1];
      assert AgreeAt(log, u[k - 1], t'[..|u|][k - 1]);
      TraceCut(f, m, [], u, q, k - 1);
      assert u[..k][k - 1] == b;
      if IsInst(f, b.point) {
        ValsLift(f, m, log, u[..k], b', b.point);
      }
      HeaderLift(f, m, log, b, b', c, c', d');
    } else {
      HeaderLift(f, m, log, c, c', c, c', d');
    }
  }

  lemma TraceLast(f: Func, m: Machine, log: seq<Alias>, t: seq<Config>, p: Point)
    requires Trace(f, m, log, t, p)
    ensures t != [] && t[|t| - 1].point == p
  {
  }

  lemma TraceExtend(f: Func, m: Machine, u: seq<Config>, q: Point, d: Config)
    requires Trace(f, m, [], u, q) && Step(f.cfg, q, d.point) && Exec(f, m, [], u + [d], |u| - 1)
    ensures Trace(f, m, [], u + [d], d.point)
  {
    hide ExecInst, ExecHeader;
    var t := u + [d];
    PathStep(f.cfg, Points(u), q, d.point);
    assert Points(t) == Points(u) + [d.point];
    forall k | 0 <= k < |t| - 1 ensures Exec(f, m, [], t, k) {
      if k < |u| - 1 {
        assert Exec(f, m, [], u, k);
      }
    }
  }

  /** Every run of the rewritten function is, but for replaced values, a run of the original one. */
  lemma {:induction false} Backward(f: Func, m: Machine, log: seq<Alias>, t': seq<Config>, p: Point)
      returns (t: seq<Config>)
    requires FuncOK(f) && LogOK(f, m, log) && Fresh(log) && Trace(f, m, log, t', p)
    ensures Trace(f, m, [], t, p) && Agree(log, t, t')
    decreases |t'|
  {
    hide BlocksOK, Ssa, LogOK, Fresh, Dest, Exec, LiftEnv;
    var n := |t'| - 1;
    if n == 0 {
      t := t';
    } else {
      var q := t'[n - 1].point;
      TraceCut(f, m, log, t', p, n - 1);
      var u := Backward(f, m, log, t'[..n], q);
      var d := Config(p, LiftEnv(f, m, log, u[n - 1], t'[n].env), t'[n].mem);
      t := u + [d];
      LiftAgree(f, m, log, u, t', d);
      LiftLast(f, m, log, u, t', p, q, d);
      TraceExtend(f, m, u, q, d);
    }
  }

  /** The rewritten function and the original one have the same runs: the same ways through the function with
  the same memory, and the same values except those that were replaced. */
  ghost predicate Equivalent(f: Func, m: Machine, log: seq<Alias>) {
    && (forall t, p | Trace(f, m, [], t, p) :: Trace(f, m, log, t, p))
    && (forall t, p | Trace(f, m, log, t, p) :: HasOriginal(f, m, log, t, p))
  }

  ghost predicate HasOriginal(f: Func, m: Machine, log: seq<Alias>, t': seq<Config>, p: Point) {
    exists t :: Trace(f, m, [], t, p) && Agree(log, t, t')
  }

  lemma LogEquivalent(f: Func, m: Machine, log: seq<Alias>)
    requires FuncOK(f) && LogOK(f, m, log) && Fresh(log)
    ensures Equivalent(f, m, log)
  {
    hide Trace, FuncOK, LogOK, Fresh, Agree;
    forall t, p | Trace(f, m, [], t, p) ensures Trace(f, m, log, t, p) {
      Forward(f, m, log, t, p);
    }
    forall t', p | Trace(f, m, log, t', p) ensures HasOriginal(f, m, log, t', p) {
      var t := Backward(f, m, log, t', p);
    }
  }

  /** One more replaced load. */
  lemma LogAppend(f: Func, m: Machine, log: seq<Alias>, a: Alias)
    requires FuncOK(f) && LogOK(f, m, log) && Fresh(log) && AliasOK(f, m, a) && !Removed(log, a.at) && !Dest(log, a.to)
    ensures LogOK(f, m, log + [a]) && Fresh(log + [a])
  {
    hide BlocksOK, Reads, SameAt, Before;
    var d :| DefAt(f, a.to, d) && Before(f, d, a.at);
    assert DefAt(f, a.from, a.at);
    assert d != a.at by { ReachableAt(f, a.at); BeforeDiffers(f, d, a.at); }
  }

  lemma ReachableAt(f: Func, p: Point)
    requires FuncOK(f) && IsInst(f, p) && IsLoad(InstAt(f, p))
    ensures Reachable(f.cfg, p.block)
  {
  }

  lemma BeforeDiffers(f: Func, d: Point, p: Point)
    requires Before(f, d, p) && Reachable(f.cfg, p.block)
    ensures d != p
  {
  }
}
