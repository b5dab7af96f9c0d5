/** Known memory values, and why a load of one may be replaced. */
module AliasValues {
  import opened Options
  import opened DomtreePaths
  import opened AliasFunc
  import opened AliasPaths
  import opened AliasMarkers
  import opened AliasTrace

  // ----- what does not change along a run -----

  /** A value changes only where it is defined. */
  lemma {:induction false} EnvStable(f: Func, m: Machine, t: seq<Config>, p: Point, x: Value, e: Point, j: nat, k: nat)
    requires Ssa(f) && Trace(f, m, [], t, p) && DefAt(f, x, e) && j <= k < |t|
    requires forall w | j <= w < k :: t[w].point != e
    ensures t[k].env(x) == t[j].env(x)
    decreases k
  {
    if j < k {
      EnvStable(f, m, t, p, x, e, j, k - 1);
      var c := t[k - 1];
      assert Exec(f, m, [], t, k - 1);
      if c.point.at > 0 {
        assert x in InstAt(f, c.point).results ==> DefAt(f, x, c.point);
      } else {
        assert x in f.params[c.point.block] ==> DefAt(f, x, c.point);
      }
    }
  }

  /** A byte changes only where its region may be written. */
  lemma {:induction false} MemStable(f: Func, m: Machine, reg: int -> Region, t: seq<Config>, a: int, j: nat, k: nat)
    requires Respects(f, m, reg, t) && j <= k < |t| && forall w | j <= w < k :: !WritesAt(f, t[w].point, reg(a))
    ensures t[k].mem(a) == t[j].mem(a)
    decreases k
  {
    if j < k {
      MemStable(f, m, reg, t, a, j, k - 1);
      assert ChangesOK(f, reg, t, k - 1);
    }
  }

  /** In every run, `x` and `y` have the same value just before `p`. */
  ghost predicate SameAt(f: Func, m: Machine, x: Value, y: Value, p: Point) {
    forall t: seq<Config> | Trace(f, m, [], t, p) :: t[|t| - 1].env(x) == t[|t| - 1].env(y)
  }

  lemma TraceReachable(f: Func, m: Machine, log: seq<Alias>, t: seq<Config>, p: Point)
    requires Trace(f, m, log, t, p)
    ensures Reachable(f.cfg, p.block)
  {
    PathReachable(f.cfg, Points(t), p);
  }

  /** A value that was available at `d` is still the same at a point dominated by `d`. */
  lemma AvailStable(f: Func, m: Machine, t: seq<Config>, p: Point, x: Value, d: Point, j: nat)
    requires Ssa(f) && Trace(f, m, [], t, p) && Dom(f.cfg, d, p) && d != p && LastVisit(Points(t), d, j)
             && Avail(f, x, d)
    ensures t[|t| - 1].env(x) == t[j].env(x)
  {
    hide Dom, Ssa, Exec;
    var s := Points(t);
    TraceCut(f, m, [], t, p, j);
    TraceReachable(f, m, [], t[..j + 1], d);
    var e :| DefAt(f, x, e) && Before(f, e, d);
    forall w | j <= w < |t| - 1 ensures t[w].point != e {
      if w > j {
        NotBetween(f.cfg, s, e, d, p, j, w);
      }
    }
    EnvStable(f, m, t, p, x, e, j, |t| - 1);
  }

  /** A value defined by `d` is what the last visit of `d` made it. */
  lemma DefStable(f: Func, m: Machine, t: seq<Config>, p: Point, x: Value, d: Point, j: nat)
    requires Ssa(f) && Trace(f, m, [], t, p) && LastVisit(Points(t), d, j) && DefAt(f, x, d)
    ensures t[|t| - 1].env(x) == t[j + 1].env(x)
  {
    var s := Points(t);
    forall w | j + 1 <= w < |t| - 1 ensures t[w].point != d {
      assert s[w] == t[w].point;
    }
    EnvStable(f, m, t, p, x, d, j + 1, |t| - 1);
  }

  // ----- aliases hold -----

  /** In every run, the load at `p` reads the value that `v` has. */
  ghost predicate Reads(f: Func, m: Machine, v: Value, p: Point)
    requires IsInst(f, p) && InstAt(f, p).access.Some?
  {
    forall t: seq<Config> | Trace(f, m, [], t, p) :: LoadVal(m, [], InstAt(f, p), t[|t| - 1]) == t[|t| - 1].env(v)
  }

  /** The removed load read what `to` holds, and from there on its result and `to` are the same. */
  ghost predicate AliasOK(f: Func, m: Machine, a: Alias) {
    && IsInst(f, a.at) && IsLoad(InstAt(f, a.at)) && InstAt(f, a.at).results == [a.from]
    && Avail(f, a.to, a.at) && Reads(f, m, a.to, a.at)
    && (forall p | Before(f, a.at, p) :: SameAt(f, m, a.from, a.to, p))
  }

  ghost predicate LogOK(f: Func, m: Machine, log: seq<Alias>) {
    forall i | 0 <= i < |log| :: AliasOK(f, m, log[i])
  }

  /** Where a value is available, what it resolves to is available and the same. */
  lemma {:induction false} Resolved(f: Func, m: Machine, log: seq<Alias>, x: Value, p: Point)
    requires FuncOK(f) && LogOK(f, m, log) && Avail(f, x, p)
    ensures Avail(f, Resolve(log, x), p) && SameAt(f, m, x, Resolve(log, x), p)
    decreases |log|
  {
    hide Dom, SameAt, Before;
    if log == [] {
      assert SameAt(f, m, x, x, p) by { SameSelf(f, m, x, p); }
    } else {
      var a, rest := log[0], log[1..];
      assert AliasOK(f, m, a);
      assert forall i | 0 <= i < |rest| :: rest[i] == log[i + 1];
      if a.from == x {
        assert DefAt(f, x, a.at);
        var e :| DefAt(f, x, e) && Before(f, e, p);
        AvailLater(f, a.to, a.at, p);
        Resolved(f, m, rest, a.to, p);
        SameTrans(f, m, x, a.to, Resolve(log, x), p);
      } else {
        Resolved(f, m, rest, x, p);
      }
    }
  }

  lemma SameSelf(f: Func, m: Machine, x: Value, p: Point)
    ensures SameAt(f, m, x, x, p)
  {
  }

  lemma SameTrans(f: Func, m: Machine, x: Value, y: Value, z: Value, p: Point)
    requires SameAt(f, m, x, y, p) && SameAt(f, m, y, z, p)
    ensures SameAt(f, m, x, z, p)
  {
  }

  // ----- memory values -----

  function ExtOpcode(op: Opcode): Option<Opcode> {
    if op.Load? || op.Store? then None else Some(op)
  }

  datatype MemoryLoc = MemoryLoc(lastStore: Option<Point>, address: Value, offset: int, ty: Type, ext: Option<Opcode>)

  datatype Known = Known(def: Point, value: Value)

  /** The access at `d` is to the location `key`. */
  ghost predicate LocAt(f: Func, m: Machine, key: MemoryLoc, d: Point)
    requires IsInst(f, d)
  {
    var i := InstAt(f, d);
    && i.access.Some? && key.offset == i.access.value.offset && key.ty == i.access.value.ty && key.ext ==
        ExtOpcode(i.op)
    && SameAt(f, m, i.access.value.address, key.address, d) && Avail(f, key.address, d)
  }

  /** After `d`, the location `key` holds `v`. */
  ghost predicate KnownOK(f: Func, m: Machine, input: Inputs, key: MemoryLoc, d: Point, v: Value) {
    && IsInst(f, d) && LocAt(f, m, key, d) && InstOK(InstAt(f, d))
    && var i := InstAt(f, d);
    if CanStore(i.op) then
      key.lastStore == Some(d) && i.access.value.data.Some? && SameAt(f, m, i.access.value.data.value, v, d)
          && Avail(f, v, d)
    else
      IsLoad(i) && key.lastStore == GetLastStore(StateAt(f, input, d), i, d) && v == i.results[0]
  }

  /** The load at `p` is of the location `key`. */
  ghost predicate LoadOf(f: Func, m: Machine, input: Inputs, key: MemoryLoc, p: Point) {
    && IsInst(f, p) && LocAt(f, m, key, p) && InstOK(InstAt(f, p))
    && IsLoad(InstAt(f, p)) && key.lastStore == GetLastStore(StateAt(f, input, p), InstAt(f, p), p)
  }

  /** Nothing writes to the region between the last visit of `d` and `p`, if both see the same marker. */
  lemma NoWrites(f: Func, s: seq<Point>, d: Point, p: Point, r: Region, mark: Option<Point>, j: nat, w: nat)
    requires Path(f.cfg, s, p) && Dom(f.cfg, d, p) && d != p && LastVisit(s, d, j) && j < w < |s| - 1
    requires MarkerOK(f, s, r, mark) && (mark.Some? ==> Dom(f.cfg, mark.value, d))
    ensures !WritesAt(f, s[w], r)
  {
    hide Dom;
    match mark {
      case None =>
      case Some(i) =>
        var k :| 0 <= k < |s| && s[k] == i && Quiet(f, s, r, k + 1);
        if k == |s| - 1 {
          NotMutual(f.cfg, s, d, p);
        } else if k > j {
          if i != d {
            NotBetween(f.cfg, s, i, d, p, j, k);
          }
        }
    }
  }

  /** The marker at a load dominates it. */
  lemma MarkerDom(f: Func, input: Inputs, d: Point, r: Region)
    requires BlocksOK(f) && Consistent(f, input) && IsInst(f, d)
    ensures var mark := Marker(StateAt(f, input, d), r); mark.Some? ==> Dom(f.cfg, mark.value, d)
  {
    var mark := Marker(StateAt(f, input, d), r);
    if mark.Some? {
      forall s | Path(f.cfg, s, d) ensures mark.value in s {
        MarkersSound(f, input, s, d, r);
      }
    }
  }

  /** Both accesses are at the same address. */
  lemma SameBase(f: Func, m: Machine, key: MemoryLoc, d: Point, p: Point, t: seq<Config>, j: nat)
    requires FuncOK(f) && Trace(f, m, [], t, p) && Dom(f.cfg, d, p) && d != p && LastVisit(Points(t), d, j)
    requires IsInst(f, d) && IsInst(f, p) && LocAt(f, m, key, d) && LocAt(f, m, key, p)
    ensures Base([], InstAt(f, d), t[j].env) == Base([], InstAt(f, p), t[|t| - 1].env)
  {
    hide Dom, Ssa, Exec, Before, Avail, BlocksOK, Path, DefAt;
    TraceCut(f, m, [], t, p, j);
    assert t[j].point == d && t[..j + 1][j] == t[j];
    AvailStable(f, m, t, p, key.address, d, j);
  }

  /** The bytes of the location are the same just after `d` and at `p`. */
  lemma SameByte(f: Func, m: Machine, input: Inputs, key: MemoryLoc, d: Point, v: Value, p: Point, t: seq<Config>,
      j: nat, reg: int -> Region, a: int)
    requires FuncOK(f) && Consistent(f, input) && KnownOK(f, m, input, key, d, v) && LoadOf(f, m, input, key, p)
    requires Trace(f, m, [], t, p) && Dom(f.cfg, d, p) && d != p && LastVisit(Points(t), d, j) && Respects(f, m, reg, t)
    requires InstAt(f, d).memflags == InstAt(f, p).memflags == Some(reg(a))
    ensures t[|t| - 1].mem(a) == t[j + 1].mem(a)
  {
    hide Dom, Ssa, Exec, LocAt, Respects, MarkerOK, BlocksOK, Consistent;
    var s, r := Points(t), reg(a);
    MarkersSound(f, input, s, p, r);
    MarkerDom(f, input, d, r);
    if CanStore(InstAt(f, d).op) {
      DomEarlier(f.cfg, d, d);
    }
    forall w | j + 1 <= w < |t| - 1 ensures !WritesAt(f, t[w].point, r) {
      NoWrites(f, s, d, p, r, key.lastStore, j, w);
    }
    MemStable(f, m, reg, t, a, j + 1, |t| - 1);
  }

  /** Only an ordinary store can match an ordinary load; otherwise the two loads are of one opcode. */
  lemma OpMatch(f: Func, m: Machine, input: Inputs, key: MemoryLoc, d: Point, v: Value, p: Point)
    requires KnownOK(f, m, input, key, d, v) && LoadOf(f, m, input, key, p)
    ensures if CanStore(InstAt(f, d).op) then InstAt(f, d).op.Store? && InstAt(f, p).op.Load?
            else InstAt(f, d).op == InstAt(f, p).op
    ensures InstAt(f, d).access.value.ty == InstAt(f, p).access.value.ty && InstAt(f, d).memflags.Some?
            && InstAt(f, p).memflags.Some?
  {
    hide SameAt, Avail, StateAt;
  }

  lemma RegionAt(f: Func, m: Machine, reg: int -> Region, c: Config, p: Point, a: int)
    requires InRegion(f, m, reg, c) && c.point == p && IsInst(f, p) && (IsLoad(InstAt(f, p)) || InstAt(f, p).op.Store?)
             && InstAt(f, p).access.Some?
    requires var i := InstAt(f, p);
             Base([], i, c.env) <= a < Base([], i, c.env) + m.size(if i.op.Store? then Load else i.op,
                 i.access.value.ty)
    ensures InstAt(f, p).memflags == Some(reg(a))
  {
  }

  lemma LocBytes(f: Func, m: Machine, input: Inputs, key: MemoryLoc, d: Point, v: Value, p: Point, t: seq<Config>,
      j: nat, reg: int -> Region)
    requires FuncOK(f) && Consistent(f, input) && KnownOK(f, m, input, key, d, v) && LoadOf(f, m, input, key, p)
    requires Trace(f, m, [], t, p) && Dom(f.cfg, d, p) && d != p && LastVisit(Points(t), d, j) && Respects(f, m, reg, t)
    ensures var i := InstAt(f, p); var a, n := Base([], i, t[|t| - 1].env), m.size(i.op, i.access.value.ty);
            Base([], InstAt(f, d), t[j].env) == a && Bytes(t[|t| - 1].mem, a, n) == Bytes(t[j + 1].mem, a, n)
  {
    hide Dom, Ssa, Consistent, Exec, BlocksOK, SameAt, Avail, StateAt;
    var i := InstAt(f, p);
    var a, n := Base([], i, t[|t| - 1].env), m.size(i.op, i.access.value.ty);
    SameBase(f, m, key, d, p, t, j);
    OpMatch(f, m, input, key, d, v, p);
    assert t[j].point == d && t[|t| - 1].point == p;
    assert InRegion(f, m, reg, t[j]) && InRegion(f, m, reg, t[|t| - 1]);
    var mem, mem' := t[j + 1].mem, t[|t| - 1].mem;
    forall x | a <= x < a + n ensures mem'(x) == mem(x) {
      RegionAt(f, m, reg, t[j], d, x);
      RegionAt(f, m, reg, t[|t| - 1], p, x);
      SameByte(f, m, input, key, d, v, p, t, j, reg, x);
    }
  }

  /** What an ordinary store wrote is read back, and is the value that is now known. */
  lemma StoreReads(f: Func, m: Machine, key: MemoryLoc, d: Point, v: Value, p: Point, t: seq<Config>, j: nat, a: int)
    requires FuncOK(f) && MachineOK(f, m) && Trace(f, m, [], t, p) && Dom(f.cfg, d, p) && d != p
             && LastVisit(Points(t), d, j)
    requires IsInst(f, d) && InstAt(f, d).op.Store? && a == Base([], InstAt(f, d), t[j].env)
    requires var data := InstAt(f, d).access.value.data.value; SameAt(f, m, data, v, d) && Avail(f, v, d)
    ensures var ty := InstAt(f, d).access.value.ty;
              m.decode(Load, ty, Bytes(t[j + 1].mem, a, m.size(Load, ty))) == t[|t| - 1].env(v)
  {
    hide Dom, Ssa, Before, Avail, Reachable;
    var i := InstAt(f, d);
    TraceCut(f, m, [], t, p, j);
    assert t[j].point == d && t[..j + 1][j] == t[j];
    AvailStable(f, m, t, p, v, d, j);
    assert Exec(f, m, [], t, j);
    assert !Removed([], d);
    var ty, data := i.access.value.ty, t[j].env(i.access.value.data.value);
    assert Stored(m, [], i, t[j], t[j + 1].mem);
    assert Bytes(t[j + 1].mem, a, m.size(Load, ty)) == m.encode(ty, data);
  }

  lemma LoadDefines(f: Func, m: Machine, t: seq<Config>, p: Point, d: Point, j: nat)
    requires FuncOK(f) && Trace(f, m, [], t, p) && LastVisit(Points(t), d, j) && IsInst(f, d) && IsLoad(InstAt(f, d))
    ensures InstAt(f, d).results != [] && t[|t| - 1].env(InstAt(f, d).results[0]) == LoadVal(m, [], InstAt(f, d), t[j])
    ensures SameMem(t[j].mem, t[j + 1].mem)
  {
    hide Ssa, LoadVal;
    assert t[j].point == d;
    assert Exec(f, m, [], t, j);
    assert !Removed([], d);
    DefStable(f, m, t, p, InstAt(f, d).results[0], d, j);
  }

  /** A load of a location whose value is known, from an instruction that dominates the load, reads the
  current value of that value. */
  lemma LoadReads(f: Func, m: Machine, input: Inputs, key: MemoryLoc, d: Point, v: Value, p: Point, t: seq<Config>)
    requires FuncOK(f) && MachineOK(f, m) && RegionsOK(f, m) && Consistent(f, input)
    requires KnownOK(f, m, input, key, d, v) && LoadOf(f, m, input, key, p) && Dom(f.cfg, d, p) && d != p
    requires Trace(f, m, [], t, p)
    ensures LoadVal(m, [], InstAt(f, p), t[|t| - 1]) == t[|t| - 1].env(v)
  {
    hide Dom, FuncOK, MachineOK, Consistent, LocAt, Avail, Respects, SameAt, Exec;
    var j := DomVisited(f.cfg, Points(t), d, p);
    var reg :| Respects(f, m, reg, t);
    LocBytes(f, m, input, key, d, v, p, t, j, reg);
    OpMatch(f, m, input, key, d, v, p);
    var i := InstAt(f, p);
    var a, n := Base([], i, t[|t| - 1].env), m.size(i.op, i.access.value.ty);
    if CanStore(InstAt(f, d).op) {
      StoreReads(f, m, key, d, v, p, t, j, a);
    } else {
      LoadDefines(f, m, t, p, d, j);
      assert Bytes(t[j].mem, a, n) == Bytes(t[j + 1].mem, a, n);
    }
  }

  lemma KnownReads(f: Func, m: Machine, input: Inputs, key: MemoryLoc, d: Point, v: Value, p: Point)
    requires FuncOK(f) && MachineOK(f, m) && RegionsOK(f, m) && Consistent(f, input)
    requires KnownOK(f, m, input, key, d, v) && LoadOf(f, m, input, key, p) && Dom(f.cfg, d, p) && d != p
    ensures Reads(f, m, v, p)
  {
    hide Dom, FuncOK, MachineOK, RegionsOK, Consistent, KnownOK, LocAt, LoadVal, Exec;
    forall t: seq<Config> | Trace(f, m, [], t, p) ensures LoadVal(m, [], InstAt(f, p), t[|t| - 1]) ==
        t[|t| - 1].env(v) {
      LoadReads(f, m, input, key, d, v, p, t);
    }
  }
}
