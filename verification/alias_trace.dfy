/** Runs of a function, before and after loads have been replaced by other values. */
module AliasTrace {
  import opened Options
  import opened DomtreePaths
  import opened AliasFunc
  import opened AliasPaths

  type Env = Value -> int
  type Mem = int -> int

  /** The state just before a program point. */
  datatype Config = Config(point: Point, env: Env, mem: Mem)

  /** Meanings of operations. `init` says which arguments and memory a run may start with. Loads decode `size`
  bytes, ordinary stores encode a value, `pass` gives block parameters their values, `goes` says which way a branch
  may take, and `effect` relates operands, memory, new memory and results of all other instructions. */
  datatype Machine = Machine(
    init: (Env, Mem) -> bool,
    size: (Opcode, Type) -> nat,
    decode: (Opcode, Type, seq<int>) -> int,
    encode: (Type, int) -> seq<int>,
    pass: (Point, seq<int>, Block, nat) -> int,
    goes: (Point, seq<int>, Block) -> bool,
    effect: (Point, seq<int>, Mem, Mem, seq<int>) -> bool)

  // ----- aliases -----

  /** The load at `at`, whose result was `from`, has been removed; `to` is used instead. */
  datatype Alias = Alias(at: Point, from: Value, to: Value)

  /** Follow the aliases in the order they were made. */
  function Resolve(log: seq<Alias>, v: Value): Value
    decreases |log|
  {
    if log == [] then v else Resolve(log[1..], if log[0].from == v then log[0].to else v)
  }

  ghost predicate Removed(log: seq<Alias>, p: Point) {
    exists i | 0 <= i < |log| :: log[i].at == p
  }

  ghost predicate Dest(log: seq<Alias>, x: Value) {
    exists i | 0 <= i < |log| :: log[i].from == x
  }

  // ----- steps -----

  ghost function Vals(env: Env, log: seq<Alias>, xs: seq<Value>): seq<int> {
    seq(|xs|, i requires 0 <= i < |xs| => env(Resolve(log, xs[i])))
  }

  ghost function Bytes(mem: Mem, a: int, n: nat): seq<int> {
    seq(n, k => mem(a + k))
  }

  ghost function Base(log: seq<Alias>, i: Inst, env: Env): int
    requires i.access.Some?
  {
    env(Resolve(log, i.access.value.address)) + i.access.value.offset
  }

  ghost function LoadVal(m: Machine, log: seq<Alias>, i: Inst, c: Config): int
    requires i.access.Some?
  {
    var ty := i.access.value.ty;
    m.decode(i.op, ty, Bytes(c.mem, Base(log, i, c.env), m.size(i.op, ty)))
  }

  ghost predicate SameMem(a: Mem, b: Mem) {
    forall k :: b(k) == a(k)
  }

  ghost predicate EnvKept(a: Env, b: Env, changed: seq<Value>) {
    forall x | x !in changed :: b(x) == a(x)
  }

  ghost predicate Stored(m: Machine, log: seq<Alias>, i: Inst, c: Config, mem: Mem)
    requires i.access.Some? && i.access.value.data.Some?
  {
    var a, bytes := Base(log, i, c.env), m.encode(i.access.value.ty, c.env(Resolve(log, i.access.value.data.value)));
    forall k :: mem(k) == if a <= k < a + |bytes| then bytes[k - a] else c.mem(k)
  }

  /** One instruction. A removed load does nothing, and leaves the value that nobody uses anything. */
  ghost predicate ExecInst(f: Func, m: Machine, log: seq<Alias>, c: Config, c': Config)
    requires IsInst(f, c.point) && InstOK(InstAt(f, c.point))
  {
    var i, p := InstAt(f, c.point), c.point;
    && EnvKept(c.env, c'.env, i.results)
    && (if Removed(log, p) then SameMem(c.mem, c'.mem)
        else if IsLoad(i) then SameMem(c.mem, c'.mem) && c'.env(i.results[0]) == LoadVal(m, log, i, c)
        else if i.op.Store? then Stored(m, log, i, c, c'.mem)
        else m.effect(p, Vals(c.env, log, Uses(i)), c.mem, c'.mem, Vals(c'.env, [], i.results)))
    && (c'.point.at == 0 ==> m.goes(p, Vals(c.env, log, Uses(i)), c'.point.block))
  }

  /** Entering a block from the branch that was executed in `before`. At the start of a run the parameters of the
  entry are arguments, which have their values already. */
  ghost predicate ExecHeader(f: Func, m: Machine, log: seq<Alias>, before: Config, c: Config, c': Config)
    requires c.point.block < |f.params|
  {
    var ps := f.params[c.point.block];
    && SameMem(c.mem, c'.mem) && EnvKept(c.env, c'.env, ps)
    && (if IsInst(f, before.point) then
          var xs := Vals(before.env, log, Uses(InstAt(f, before.point)));
          forall k | 0 <= k < |ps| :: c'.env(ps[k]) == m.pass(before.point, xs, c.point.block, k)
        else
          EnvKept(c.env, c'.env, []))
  }

  ghost predicate Exec(f: Func, m: Machine, log: seq<Alias>, t: seq<Config>, k: nat)
    requires k + 1 < |t|
  {
    var p := t[k].point;
    if p.at > 0 then IsInst(f, p) && InstOK(InstAt(f, p)) && ExecInst(f, m, log, t[k], t[k + 1])
    else p.block < |f.params| && ExecHeader(f, m, log, if k > 0 then t[k - 1] else t[k], t[k], t[k + 1])
  }

  ghost function Points(t: seq<Config>): (s: seq<Point>)
    ensures |s| == |t| && forall i | 0 <= i < |t| :: s[i] == t[i].point
  {
    seq(|t|, i requires 0 <= i < |t| => t[i].point)
  }

  /** A run from a start state at the entry to just before point `p`, with the aliases `log` in force. */
  ghost predicate Trace(f: Func, m: Machine, log: seq<Alias>, t: seq<Config>, p: Point) {
    && Path(f.cfg, Points(t), p) && m.init(t[0].env, t[0].mem)
    && (forall k | 0 <= k < |t| - 1 :: Exec(f, m, log, t, k))
  }

  lemma TraceCut(f: Func, m: Machine, log: seq<Alias>, t: seq<Config>, p: Point, j: nat)
    requires Trace(f, m, log, t, p) && j < |t|
    ensures Trace(f, m, log, t[..j + 1], t[j].point)
  {
    PathCut(f.cfg, Points(t), p, j);
    var u := t[..j + 1];
    assert Points(u) == Points(t)[..j + 1];
    forall k | 0 <= k < |u| - 1 ensures Exec(f, m, log, u, k) {
      assert Exec(f, m, log, t, k);
    }
  }

  // ----- stores -----

  /** In every run, an ordinary load reads back what an ordinary store of the same type writes. */
  ghost predicate MachineOK(f: Func, m: Machine) {
    && (forall ty, d :: |m.encode(ty, d)| == m.size(Load, ty))
    && (forall t: seq<Config>, p: Point | Trace(f, m, [], t, p) && IsInst(f, p) :: ReadsBack(f, m, p, t[|t| - 1].env))
  }

  ghost predicate ReadsBack(f: Func, m: Machine, p: Point, env: Env)
    requires IsInst(f, p)
  {
    var i := InstAt(f, p);
    i.op.Store? && i.access.Some? && i.access.value.data.Some? ==>
      var ty, d := i.access.value.ty, env(i.access.value.data.value);
      m.decode(Load, ty, m.encode(ty, d)) == d
  }

  // ----- regions -----

  /** Each byte belongs to one region. Instructions change only bytes of regions they may write to, and
  loads and stores access only bytes of the region of their flags. */
  ghost predicate Respects(f: Func, m: Machine, reg: int -> Region, t: seq<Config>) {
    && (forall k | 0 <= k < |t| - 1 :: ChangesOK(f, reg, t, k))
    && (forall k | 0 <= k < |t| :: InRegion(f, m, reg, t[k]))
  }

  ghost predicate ChangesOK(f: Func, reg: int -> Region, t: seq<Config>, k: nat)
    requires k + 1 < |t|
  {
    var c, c' := t[k], t[k + 1];
    forall a | c'.mem(a) != c.mem(a) :: WritesAt(f, c.point, reg(a))
  }

  ghost predicate InRegion(f: Func, m: Machine, reg: int -> Region, c: Config) {
    IsInst(f, c.point) && (IsLoad(InstAt(f, c.point)) || InstAt(f, c.point).op.Store?)
        && InstAt(f, c.point).access.Some? ==>
      var i := InstAt(f, c.point);
      var op := if i.op.Store? then Load else i.op;
      forall a | Base([], i, c.env) <= a < Base([], i, c.env) + m.size(op, i.access.value.ty) :: i.memflags ==
          Some(reg(a))
  }

  /** It is forbidden to access memory under one region and later under another. */
  ghost predicate RegionsOK(f: Func, m: Machine) {
    forall t, p | Trace(f, m, [], t, p) :: exists reg :: Respects(f, m, reg, t)
  }
}
