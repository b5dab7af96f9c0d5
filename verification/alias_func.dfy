/** Functions as alias analysis sees them: blocks of instructions that end in a branch. */
module AliasFunc {
  import opened Options
  import opened DomtreePaths

  type Value = nat
  type Type = nat

  /** The disjoint pieces of memory. */
  datatype Region = Heap | Table | Vmctx | Other

  /** Ordinary loads and stores, and all other operations with what is known of them. */
  datatype Opcode = Load | Store | Op(id: nat, loads: bool, stores: bool, fence: bool)

  predicate CanLoad(op: Opcode) {
    op.Load? || (op.Op? && op.loads)
  }

  predicate CanStore(op: Opcode) {
    op.Store? || (op.Op? && op.stores)
  }

  predicate HasFence(op: Opcode) {
    op.Op? && op.fence
  }

  datatype Access = Access(address: Value, offset: int, ty: Type, data: Option<Value>)

  /** `access` is the address, offset and type of a load or store that names one, `args` all other operands. */
  datatype Inst = Inst(op: Opcode, memflags: Option<Region>, access: Option<Access>, args: seq<Value>,
      results: seq<Value>)

  predicate IsLoad(i: Inst) {
    i.access.Some? && CanLoad(i.op) && !CanStore(i.op)
  }

  predicate IsStore(i: Inst) {
    i.access.Some? && CanStore(i.op)
  }

  /** May the instruction write to the region? */
  predicate Writes(i: Inst, r: Region) {
    HasFence(i.op) || (CanStore(i.op) && (i.memflags == None || i.memflags == Some(r)))
  }

  ghost function Uses(i: Inst): seq<Value> {
    i.args + (if i.access.None? then [] else
                [i.access.value.address] + if i.access.value.data.Some? then [i.access.value.data.value] else [])
  }

  /** `insts[b]` are the instructions of block `b`, `params[b]` its parameters, `succs[b]` its successors. */
  datatype Func = Func(cfg: Cfg, insts: seq<seq<Inst>>, params: seq<seq<Value>>, succs: seq<seq<Block>>)

  predicate IsInst(f: Func, p: Point) {
    p.block < |f.insts| && 0 < p.at <= |f.insts[p.block]|
  }

  function InstAt(f: Func, p: Point): Inst
    requires IsInst(f, p)
  {
    f.insts[p.block][p.at - 1]
  }

  ghost predicate WritesAt(f: Func, p: Point, r: Region) {
    IsInst(f, p) && Writes(InstAt(f, p), r)
  }

  ghost predicate DefAt(f: Func, v: Value, p: Point) {
    if p.at == 0 then p.block < |f.params| && v in f.params[p.block]
    else IsInst(f, p) && v in InstAt(f, p).results
  }

  /** `x` comes before `p` on every way to `p`, if there is one. */
  ghost predicate Before(f: Func, x: Point, p: Point) {
    Reachable(f.cfg, p.block) ==> Dom(f.cfg, x, p) && x != p
  }

  /** The value is defined before `p`. */
  ghost predicate Avail(f: Func, v: Value, p: Point) {
    exists d :: DefAt(f, v, d) && Before(f, d, p)
  }

  // ----- well-formed functions -----

  /** Loads and stores carry memory flags, stores have data, loads one result. */
  ghost predicate InstOK(i: Inst) {
    && (IsLoad(i) ==> i.memflags.Some? && |i.results| == 1)
    && (IsStore(i) ==> i.memflags.Some? && i.access.value.data.Some?)
    && (i.op.Store? ==> IsStore(i) && i.results == [])
  }

  ghost predicate BlocksOK(f: Func) {
    && CfgOK(f.cfg) && |f.insts| == |f.cfg.preds| == |f.params| == |f.succs| && f.cfg.entry < |f.insts|
    && (forall b | 0 <= b < |f.insts| :: f.insts[b] != [])
    && (forall p | IsInst(f, p) :: InstOK(InstAt(f, p)) && (IsLoad(InstAt(f, p)) ==> Reachable(f.cfg, p.block)))
    && (forall b, c | 0 <= b < |f.succs| && c in f.succs[b] :: c < |f.insts|)
    && (forall q, c | Jump(f.cfg, q, c) :: q.at == |f.insts[q.block]| && c in f.succs[q.block])
    && (forall b, c | 0 <= b < |f.succs| && c in f.succs[b] :: Jump(f.cfg, Point(b, |f.insts[b]|), c))
  }

  ghost predicate UsesOK(f: Func, p: Point)
    requires IsInst(f, p)
  {
    forall x | x in Uses(InstAt(f, p)) :: Avail(f, x, p)
  }

  /** Static single assignment: one definition per value, before all its uses. */
  ghost predicate Ssa(f: Func) {
    && (forall v, p, q | DefAt(f, v, p) && DefAt(f, v, q) :: p == q)
    && (forall p | IsInst(f, p) :: UsesOK(f, p))
  }

  ghost predicate FuncOK(f: Func) {
    BlocksOK(f) && Ssa(f)
  }
}
