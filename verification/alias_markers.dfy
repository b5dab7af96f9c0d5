/** Last-store markers: which instruction may last have written to each region of memory. */
module AliasMarkers {
  import opened Options
  import opened DomtreePaths
  import opened AliasFunc

  datatype LastStores = LastStores(heap: Option<Point>, table: Option<Point>, vmctx: Option<Point>,
      other: Option<Point>)

  const NO_STORES := LastStores(None, None, None, None)

  function Marker(s: LastStores, r: Region): Option<Point> {
    match r
    case Heap => s.heap
    case Table => s.table
    case Vmctx => s.vmctx
    case Other => s.other
  }

  function UpdateAll(p: Point): LastStores {
    LastStores(Some(p), Some(p), Some(p), Some(p))
  }

  /** The markers after instruction `i` at `p`. */
  function Update(s: LastStores, i: Inst, p: Point): (s': LastStores)
    ensures forall r :: Marker(s', r) == if Writes(i, r) then Some(p) else Marker(s, r)
  {
    if HasFence(i.op) then UpdateAll(p)
    else if CanStore(i.op) then
      match i.memflags
      case Some(Other) => s.(other := Some(p))
      case Some(Heap) => s.(heap := Some(p))
      case Some(Table) => s.(table := Some(p))
      case Some(Vmctx) => s.(vmctx := Some(p))
      case None => UpdateAll(p)
    else s
  }

  /** The marker of the region that instruction `i` at `p` accesses. */
  function GetLastStore(s: LastStores, i: Inst, p: Point): Option<Point> {
    match i.memflags
    case Some(r) => Marker(s, r)
    case None => if CanLoad(i.op) || CanStore(i.op) then Some(p) else None
  }

  function Meet(a: Option<Point>, b: Option<Point>, loc: Point): Option<Point> {
    if a == b then a else Some(loc)
  }

  /** The markers where two paths meet at the start of a block, whose first instruction is `loc`: a common marker is
  kept, and different ones give way to `loc`. */
  function MeetFrom(s: LastStores, o: LastStores, loc: Point): (s': LastStores)
    ensures forall r | Marker(s, r) == Marker(o, r) :: Marker(s', r) == Marker(s, r)
    ensures forall r | Marker(s, r) != Marker(o, r) :: Marker(s', r) == Some(loc)
  {
    LastStores(Meet(s.heap, o.heap, loc), Meet(s.table, o.table, loc), Meet(s.vmctx, o.vmctx, loc),
        Meet(s.other, o.other, loc))
  }

  // ----- what markers mean -----

  /** On the path `s`, no instruction from index `m` on, before the end, writes to `r`. */
  ghost predicate Quiet(f: Func, s: seq<Point>, r: Region, m: nat) {
    forall w | m <= w < |s| - 1 :: !WritesAt(f, s[w], r)
  }

  /** No marker: nothing on the path has written to `r`. A marker: the path passed it, or is at it,
  and nothing has written to `r` since. */
  ghost predicate MarkerOK(f: Func, s: seq<Point>, r: Region, mark: Option<Point>) {
    match mark
    case None => Quiet(f, s, r, 0)
    case Some(i) => exists m | 0 <= m < |s| && s[m] == i :: Quiet(f, s, r, m + 1)
  }

  /** The path goes on to `q`. */
  lemma MarkerNext(f: Func, s: seq<Point>, r: Region, mark: Option<Point>, q: Point)
    requires s != [] && MarkerOK(f, s, r, mark) && !WritesAt(f, s[|s| - 1], r)
    ensures MarkerOK(f, s + [q], r, mark)
  {
    var t := s + [q];
    match mark {
      case None =>
        assert Quiet(f, t, r, 0);
      case Some(i) =>
        var m :| 0 <= m < |s| && s[m] == i && Quiet(f, s, r, m + 1);
        assert t[m] == i && Quiet(f, t, r, m + 1);
    }
  }

  lemma MarkerUpdate(f: Func, s: seq<Point>, st: LastStores, r: Region, q: Point)
    requires s != [] && IsInst(f, s[|s| - 1]) && MarkerOK(f, s, r, Marker(st, r))
    ensures MarkerOK(f, s + [q], r, Marker(Update(st, InstAt(f, s[|s| - 1]), s[|s| - 1]), r))
  {
    var p := s[|s| - 1];
    if Writes(InstAt(f, p), r) {
      var t := s + [q];
      assert t[|s| - 1] == p && Quiet(f, t, r, |s|);
    } else {
      MarkerNext(f, s, r, Marker(st, r), q);
    }
  }

  lemma MarkerHere(f: Func, s: seq<Point>, r: Region)
    requires s != []
    ensures MarkerOK(f, s, r, Some(s[|s| - 1]))
  {
    assert Quiet(f, s, r, |s|);
  }

  // ----- states of blocks -----

  type Inputs = map<Block, LastStores>

  function Start(input: Inputs, b: Block): LastStores {
    if b in input then input[b] else NO_STORES
  }

  /** The markers after the first `n` instructions of block `b`. */
  ghost function After(f: Func, s: LastStores, b: Block, n: nat): LastStores
    requires b < |f.insts| && n <= |f.insts[b]|
  {
    if n == 0 then s else Update(After(f, s, b, n - 1), f.insts[b][n - 1], Point(b, n))
  }

  /** The markers just before instruction `p`. */
  ghost function StateAt(f: Func, input: Inputs, p: Point): LastStores
    requires IsInst(f, p)
  {
    After(f, Start(input, p.block), p.block, p.at - 1)
  }

  ghost function Out(f: Func, s: LastStores, b: Block): LastStores
    requires b < |f.insts|
  {
    After(f, s, b, |f.insts[b]|)
  }

  /** The markers `a` at the start of a block agree with `s`, or say no more than that the block was entered. */
  ghost predicate Absorbs(a: LastStores, s: LastStores, c: Block) {
    forall r :: Marker(a, r) == Marker(s, r) || Marker(a, r) == Some(Point(c, 1))
  }

  ghost predicate EdgeOK(f: Func, input: Inputs, s: LastStores, c: Block) {
    c in input && Absorbs(input[c], s, c)
  }

  ghost predicate BlockDone(f: Func, input: Inputs, b: Block)
    requires b < |f.insts| == |f.succs| && b in input
  {
    forall c | c in f.succs[b] :: EdgeOK(f, input, Out(f, input[b], b), c)
  }

  /** The input states agree along every edge. */
  ghost predicate Consistent(f: Func, input: Inputs) {
    && |f.insts| == |f.succs|
    && EdgeOK(f, input, NO_STORES, f.cfg.entry)
    && (forall b | b in input :: b < |f.insts| && BlockDone(f, input, b))
  }

  /** On every path to an instruction, the markers mean what they should. */
  lemma {:induction false} MarkersSound(f: Func, input: Inputs, s: seq<Point>, p: Point, r: Region)
    requires BlocksOK(f) && Consistent(f, input) && Path(f.cfg, s, p) && IsInst(f, p)
    ensures p.block in input && MarkerOK(f, s, r, Marker(StateAt(f, input, p), r))
    decreases |s|
  {
    hide Absorbs, MarkerOK, CfgOK;
    var t, q := s[..|s| - 1], s[|s| - 2];
    if p.at > 1 {
      MarkersSound(f, input, t, q, r);
      MarkerUpdate(f, t, StateAt(f, input, q), r, p);
      assert t + [p] == s;
    } else {
      HeaderSound(f, input, t, q, r, p);
      assert t + [p] == s;
    }
  }

  lemma {:induction false} HeaderSound(f: Func, input: Inputs, t: seq<Point>, h: Point, r: Region, p: Point)
    requires BlocksOK(f) && Consistent(f, input) && Path(f.cfg, t, h) && h.at == 0 && p == Point(h.block, 1)
             && IsInst(f, p)
    ensures p.block in input && MarkerOK(f, t + [p], r, Marker(StateAt(f, input, p), r))
    decreases |t|
  {
    hide MarkerOK, BlocksOK, After, Update;
    assert StateAt(f, input, p) == Start(input, p.block) by { FirstState(f, input, p); }
    if |t| == 1 {
      assert EdgeOK(f, input, NO_STORES, h.block);
      if Marker(input[h.block], r) == None {
        assert Quiet(f, t + [p], r, 0);
        assert MarkerOK(f, t + [p], r, None) by { QuietOK(f, t + [p], r); }
      } else {
        MarkerHere(f, t + [p], r);
      }
    } else {
      var u, q := t[..|t| - 1], t[|t| - 2];
      assert Jump(f.cfg, q, h.block);
      BranchInst(f, q, h.block);
      MarkersSound(f, input, u, q, r);
      LastState(f, input, q);
      MarkerUpdate(f, u, StateAt(f, input, q), r, h);
      assert u + [h] == t;
      assert BlockDone(f, input, q.block) && EdgeOK(f, input, Out(f, input[q.block], q.block), h.block);
      if Marker(input[h.block], r) == Some(p) {
        MarkerHere(f, t + [p], r);
      } else {
        MarkerNext(f, t, r, Marker(input[h.block], r), p);
      }
    }
  }

  lemma FirstState(f: Func, input: Inputs, p: Point)
    requires IsInst(f, p) && p.at == 1
    ensures StateAt(f, input, p) == Start(input, p.block)
  {
  }

  lemma LastState(f: Func, input: Inputs, q: Point)
    requires IsInst(f, q) && q.at == |f.insts[q.block]| && q.block in input
    ensures Out(f, input[q.block], q.block) == Update(StateAt(f, input, q), InstAt(f, q), q)
  {
  }

  lemma QuietOK(f: Func, s: seq<Point>, r: Region)
    requires Quiet(f, s, r, 0)
    ensures MarkerOK(f, s, r, None)
  {
  }

  lemma BranchInst(f: Func, q: Point, c: Block)
    requires BlocksOK(f) && Jump(f.cfg, q, c)
    ensures IsInst(f, q) && q.at == |f.insts[q.block]| && c in f.succs[q.block]
  {
    var i :| 0 <= i < |f.cfg.preds[c]| && f.cfg.preds[c][i] == q;
    assert BranchOK(f.cfg, f.cfg.preds[c][i]);
  }
}
