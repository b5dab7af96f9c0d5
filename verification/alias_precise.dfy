/** Markers are as precise as they can be: where all paths agree on the last write to a region, the marker is that
write. */
module AliasPrecise {
  import opened Options
  import opened DomtreePaths
  import opened AliasFunc
  import opened AliasMarkers
  import opened AliasWorklist

  // ----- the last write on a path -----

  /** The last instruction on the path, before its end, that writes to `r`. */
  ghost function LastWrite(f: Func, s: seq<Point>, r: Region): Option<Point>
    decreases |s|
  {
    if |s| <= 1 then None
    else if WritesAt(f, s[|s| - 2], r) then Some(s[|s| - 2])
    else LastWrite(f, s[..|s| - 1], r)
  }

  /** All paths to `p` have the same last write to `r`, or all have none. */
  ghost predicate Uniform(f: Func, r: Region, p: Point, o: Option<Point>) {
    forall s | Path(f.cfg, s, p) :: LastWrite(f, s, r) == o
  }

  /** The last write to `r` after the first `k` instructions of block `b`, if it was `o` before. */
  ghost function LastAfter(f: Func, b: Block, k: nat, r: Region, o: Option<Point>): Option<Point> {
    if k == 0 then o else if WritesAt(f, Point(b, k), r) then Some(Point(b, k)) else LastAfter(f, b, k - 1, r, o)
  }

  lemma {:induction false} LastAfterMarker(f: Func, s: LastStores, b: Block, k: nat, r: Region)
    requires b < |f.insts| && k <= |f.insts[b]|
    ensures Marker(After(f, s, b, k), r) == LastAfter(f, b, k, r, Marker(s, r))
    decreases k
  {
    if k > 0 {
      LastAfterMarker(f, s, b, k - 1, r);
    }
  }

  /** A block overwrites what was before, or keeps it. */
  lemma {:induction false} LastAfterCases(f: Func, b: Block, k: nat, r: Region, o: Option<Point>, o': Option<Point>)
    ensures LastAfter(f, b, k, r, o) == LastAfter(f, b, k, r, o')
            || (LastAfter(f, b, k, r, o) == o && LastAfter(f, b, k, r, o') == o')
    decreases k
  {
    if k > 0 {
      LastAfterCases(f, b, k - 1, r, o, o');
    }
  }

  lemma LastWriteStep(f: Func, s: seq<Point>, r: Region, p: Point, q: Point)
    requires s != [] && s[|s| - 1] == p
    ensures LastWrite(f, s + [q], r) == if WritesAt(f, p, r) then Some(p) else LastWrite(f, s, r)
  {
    assert (s + [q])[..|s|] == s;
  }

  /** A path to the header of a block, taken on through the block. */
  lemma {:induction false} Onward(f: Func, s: seq<Point>, b: Block, k: nat, r: Region) returns (s': seq<Point>)
    requires Path(f.cfg, s, Point(b, 0))
    ensures Path(f.cfg, s', Point(b, k))
    ensures LastWrite(f, s', r) == if k == 0 then LastWrite(f, s, r) else LastAfter(f, b, k - 1, r, LastWrite(f, s, r))
    decreases k
  {
    if k == 0 {
      s' := s;
    } else {
      var t := Onward(f, s, b, k - 1, r);
      PathStep(f.cfg, t, Point(b, k - 1), Point(b, k));
      LastWriteStep(f, t, r, Point(b, k - 1), Point(b, k));
      s' := t + [Point(b, k)];
    }
  }

  // ----- the worklist keeps markers precise -----

  /** Blocks with a state can be reached, and their markers are precise. */
  ghost predicate Precise(f: Func, input: Inputs) {
    forall b | b in input :: Reachable(f.cfg, b) && PreciseAt(f, input[b], b)
  }

  ghost predicate PreciseAt(f: Func, s: LastStores, b: Block) {
    forall r, o | Uniform(f, r, Point(b, 0), o) :: Marker(s, r) == o
  }

  /** Where all paths agree, the markers of the block do after its first `k` instructions. */
  lemma Within(f: Func, s: LastStores, b: Block, k: nat, r: Region, o: Option<Point>)
    requires b < |f.insts| && k <= |f.insts[b]| && Reachable(f.cfg, b) && PreciseAt(f, s, b)
    requires forall t | Path(f.cfg, t, Point(b, 0)) :: LastAfter(f, b, k, r, LastWrite(f, t, r)) == o
    ensures Marker(After(f, s, b, k), r) == o
  {
    hide LastAfter, LastWrite, After;
    LastAfterMarker(f, s, b, k, r);
    var t: seq<Point> :| Path(f.cfg, t, Point(b, 0)) && (LastWrite(f, t, r) == o ==> Uniform(f, r, Point(b, 0), o));
    LastAfterCases(f, b, k, r, LastWrite(f, t, r), Marker(s, r));
  }

  lemma OutPrecise(f: Func, s: LastStores, b: Block, c: Block, r: Region, o: Option<Point>)
    requires BlocksOK(f) && b < |f.insts| && c in f.succs[b] && Reachable(f.cfg, b) && PreciseAt(f, s, b)
    requires Uniform(f, r, Point(c, 0), o)
    ensures Marker(Out(f, s, b), r) == o
  {
    hide LastAfter, LastWrite, After, PreciseAt, CfgOK;
    var n := |f.insts[b]|;
    assert Jump(f.cfg, Point(b, n), c) && n > 0;
    forall t | Path(f.cfg, t, Point(b, 0)) ensures LastAfter(f, b, n, r, LastWrite(f, t, r)) == o {
      var t' := Onward(f, t, b, n, r);
      PathStep(f.cfg, t', Point(b, n), Point(c, 0));
      LastWriteStep(f, t', r, Point(b, n), Point(c, 0));
      LastAfterStep(f, b, n, r, LastWrite(f, t, r));
    }
    Within(f, s, b, n, r, o);
  }

  lemma LastAfterStep(f: Func, b: Block, k: nat, r: Region, o: Option<Point>)
    requires k > 0
    ensures LastAfter(f, b, k, r, o) ==
            if WritesAt(f, Point(b, k), r) then Some(Point(b, k)) else LastAfter(f, b, k - 1, r, o)
  {
  }

  lemma StartPrecise(f: Func)
    requires f.cfg.entry < |f.cfg.preds|
    ensures Reachable(f.cfg, f.cfg.entry) && PreciseAt(f, NO_STORES, f.cfg.entry)
  {
    var s := [Point(f.cfg.entry, 0)];
    assert Path(f.cfg, s, Point(f.cfg.entry, 0)) && forall r :: LastWrite(f, s, r) == None;
  }

  lemma FlowPrecise(f: Func, input: Inputs, b: Block, c: Block, state: LastStores)
    requires BlocksOK(f) && Precise(f, input) && b < |f.insts| && c in f.succs[b] && Reachable(f.cfg, b)
    requires forall r, o | Uniform(f, r, Point(c, 0), o) :: Marker(state, r) == o
    ensures Precise(f, Flow(input, state, c))
  {
    hide Uniform, BlocksOK;
    SuccReachable(f, b, c);
  }

  lemma SuccReachable(f: Func, b: Block, c: Block)
    requires BlocksOK(f) && b < |f.insts| && c in f.succs[b] && Reachable(f.cfg, b)
    ensures Reachable(f.cfg, c)
  {
    var n := |f.insts[b]|;
    var s :| Path(f.cfg, s, Point(b, 0));
    var s' := Through(f.cfg, s, b, n);
    assert Jump(f.cfg, Point(b, n), c);
    PathStep(f.cfg, s', Point(b, n), Point(c, 0));
  }

  /** Blocks in the queue have a state, or are the entry. */
  ghost predicate Queued(f: Func, w: Work) {
    forall b | b in w.1 :: b < |f.insts| && (b in w.0 || b == f.cfg.entry)
  }

  lemma {:induction false} AllPrecise(f: Func, w: Work, b: Block, state: LastStores, cs: seq<Block>)
    requires BlocksOK(f) && Precise(f, w.0) && Queued(f, w) && b < |f.insts| && Reachable(f.cfg, b)
    requires forall c | c in cs :: c in f.succs[b]
    requires forall c, r, o | c in f.succs[b] && Uniform(f, r, Point(c, 0), o) :: Marker(state, r) == o
    ensures var w' := FlowAll(w, state, cs); Precise(f, w'.0) && Queued(f, w')
    decreases |cs|
  {
    hide Uniform, BlocksOK, Precise;
    if cs != [] {
      var cs', c := cs[..|cs| - 1], cs[|cs| - 1];
      AllPrecise(f, w, b, state, cs');
      FlowPrecise(f, FlowAll(w, state, cs').0, b, c, state);
      SuccInside(f, b, c);
    }
  }

  lemma SuccInside(f: Func, b: Block, c: Block)
    requires BlocksOK(f) && b < |f.insts| && c in f.succs[b]
    ensures c < |f.insts|
  {
  }

  /** The last block of the queue has a precise state, its first one if it had none. */
  lemma PopPrecise(f: Func, w: Work, b: Block, input: Inputs)
    requires Precise(f, w.0) && Queued(f, w) && w.1 != [] && b == w.1[|w.1| - 1] && f.cfg.entry < |f.cfg.preds|
    requires input == if b in w.0 then w.0 else w.0[b := NO_STORES]
    ensures b < |f.insts| && b in input && Reachable(f.cfg, b) && PreciseAt(f, input[b], b) && Precise(f, input)
    ensures Queued(f, (input, w.1[..|w.1| - 1]))
  {
    hide PreciseAt, Reachable;
    assert b in w.1;
    StartPrecise(f);
    var w' := (input, w.1[..|w.1| - 1]);
    forall x | x in w'.1 ensures x < |f.insts| && (x in w'.0 || x == f.cfg.entry) {
      assert x in w.1;
    }
  }

  lemma StepPrecise(f: Func, w: Work)
    requires BlocksOK(f) && Precise(f, w.0) && Queued(f, w) && w.1 != []
    ensures w.1[|w.1| - 1] < |f.insts| && var w' := WorkStep(f, w); Precise(f, w'.0) && Queued(f, w')
  {
    hide Uniform, Precise, PreciseAt, Queued, Reachable, Out, FlowAll, Marker;
    var b := w.1[|w.1| - 1];
    var input := if b in w.0 then w.0 else w.0[b := NO_STORES];
    EntryInside(f);
    PopPrecise(f, w, b, input);
    forall c, r, o | c in f.succs[b] && Uniform(f, r, Point(c, 0), o) ensures Marker(Out(f, input[b], b), r) == o {
      OutPrecise(f, input[b], b, c, r, o);
    }
    AllPrecise(f, (input, w.1[..|w.1| - 1]), b, Out(f, input[b], b), f.succs[b]);
  }

  lemma EntryInside(f: Func)
    requires BlocksOK(f)
    ensures f.cfg.entry < |f.cfg.preds| == |f.insts| == |f.succs|
  {
  }

  /** At every step of the worklist the markers are precise. */
  lemma {:induction false} StepsPrecise(f: Func, n: nat)
    requires BlocksOK(f)
    ensures var w := Steps(f, n); Precise(f, w.0) && Queued(f, w)
    decreases n
  {
    hide BlocksOK, PreciseAt, WorkStep;
    EntryInside(f);
    if n > 0 {
      StepsPrecise(f, n - 1);
      var w := Steps(f, n - 1);
      if w.1 != [] {
        StepPrecise(f, w);
      }
    }
  }

  // ----- what a marker says -----

  /** A marker that is a write, or no marker, says exactly that all paths have that last write, or none. */
  lemma MarkersExact(f: Func, input: Inputs, p: Point, r: Region, o: Option<Point>)
    requires BlocksOK(f) && Consistent(f, input) && Precise(f, input) && IsInst(f, p) && Reachable(f.cfg, p.block)
    requires o.Some? ==> WritesAt(f, o.value, r) && o.value != p
    ensures Marker(StateAt(f, input, p), r) == o <==> Uniform(f, r, p, o)
  {
    hide LastWrite, MarkerOK, Consistent, After, BlocksOK, PreciseAt;
    if Marker(StateAt(f, input, p), r) == o {
      forall s | Path(f.cfg, s, p) ensures LastWrite(f, s, r) == o {
        MarkersSound(f, input, s, p, r);
        assert s[|s| - 1] == p;
        MarkedLast(f, s, r, o);
      }
    }
    if Uniform(f, r, p, o) {
      var b, k := p.block, p.at - 1;
      HasState(f, input, p);
      forall t | Path(f.cfg, t, Point(b, 0)) ensures LastAfter(f, b, k, r, LastWrite(f, t, r)) == o {
        var t' := Onward(f, t, b, p.at, r);
      }
      Within(f, input[b], b, k, r, o);
    }
  }

  lemma HasState(f: Func, input: Inputs, p: Point)
    requires BlocksOK(f) && Consistent(f, input) && IsInst(f, p) && Reachable(f.cfg, p.block)
    ensures p.block in input && StateAt(f, input, p) == After(f, input[p.block], p.block, p.at - 1)
  {
    var s :| Path(f.cfg, s, Point(p.block, 0));
    var s' := Through(f.cfg, s, p.block, p.at);
    MarkersSound(f, input, s', p, Heap);
  }

  lemma {:induction false} MarkedLast(f: Func, s: seq<Point>, r: Region, o: Option<Point>)
    requires s != [] && MarkerOK(f, s, r, o) && (o.Some? ==> WritesAt(f, o.value, r) && o.value != s[|s| - 1])
    ensures LastWrite(f, s, r) == o
    decreases |s|
  {
    if |s| > 1 && !WritesAt(f, s[|s| - 2], r) {
      var t := s[..|s| - 1];
      match o {
        case None => assert Quiet(f, t, r, 0);
        case Some(i) =>
          var m :| 0 <= m < |s| && s[m] == i && Quiet(f, s, r, m + 1);
          assert t[m] == i && Quiet(f, t, r, m + 1);
      }
      MarkedLast(f, t, r, o);
    }
  }

  /** A region that no reachable instruction writes to has no markers. */
  lemma NeverWritten(f: Func, input: Inputs, p: Point, r: Region)
    requires BlocksOK(f) && Consistent(f, input) && Precise(f, input) && IsInst(f, p) && Reachable(f.cfg, p.block)
    requires forall q: Point | Reachable(f.cfg, q.block) :: !WritesAt(f, q, r)
    ensures Marker(StateAt(f, input, p), r) == None
  {
    hide BlocksOK, Consistent, Precise, Reachable;
    forall s | Path(f.cfg, s, p) ensures LastWrite(f, s, r) == None {
      NoWrite(f, s, p, r);
    }
    MarkersExact(f, input, p, r, None);
  }

  lemma {:induction false} NoWrite(f: Func, s: seq<Point>, p: Point, r: Region)
    requires Path(f.cfg, s, p) && forall q: Point | Reachable(f.cfg, q.block) :: !WritesAt(f, q, r)
    ensures LastWrite(f, s, r) == None
    decreases |s|
  {
    if |s| > 1 {
      PathReachable(f.cfg, s[..|s| - 1], s[|s| - 2]);
      NoWrite(f, s[..|s| - 1], s[|s| - 2], r);
    }
  }
}
