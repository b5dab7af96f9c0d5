/** Markers that edges bring last are not all that a block has seen: a block may have met a marker of one of its
predecessors before that predecessor lost it. */
module AliasLate {
  import opened Options
  import opened DomtreePaths
  import opened AliasFunc
  import opened AliasMarkers
  import opened AliasWorklist

  // Block 0 branches to blocks 1 and 2, which both store to the heap and go on to block 3; block 3 goes on to block 4.
  const STORE := Inst(Store, Some(Heap), Some(Access(0, 0, 0, Some(1))), [], [])
  const JUMP := Inst(Op(0, false, false, false), None, None, [], [])
  const CFG := Cfg(0, [[], [Point(0, 1)], [Point(0, 1)], [Point(1, 2), Point(2, 2)], [Point(3, 1)]])
  const FUNC := Func(CFG, [[JUMP], [STORE, JUMP], [STORE, JUMP], [JUMP], [JUMP]], [[0, 1], [], [], [], []],
                     [[1, 2], [3], [3], [4], []])

  function Heaped(p: Point): LastStores {
    LastStores(Some(p), None, None, None)
  }

  lemma Outs(s: LastStores)
    ensures Out(FUNC, s, 0) == Out(FUNC, s, 3) == Out(FUNC, s, 4) == s
    ensures Out(FUNC, s, 1) == s.(heap := Some(Point(1, 1))) && Out(FUNC, s, 2) == s.(heap := Some(Point(2, 1)))
  {
    assert After(FUNC, s, 1, 1) == s.(heap := Some(Point(1, 1)));
    assert After(FUNC, s, 2, 1) == s.(heap := Some(Point(2, 1)));
    assert After(FUNC, s, 0, 1) == s && After(FUNC, s, 3, 1) == s && After(FUNC, s, 4, 1) == s;
  }

  /** Taking a block with one successor, or none. */
  lemma One(w: Work, b: Block)
    requires w.1 != [] && w.1[|w.1| - 1] == b && b in w.0 && 1 <= b <= 4
    ensures var q, s := w.1[..|w.1| - 1], Out(FUNC, w.0[b], b);
            WorkStep(FUNC, w) == if b == 4 then (w.0, q) else FlowTo((w.0, q), s, if b == 3 then 4 else 3)
  {
    hide Out;
    var w1, s := (w.0, w.1[..|w.1| - 1]), Out(FUNC, w.0[b], b);
    assert FlowAll(w1, s, []) == w1;
    var c := if b == 3 then 4 else 3;
    assert [c][..0] == [];
    assert FlowAll(w1, s, [c]) == FlowTo(FlowAll(w1, s, []), s, c);
  }

  lemma First()
    ensures Steps(FUNC, 1) == (map[0 := NO_STORES, 1 := NO_STORES, 2 := NO_STORES], [1, 2])
  {
    var w: Work := (map[0 := NO_STORES], []);
    Outs(NO_STORES);
    assert Steps(FUNC, 0) == (map[], [0]);
    var one, two: seq<Block> := [1], [1, 2];
    assert two[..1] == one && one[..0] == [] && w.1 + [1] == one && one + [2] == two;
    assert FlowAll(w, NO_STORES, []) == w;
    assert FlowAll(w, NO_STORES, one) == FlowTo(w, NO_STORES, 1) == (w.0[1 := NO_STORES], [1]);
    assert FlowAll(w, NO_STORES, two) == FlowTo((w.0[1 := NO_STORES], [1]), NO_STORES, 2);
  }

  lemma Second() returns (w: Work)
    ensures w == Steps(FUNC, 4) && w.1 == [1]
    ensures w.0 == map[0 := NO_STORES, 1 := NO_STORES, 2 := NO_STORES, 3 := Heaped(Point(2, 1)),
              4 := Heaped(Point(2, 1))]
  {
    hide WorkStep, Out;
    First();
    Outs(NO_STORES);
    Outs(Heaped(Point(2, 1)));
    One(Steps(FUNC, 1), 2);
    One(Steps(FUNC, 2), 3);
    One(Steps(FUNC, 3), 4);
    w := Steps(FUNC, 4);
  }

  /** The worklist ends with a marker at block 4 that is not the one that its only predecessor brings. */
  lemma LateMeet()
    ensures Steps(FUNC, 7).1 == []
    ensures var input := Steps(FUNC, 7).0;
            && 3 in input && 4 in input && Marker(Out(FUNC, input[3], 3), Heap) == Some(Point(3, 1))
            && Marker(input[4], Heap) == Some(Point(4, 1))
    ensures BlocksOK(FUNC)
    ensures forall b, i | 0 <= b < |FUNC.succs| && 0 <= i < |FUNC.succs[b]| && FUNC.succs[b][i] == 4 :: b == 3
  {
    hide WorkStep, Out, Steps;
    var w := Second();
    Outs(NO_STORES);
    Outs(Heaped(Point(3, 1)));
    One(w, 1);
    Next(4);
    One(Steps(FUNC, 5), 3);
    Next(5);
    One(Steps(FUNC, 6), 4);
    Next(6);
    BlocksFit();
  }

  lemma Next(n: nat)
    requires Steps(FUNC, n).1 != [] && Steps(FUNC, n).1[|Steps(FUNC, n).1| - 1] < |FUNC.insts|
    ensures Steps(FUNC, n + 1) == WorkStep(FUNC, Steps(FUNC, n))
  {
  }

  lemma BlocksFit()
    ensures BlocksOK(FUNC)
  {
    hide InstOK;
    assert CfgOK(CFG);
    forall p | IsInst(FUNC, p) ensures InstOK(InstAt(FUNC, p)) && !IsLoad(InstAt(FUNC, p)) {
      Insts(p);
    }
    forall q, c | Jump(CFG, q, c) ensures q.at == |FUNC.insts[q.block]| && c in FUNC.succs[q.block] {
      assert c < 5;
    }
  }

  lemma Insts(p: Point)
    requires IsInst(FUNC, p)
    ensures InstAt(FUNC, p) == STORE || InstAt(FUNC, p) == JUMP
    ensures InstOK(InstAt(FUNC, p))
  {
  }
}
