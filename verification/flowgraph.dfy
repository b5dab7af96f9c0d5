/** The control flow graph: successor sets and predecessor maps, kept up to date edge by edge.

Sets and maps are the finite sets and maps that the trees of a forest stand for.
*/
module Flowgraph {
  type Block = nat
  type Inst = nat

  datatype Branch = Branch(inst: Inst, dest: Block)

  /** `branches[b]` are the ways out of block `b`, in the order they are visited. */
  datatype Function = Function(layout: seq<Block>, branches: seq<seq<Branch>>)

  /** A branch instruction belongs to one block. */
  ghost predicate FuncOK(f: Function) {
    && (forall i, j | 0 <= i < j < |f.layout| :: f.layout[i] != f.layout[j])
    && (forall b | b in f.layout :: b < |f.branches|)
    && (forall b, x | 0 <= b < |f.branches| && x in f.branches[b] :: x.dest < |f.branches|)
    && (forall b, c, x, y | 0 <= b < |f.branches| && 0 <= c < |f.branches| && x in f.branches[b] && y in f.branches[c]
        && x.inst == y.inst :: b == c)
  }

  datatype CfgNode = CfgNode(predecessors: map<Inst, Block>, successors: set<Block>)

  type Data = seq<CfgNode>

  /** The predecessor maps have an edge from instruction `i` of block `b` to block `d`. */
  ghost predicate HasEdge(data: Data, b: Block, i: Inst, d: Block) {
    d < |data| && i in data[d].predecessors && data[d].predecessors[i] == b
  }

  /** Successor sets and predecessor maps describe the same edges. */
  ghost predicate Mirror(data: Data) {
    && (forall b: Block, i: Inst, d: Block | HasEdge(data, b, i, d) :: b < |data| && d in data[b].successors)
    && (forall b, d | 0 <= b < |data| && d in data[b].successors :: Entered(data, b, d))
  }

  ghost predicate Entered(data: Data, b: Block, d: Block) {
    exists i :: HasEdge(data, b, i, d)
  }

  /** The edges are those out of the blocks `done`, and the first `n` ways out of block `cur`. */
  ghost predicate EdgesAre(data: Data, f: Function, done: set<Block>, cur: Block, n: nat) {
    |data| == |f.branches| && forall b: Block, i: Inst, d: Block :: HasEdge(data, b, i, d) <==>
        Planned(f, done, cur, n, b, Branch(i, d))
  }

  ghost predicate Planned(f: Function, done: set<Block>, cur: Block, n: nat, b: Block, x: Branch) {
    b < |f.branches| && ((b in done && x in f.branches[b]) || (b == cur && n <= |f.branches[b]|
        && x in f.branches[b][..n]))
  }

  ghost function LayoutBlocks(f: Function): set<Block> {
    set b | b in f.layout
  }

  /** The graph is that of `f`. */
  ghost predicate Describes(data: Data, f: Function) {
    Mirror(data) && EdgesAre(data, f, LayoutBlocks(f), 0, 0)
  }

  /** A function has one graph. */
  lemma GraphUnique(data: Data, data': Data, f: Function)
    requires Describes(data, f) && Describes(data', f)
    ensures data == data'
  {
    hide Planned;
    forall b | 0 <= b < |data| ensures data[b] == data'[b] {
      var p, p' := data[b].predecessors, data'[b].predecessors;
      forall i | i in p ensures i in p' && p'[i] == p[i] {
        assert HasEdge(data, p[i], i, b);
        assert HasEdge(data', p[i], i, b);
      }
      forall i | i in p' ensures i in p {
        assert HasEdge(data', p'[i], i, b);
        assert HasEdge(data, p'[i], i, b);
      }
      SuccessorsWithin(data, data', f, b);
      SuccessorsWithin(data', data, f, b);
    }
  }

  lemma SuccessorsWithin(data: Data, data': Data, f: Function, b: Block)
    requires Describes(data, f) && Describes(data', f) && b < |data|
    ensures data[b].successors <= data'[b].successors
  {
    hide Planned;
    forall d | d in data[b].successors ensures d in data'[b].successors {
      assert Entered(data, b, d);
      var i :| HasEdge(data, b, i, d);
      assert HasEdge(data', b, i, d);
    }
  }

  function Added(data: Data, from: Block, inst: Inst, to: Block): Data
    requires from < |data| && to < |data|
  {
    var data1 := data[from := data[from].(successors := data[from].successors + {to})];
    data1[to := data1[to].(predecessors := data1[to].predecessors[inst := from])]
  }

  /** A new edge adds itself and nothing else. */
  lemma AddedEdge(data: Data, from: Block, inst: Inst, to: Block)
    requires Mirror(data) && from < |data| && to < |data| && (inst in data[to].predecessors ==>
             data[to].predecessors[inst] == from)
    ensures var data' := Added(data, from, inst, to);
            Mirror(data')
            && forall b: Block, i: Inst, d: Block ::
              HasEdge(data', b, i, d) <==> HasEdge(data, b, i, d) || (b == from && i == inst && d == to)
  {
    var data' := Added(data, from, inst, to);
    assert HasEdge(data', from, inst, to);
    forall b: Block, i: Inst, d: Block | HasEdge(data', b, i, d)
      ensures b < |data| && d in data'[b].successors && (HasEdge(data, b, i, d) || (b == from && i == inst && d == to))
    {
      if !(b == from && i == inst && d == to) {
        assert HasEdge(data, b, i, d);
      }
    }
    forall b: Block, d: Block | b < |data'| && d in data'[b].successors ensures Entered(data', b, d) {
      if d in data[b].successors {
        assert Entered(data, b, d);
        var i :| HasEdge(data, b, i, d);
        assert HasEdge(data', b, i, d);
      }
    }
  }

  /** The next way out of `cur`. */
  lemma EdgeStep(data: Data, f: Function, done: set<Block>, cur: Block, n: nat)
    requires FuncOK(f) && Mirror(data) && EdgesAre(data, f, done, cur, n) && cur < |f.branches| && n < |f.branches[cur]|
    ensures var x := f.branches[cur][n];
            && x.dest < |data| && Mirror(Added(data, cur, x.inst, x.dest))
            && EdgesAre(Added(data, cur, x.inst, x.dest), f, done, cur, n + 1)
  {
    var x := f.branches[cur][n];
    assert x in f.branches[cur];
    var p := data[x.dest].predecessors;
    if x.inst in p {
      assert HasEdge(data, p[x.inst], x.inst, x.dest);
      SourceUnique(f, done, cur, n, p[x.inst], x);
    }
    AddedEdge(data, cur, x.inst, x.dest);
    assert f.branches[cur][..n + 1] == f.branches[cur][..n] + [x];
  }

  lemma SourceUnique(f: Function, done: set<Block>, cur: Block, n: nat, b: Block, x: Branch)
    requires FuncOK(f) && cur < |f.branches| && x in f.branches[cur] && Planned(f, done, cur, n, b, x)
    ensures b == cur
  {
    assert x in f.branches[b];
  }

  lemma EdgesDone(data: Data, f: Function, done: set<Block>, cur: Block, next: Block)
    requires cur < |f.branches| && EdgesAre(data, f, done, cur, |f.branches[cur]|)
    ensures EdgesAre(data, f, done + {cur}, next, 0)
  {
    assert f.branches[cur][..|f.branches[cur]|] == f.branches[cur];
    forall b: Block, i: Inst, d: Block ensures HasEdge(data, b, i, d) <==>
        Planned(f, done + {cur}, next, 0, b, Branch(i, d)) {
      assert HasEdge(data, b, i, d) <==> Planned(f, done, cur, |f.branches[cur]|, b, Branch(i, d));
    }
  }

  // ----- forgetting the edges out of a block -----

  ghost function Without(p: map<Inst, Block>, block: Block): map<Inst, Block> {
    map i | i in p && p[i] != block :: p[i]
  }

  /** The edges out of `block` are gone, except those to the blocks `todo`. */
  ghost predicate Forgetting(data0: Data, data: Data, block: Block, todo: set<Block>) {
    && |data| == |data0| && block < |data|
    && (forall b | 0 <= b < |data| :: data[b].successors == if b == block then {} else data0[b].successors)
    && (forall b | 0 <= b < |data| :: data[b].predecessors == if b in todo || b !in data0[block].successors then
        data0[b].predecessors else Without(data0[b].predecessors, block))
  }

  lemma ForgetNone(data: Data, block: Block)
    requires block < |data|
    ensures Forgetting(data, data[block := data[block].(successors := {})], block, data[block].successors)
  {
  }

  lemma ForgetOne(data0: Data, data: Data, block: Block, todo: set<Block>, d: Block)
    requires Forgetting(data0, data, block, todo) && d in todo && d < |data| && d in data0[block].successors
    ensures Forgetting(data0, data[d := data[d].(predecessors := Without(data[d].predecessors, block))], block,
            todo - {d})
  {
  }

  lemma Forgotten(data0: Data, data: Data, f: Function, done: set<Block>, block: Block, cur: Block)
    requires Mirror(data0) && EdgesAre(data0, f, done, cur, 0) && Forgetting(data0, data, block, {})
    ensures Mirror(data) && EdgesAre(data, f, done - {block}, block, 0)
  {
    forall b: Block, i: Inst, d: Block ensures HasEdge(data, b, i, d) <==> HasEdge(data0, b, i, d) && b != block {
      if HasEdge(data0, b, i, d) && b == block {
        assert d in data0[block].successors;
      }
    }
    forall b: Block, d: Block | b < |data| && d in data[b].successors ensures Entered(data, b, d) {
      assert Entered(data0, b, d);
      var i :| HasEdge(data0, b, i, d);
      assert HasEdge(data, b, i, d);
    }
    forall b: Block, i: Inst, d: Block ensures HasEdge(data, b, i, d) <==>
        Planned(f, done - {block}, block, 0, b, Branch(i, d)) {
      assert HasEdge(data0, b, i, d) <==> Planned(f, done, cur, 0, b, Branch(i, d));
    }
  }

  class ControlFlowGraph {
    var data: Data

    constructor ()
      ensures data == []
    {
      data := [];
    }

    /** Compute the graph of `f` from scratch. */
    method Compute(f: Function)
      requires FuncOK(f)
      modifies this
      ensures Describes(data, f)
    {
      hide FuncOK, Planned;
      data := seq(|f.branches|, i => CfgNode(map[], {}));
      NoEdges(data, f);
      ghost var done := {};
      for k := 0 to |f.layout|
        invariant Mirror(data) && EdgesAre(data, f, done, 0, 0) && done == set i | 0 <= i < k :: f.layout[i]
      {
        LayoutNext(f, k);
        ComputeBlock(f, f.layout[k], done, 0);
        done := done + {f.layout[k]};
      }
      assert done == LayoutBlocks(f);
    }

    method ComputeBlock(f: Function, block: Block, ghost done: set<Block>, ghost cur: Block)
      requires FuncOK(f) && block < |f.branches| && Mirror(data) && EdgesAre(data, f, done, cur, 0)
      modifies this
      ensures Mirror(data) && EdgesAre(data, f, done + {block}, 0, 0)
    {
      hide FuncOK, Planned, Mirror, EdgesAre;
      NoneTaken(data, f, done, cur, block);
      for n := 0 to |f.branches[block]|
        invariant Mirror(data) && EdgesAre(data, f, done, block, n)
      {
        var x := f.branches[block][n];
        EdgeStep(data, f, done, block, n);
        EdgesSize(data, f, done, block, n);
        AddEdge(block, x.inst, x.dest);
      }
      EdgesDone(data, f, done, block, 0);
    }

    method AddEdge(from: Block, fromInst: Inst, to: Block)
      requires from < |data| && to < |data|
      modifies this
      ensures data == Added(old(data), from, fromInst, to)
    {
      data := data[from := data[from].(successors := data[from].successors + {to})];
      data := data[to := data[to].(predecessors := data[to].predecessors[fromInst := from])];
    }

    method InvalidateBlockSuccessors(block: Block)
      requires block < |data| && Mirror(data)
      modifies this
      ensures Forgetting(old(data), data, block, {})
    {
      hide Forgetting;
      ghost var data0 := data;
      var successors := data[block].successors;
      ForgetNone(data, block);
      data := data[block := data[block].(successors := {})];
      var todo := successors;
      assert forall d | d in todo :: d < |data| by {
        forall d | d in todo ensures d < |data| {
          assert Entered(data0, block, d);
        }
      }
      while todo != {}
        invariant todo <= successors && Forgetting(data0, data, block, todo) && forall d | d in todo :: d < |data|
        decreases |todo|
      {
        var succ :| succ in todo;
        ForgetOne(data0, data, block, todo, succ);
        data := data[succ := data[succ].(predecessors := map i | i in data[succ].predecessors
            && data[succ].predecessors[i] != block :: data[succ].predecessors[i])];
        todo := todo - {succ};
      }
    }

    /** Recompute the edges out of `block`. If nothing else has changed since the graph of `f0` was computed, the
    result is the graph of the changed function. */
    method RecomputeBlock(f: Function, block: Block, ghost f0: Function)
      requires FuncOK(f) && Describes(data, f0) && block in f.layout
      requires f0.layout == f.layout && |f0.branches| == |f.branches| && forall b | 0 <= b < |f.branches|
               && b != block :: f0.branches[b] == f.branches[b]
      modifies this
      ensures Describes(data, f)
    {
      hide Mirror, Forgetting, Planned;
      ghost var data0 := data;
      LayoutRange(f, block);
      InvalidateBlockSuccessors(block);
      Forgotten(data0, data, f0, LayoutBlocks(f0), block, 0);
      OthersSame(data, f0, f, block);
      ComputeBlock(f, block, LayoutBlocks(f) - {block}, block);
      assert LayoutBlocks(f) - {block} + {block} == LayoutBlocks(f);
    }
  }

  lemma NoEdges(data: Data, f: Function)
    requires |data| == |f.branches| && forall b | 0 <= b < |data| :: data[b] == CfgNode(map[], {})
    ensures Mirror(data) && EdgesAre(data, f, {}, 0, 0)
  {
  }

  lemma EdgesSize(data: Data, f: Function, done: set<Block>, cur: Block, n: nat)
    requires EdgesAre(data, f, done, cur, n)
    ensures |data| == |f.branches|
  {
  }

  lemma LayoutNext(f: Function, k: nat)
    requires FuncOK(f) && k < |f.layout|
    ensures f.layout[k] < |f.branches|
  {
    assert f.layout[k] in f.layout;
  }

  lemma LayoutRange(f: Function, b: Block)
    requires FuncOK(f) && b in f.layout
    ensures b < |f.branches|
  {
  }

  lemma NoneTaken(data: Data, f: Function, done: set<Block>, cur: Block, block: Block)
    requires EdgesAre(data, f, done, cur, 0)
    ensures EdgesAre(data, f, done, block, 0)
  {
    forall b: Block, i: Inst, d: Block ensures HasEdge(data, b, i, d) <==> Planned(f, done, block, 0, b, Branch(i, d)) {
      assert HasEdge(data, b, i, d) <==> Planned(f, done, cur, 0, b, Branch(i, d));
    }
  }

  lemma OthersSame(data: Data, f0: Function, f: Function, block: Block)
    requires EdgesAre(data, f0, LayoutBlocks(f0) - {block}, block, 0)
    requires f0.layout == f.layout && |f0.branches| == |f.branches| && forall b | 0 <= b < |f.branches|
             && b != block :: f0.branches[b] == f.branches[b]
    ensures EdgesAre(data, f, LayoutBlocks(f) - {block}, block, 0)
  {
    var done := LayoutBlocks(f) - {block};
    assert LayoutBlocks(f0) == LayoutBlocks(f);
    forall b: Block, i: Inst, d: Block ensures HasEdge(data, b, i, d) <==> Planned(f, done, block, 0, b, Branch(i, d)) {
      assert HasEdge(data, b, i, d) <==> Planned(f0, done, block, 0, b, Branch(i, d));
    }
  }
}
