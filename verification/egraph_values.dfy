/** Values of an e-graph: their classes, the blocks where they are available, and what they mean. */
module EgraphValues {
  type Block = nat
  type Value = nat
  type Op = nat

  /** A pure instruction, or a node that joins two values of one class. */
  datatype Def = Pure(op: Op, args: seq<Value>) | Union(x: Value, y: Value)

  type Avail = map<Value, Block>
  type Meanings = map<Value, int>
  type Classes = map<Value, Value>
  type Defs = map<Value, Def>

  /** Dominance of blocks: on the blocks that the entry dominates, a partial order in which the dominators
  of a block form a line. */
  ghost predicate TreeOrder(dom: (Block, Block) -> bool, entry: Block) {
    && (forall a :: dom(a, a))
    && (forall a, b, c | dom(a, b) && dom(b, c) :: dom(a, c))
    && (forall a, b | dom(a, b) && dom(b, a) && dom(entry, a) :: a == b)
    && (forall a, b, c | dom(a, c) && dom(b, c) && dom(entry, c) :: dom(a, b) || dom(b, a))
  }

  ghost predicate AllIn<T>(xs: seq<Value>, m: map<Value, T>) {
    forall i | 0 <= i < |xs| :: xs[i] in m
  }

  /** What the operands mean. */
  ghost function Means(m: Meanings, xs: seq<Value>): seq<int>
    requires AllIn(xs, m)
  {
    seq(|xs|, i requires 0 <= i < |xs| => m[xs[i]])
  }

  // ----- where an instruction is available -----

  /** All operands are available at block `b`. */
  ghost predicate AvailAt(dom: (Block, Block) -> bool, avail: Avail, xs: seq<Value>, b: Block) {
    AllIn(xs, avail) && forall i | 0 <= i < |xs| :: dom(avail[xs[i]], b)
  }

  /** `b` is the block closest to the root where all operands are available. */
  ghost predicate Deepest(dom: (Block, Block) -> bool, entry: Block, avail: Avail, xs: seq<Value>, b: Block) {
    && AvailAt(dom, avail, xs, b)
    && (if xs == [] then b == entry else exists i | 0 <= i < |xs| :: avail[xs[i]] == b)
  }

  /** The deepest block dominates every block where the operands are available. */
  lemma DeepestOver(dom: (Block, Block) -> bool, entry: Block, avail: Avail, xs: seq<Value>, b: Block, c: Block)
    requires Deepest(dom, entry, avail, xs, b) && AvailAt(dom, avail, xs, c) && dom(entry, c)
    ensures dom(b, c)
  {
  }

  // ----- classes -----

  /** Members of a class are available in the same block and mean the same. */
  ghost predicate ClassesOK(cls: Classes, avail: Avail, m: Meanings) {
    && (forall v | v in avail :: v in cls && v in m)
    && (forall v, w | v in avail && w in avail && cls[v] == cls[w] :: avail[v] == avail[w] && m[v] == m[w])
  }

  /** A value that has no block yet, in a class of its own. */
  ghost predicate Isolated(cls: Classes, avail: Avail, w: Value) {
    w in cls && w !in avail && forall u | u in cls && u != w :: cls[u] != cls[w]
  }

  /** A new member of a class of its own. */
  lemma AddOK(cls: Classes, avail: Avail, m: Meanings, v: Value, block: Block)
    requires ClassesOK(cls, avail, m) && v in m && Isolated(cls, avail, v)
    ensures ClassesOK(cls, avail[v := block], m) && Grows(avail, m, avail[v := block], m)
  {
  }

  /** Operands of the same classes, one by one. */
  ghost predicate SameClasses(cls: Classes, xs: seq<Value>, ys: seq<Value>) {
    |xs| == |ys| && AllIn(xs, cls) && AllIn(ys, cls) && forall i | 0 <= i < |xs| :: cls[xs[i]] == cls[ys[i]]
  }

  lemma SameMeans(cls: Classes, avail: Avail, m: Meanings, xs: seq<Value>, ys: seq<Value>)
    requires ClassesOK(cls, avail, m) && AllIn(xs, avail) && AllIn(ys, avail) && SameClasses(cls, xs, ys)
    ensures AllIn(xs, m) && AllIn(ys, m) && Means(m, xs) == Means(m, ys)
  {
  }

  lemma SameDeepest(dom: (Block, Block) -> bool, entry: Block, cls: Classes, avail: Avail, m: Meanings, xs: seq<Value>,
      ys: seq<Value>, b: Block)
    requires ClassesOK(cls, avail, m) && AllIn(ys, avail) && SameClasses(cls, xs, ys)
             && Deepest(dom, entry, avail, xs, b)
    ensures Deepest(dom, entry, avail, ys, b)
  {
    assert forall i | 0 <= i < |xs| :: avail[xs[i]] == avail[ys[i]];
    if xs != [] {
      var i :| 0 <= i < |xs| && avail[xs[i]] == b;
      assert avail[ys[i]] == b;
    }
  }

  // ----- definitions -----

  /** Pure nodes mean what their operation makes of their operands, and are available where those are;
  union nodes stand for values that are available in the same block and mean the same. */
  ghost predicate DefOK(dom: (Block, Block) -> bool, sem: (Op, seq<int>) -> int, defs: Defs, avail: Avail, m: Meanings,
      v: Value)
    requires v in defs
  {
    && v in avail && v in m
    && match defs[v]
       case Pure(op, args) => AvailAt(dom, avail, args, avail[v]) && AllIn(args, m) && m[v] == sem(op, Means(m, args))
       case Union(x, y) =>
         x in avail && y in avail && x in m && y in m && avail[x] == avail[y] == avail[v]
         && m[x] == m[y] == m[v]
  }

  ghost predicate DefsOK(dom: (Block, Block) -> bool, sem: (Op, seq<int>) -> int, defs: Defs, avail: Avail,
      m: Meanings) {
    forall v | v in defs :: DefOK(dom, sem, defs, avail, m, v)
  }

  /** More values are known, and none has changed. */
  ghost predicate Grows(avail: Avail, m: Meanings, avail': Avail, m': Meanings) {
    && (forall v | v in avail :: v in avail' && avail'[v] == avail[v])
    && (forall v | v in m :: v in m' && m'[v] == m[v])
  }

  lemma GrowsTrans(a: Avail, m: Meanings, a': Avail, m': Meanings, a'': Avail, m'': Meanings)
    requires Grows(a, m, a', m') && Grows(a', m', a'', m'')
    ensures Grows(a, m, a'', m'')
  {
  }

  lemma GrowsArgs(dom: (Block, Block) -> bool, a: Avail, m: Meanings, a': Avail, m': Meanings, xs: seq<Value>, b: Block)
    requires Grows(a, m, a', m') && AvailAt(dom, a, xs, b) && AllIn(xs, m)
    ensures AvailAt(dom, a', xs, b) && AllIn(xs, m') && Means(m', xs) == Means(m, xs)
  {
  }

  lemma GrowsDeepest(dom: (Block, Block) -> bool, entry: Block, a: Avail, m: Meanings, a': Avail, m': Meanings,
      xs: seq<Value>, b: Block)
    requires Grows(a, m, a', m') && Deepest(dom, entry, a, xs, b)
    ensures Deepest(dom, entry, a', xs, b)
  {
    if xs != [] {
      var i :| 0 <= i < |xs| && a[xs[i]] == b;
      assert a'[xs[i]] == b;
    }
  }

  lemma DefsGrow(dom: (Block, Block) -> bool, sem: (Op, seq<int>) -> int, defs: Defs, a: Avail, m: Meanings, a': Avail,
      m': Meanings)
    requires DefsOK(dom, sem, defs, a, m) && Grows(a, m, a', m')
    ensures DefsOK(dom, sem, defs, a', m')
  {
    forall v | v in defs ensures DefOK(dom, sem, defs, a', m', v) {
      assert DefOK(dom, sem, defs, a, m, v);
      if defs[v].Pure? {
        GrowsArgs(dom, a, m, a', m', defs[v].args, a[v]);
      }
    }
  }

  // ----- rewrite rules -----

  /** The right-hand side of a rule: a value that was matched, or a new instruction. */
  datatype Term = Use(value: Value) | Make(op: Op, args: seq<Term>)

  datatype Match = Match(term: Term, subsume: bool)

  ghost predicate TermOK(dom: (Block, Block) -> bool, avail: Avail, m: Meanings, t: Term, b: Block) {
    match t
    case Use(v) => v in avail && v in m && dom(avail[v], b)
    case Make(op, args) => forall i | 0 <= i < |args| :: TermOK(dom, avail, m, args[i], b)
  }

  ghost function TermMeans(sem: (Op, seq<int>) -> int, m: Meanings, t: Term): int {
    match t
    case Use(v) => if v in m then m[v] else 0
    case Make(op, args) => sem(op, seq(|args|, i requires 0 <= i < |args| => TermMeans(sem, m, args[i])))
  }

  /** Rules replace a value by terms over values that are available wherever it is, and that mean the same. */
  ghost predicate RulesOK(dom: (Block, Block) -> bool, sem: (Op, seq<int>) -> int, rules: (Defs, Value) -> seq<Match>) {
    forall defs, avail, m, v | DefsOK(dom, sem, defs, avail, m) && v in defs ::
        MatchesOK(dom, sem, avail, m, rules(defs, v), v)
  }

  ghost predicate MatchesOK(dom: (Block, Block) -> bool, sem: (Op, seq<int>) -> int, avail: Avail, m: Meanings,
      matches: seq<Match>, v: Value) {
    && v in avail && v in m
    && (forall i | 0 <= i < |matches| :: TermOK(dom, avail, m, matches[i].term, avail[v])
         && TermMeans(sem, m, matches[i].term) == m[v])
  }

  lemma {:induction false} TermGrows(dom: (Block, Block) -> bool, sem: (Op, seq<int>) -> int, a: Avail, m: Meanings,
      a': Avail, m': Meanings, t: Term, b: Block)
    requires Grows(a, m, a', m') && TermOK(dom, a, m, t, b)
    ensures TermOK(dom, a', m', t, b) && TermMeans(sem, m', t) == TermMeans(sem, m, t)
  {
    match t {
      case Use(v) =>
      case Make(op, args) =>
        forall i | 0 <= i < |args| ensures TermOK(dom, a', m', args[i], b) && TermMeans(sem, m', args[i]) ==
            TermMeans(sem, m, args[i]) {
          TermGrows(dom, sem, a, m, a', m', args[i], b);
        }
        assert seq(|args|, i requires 0 <= i < |args| => TermMeans(sem, m', args[i])) ==
            seq(|args|, i requires 0 <= i < |args| => TermMeans(sem, m, args[i]));
    }
  }
}
