/** The value numbering table: entries are found by the hash of their operands' classes. */
module EgraphTable {
  import opened EgraphValues
  import opened EgraphClasses

  /** An entry of the value numbering table. The hash is that of the operands' classes when it was made. */
  datatype Bucket = Bucket(hash: nat, op: Op, args: seq<Value>, value: Value)

  /** The representatives of the operands' classes. */
  ghost function Canonical(cls: Classes, args: seq<Value>): seq<Value>
    requires AllIn(args, cls)
  {
    seq(|args|, i requires 0 <= i < |args| && args[i] in cls => cls[args[i]])
  }

  lemma CanonicalSame(cls: Classes, xs: seq<Value>, ys: seq<Value>)
    requires AllIn(xs, cls) && AllIn(ys, cls) && Canonical(cls, xs) == Canonical(cls, ys)
    ensures SameClasses(cls, xs, ys)
  {
    var cx, cy := Canonical(cls, xs), Canonical(cls, ys);
    assert |cx| == |xs| && |cy| == |ys|;
    forall i | 0 <= i < |xs| ensures cls[xs[i]] == cls[ys[i]] {
      assert cx[i] == cls[xs[i]] && cy[i] == cls[ys[i]];
    }
  }

  lemma CanonicalIff(cls: Classes, xs: seq<Value>, ys: seq<Value>)
    requires AllIn(xs, cls) && AllIn(ys, cls)
    ensures Canonical(cls, xs) == Canonical(cls, ys) <==> SameClasses(cls, xs, ys)
  {
    if Canonical(cls, xs) == Canonical(cls, ys) {
      CanonicalSame(cls, xs, ys);
    }
  }

  // ----- looking up -----

  /** The entry is for the operation, with operands of the same classes. */
  ghost predicate For(cls: Classes, b: Bucket, op: Op, args: seq<Value>) {
    b.op == op && SameClasses(cls, b.args, args)
  }

  /** The entry is found for the instruction: its hash was that of the operands' classes now. */
  ghost predicate Hit(hash: (Op, seq<Value>) -> nat, cls: Classes, b: Bucket, op: Op, args: seq<Value>) {
    AllIn(args, cls) && b.hash == hash(op, Canonical(cls, args)) && For(cls, b, op, args)
  }

  ghost predicate FoundAt(hash: (Op, seq<Value>) -> nat, cls: Classes, gvn: seq<Bucket>, op: Op, args: seq<Value>,
      k: int) {
    0 <= k < |gvn| && Hit(hash, cls, gvn[k], op, args) && Missing(hash, cls, gvn[..k], op, args)
  }

  ghost predicate Missing(hash: (Op, seq<Value>) -> nat, cls: Classes, gvn: seq<Bucket>, op: Op, args: seq<Value>) {
    forall i | 0 <= i < |gvn| :: !Hit(hash, cls, gvn[i], op, args)
  }

  lemma FoundFor(hash: (Op, seq<Value>) -> nat, cls: Classes, gvn: seq<Bucket>, op: Op, args: seq<Value>, k: nat)
    requires FoundAt(hash, cls, gvn, op, args, k)
    ensures k < |gvn| && gvn[k].op == op && SameClasses(cls, gvn[k].args, args)
  {
  }

  /** The table has the value `v` for the instruction. */
  ghost predicate Holds(hash: (Op, seq<Value>) -> nat, cls: Classes, gvn: seq<Bucket>, op: Op, args: seq<Value>,
      v: Value) {
    exists k :: FoundAt(hash, cls, gvn, op, args, k) && gvn[k].value == v
  }

  lemma HoldsOne(hash: (Op, seq<Value>) -> nat, cls: Classes, gvn: seq<Bucket>, op: Op, args: seq<Value>, v: Value,
      k: int)
    requires Holds(hash, cls, gvn, op, args, v) && (k < 0 ==> Missing(hash, cls, gvn, op, args))
             && (k >= 0 ==> FoundAt(hash, cls, gvn, op, args, k))
    ensures 0 <= k < |gvn| && gvn[k].value == v
  {
    hide Hit;
    var i :| FoundAt(hash, cls, gvn, op, args, i) && gvn[i].value == v;
    assert forall j | 0 <= j < i :: gvn[..i][j] == gvn[j];
    assert k >= 0 ==> forall j | 0 <= j < k :: gvn[..k][j] == gvn[j];
  }

  /** Operands of entries are pinned, and the stored hashes are current unless pinned classes were merged. */
  ghost predicate KeyOK(hash: (Op, seq<Value>) -> nat, p: Partition, b: Bucket) {
    && AllIn(b.args, p.cls) && (forall i | 0 <= i < |b.args| :: Pinned(p, b.args[i]))
    && (p.broken == 0 ==> b.hash == hash(b.op, Canonical(p.cls, b.args)))
  }

  /** There is one entry for an instruction, unless pinned classes were merged. */
  ghost predicate TableOK(hash: (Op, seq<Value>) -> nat, p: Partition, gvn: seq<Bucket>) {
    && (forall i | 0 <= i < |gvn| :: KeyOK(hash, p, gvn[i]))
    && (p.broken == 0 ==>
          forall i, j | 0 <= i < j < |gvn| :: !For(p.cls, gvn[i], gvn[j].op, gvn[j].args))
  }

  /** Where pinned classes were not merged, an entry for the instruction is found. */
  lemma AllFound(hash: (Op, seq<Value>) -> nat, p: Partition, gvn: seq<Bucket>, op: Op, args: seq<Value>, i: nat)
    requires TableOK(hash, p, gvn) && p.broken == 0 && i < |gvn| && For(p.cls, gvn[i], op, args)
    ensures FoundAt(hash, p.cls, gvn, op, args, i)
  {
    assert KeyOK(hash, p, gvn[i]);
    assert Canonical(p.cls, args) == Canonical(p.cls, gvn[i].args);
    forall j | 0 <= j < i ensures !Hit(hash, p.cls, gvn[j], op, args) {
      assert !For(p.cls, gvn[j], gvn[i].op, gvn[i].args);
      assert gvn[..i][j] == gvn[j];
    }
  }

  /** Operands of an entry keep their representatives. */
  lemma KeyKept(hash: (Op, seq<Value>) -> nat, p: Partition, p': Partition, b: Bucket)
    requires KeyOK(hash, p, b) && Evolves(p, p')
    ensures AllIn(b.args, p.cls) && AllIn(b.args, p'.cls)
    ensures (p'.broken == p.broken ==> Canonical(p'.cls, b.args) == Canonical(p.cls, b.args)) && KeyOK(hash, p', b)
  {
    forall i | 0 <= i < |b.args| ensures Stable(p, p', b.args[i]) {
      assert Pinned(p, b.args[i]);
    }
    if p'.broken == p.broken {
      assert Canonical(p'.cls, b.args) == Canonical(p.cls, b.args);
    }
  }

  lemma TableEvolves(hash: (Op, seq<Value>) -> nat, p: Partition, p': Partition, gvn: seq<Bucket>)
    requires TableOK(hash, p, gvn) && Evolves(p, p')
    ensures TableOK(hash, p', gvn)
  {
    hide Evolves, KeyOK;
    forall i | 0 <= i < |gvn| ensures KeyOK(hash, p', gvn[i]) {
      KeyKept(hash, p, p', gvn[i]);
    }
    if p'.broken == 0 {
      forall i, j | 0 <= i < j < |gvn| ensures !For(p'.cls, gvn[i], gvn[j].op, gvn[j].args) {
        KeyKept(hash, p, p', gvn[i]);
        KeyKept(hash, p, p', gvn[j]);
        NoBreak(p, p');
        if For(p'.cls, gvn[i], gvn[j].op, gvn[j].args) {
          StillApart(p, p', gvn[i], gvn[j]);
        }
      }
    }
  }

  lemma NoBreak(p: Partition, p': Partition)
    requires Evolves(p, p')
    ensures p.broken <= p'.broken
  {
  }

  lemma StillApart(p: Partition, p': Partition, b: Bucket, c: Bucket)
    requires AllIn(b.args, p.cls) && AllIn(c.args, p.cls) && For(p'.cls, b, c.op, c.args)
    requires Canonical(p'.cls, b.args) == Canonical(p.cls, b.args)
    requires Canonical(p'.cls, c.args) == Canonical(p.cls, c.args)
    ensures For(p.cls, b, c.op, c.args)
  {
    assert Canonical(p'.cls, b.args) == Canonical(p'.cls, c.args);
    CanonicalSame(p.cls, b.args, c.args);
  }

  /** Entries stay, with their operation, operands and hash. */
  ghost predicate TableGrows(gvn: seq<Bucket>, gvn': seq<Bucket>) {
    |gvn| <= |gvn'| && forall i | 0 <= i < |gvn| :: gvn'[i] == gvn[i].(value := gvn'[i].value)
  }

  lemma TableSelf(gvn: seq<Bucket>)
    ensures TableGrows(gvn, gvn)
  {
  }

  /** An instruction that was found is found again as long as the operands' classes keep their representatives. */
  lemma FoundAgain(hash: (Op, seq<Value>) -> nat, p: Partition, p': Partition, gvn: seq<Bucket>, gvn': seq<Bucket>,
      op: Op, args: seq<Value>, v: Value) returns (v': Value)
    requires Holds(hash, p.cls, gvn, op, args, v) && Evolves(p, p') && TableGrows(gvn, gvn') && AllIn(args, p.cls)
    requires AllIn(args, p'.cls) ==> Canonical(p'.cls, args) == Canonical(p.cls, args)
    ensures Holds(hash, p'.cls, gvn', op, args, v')
  {
    var k :| FoundAt(hash, p.cls, gvn, op, args, k) && gvn[k].value == v;
    assert SameClasses(p'.cls, gvn'[k].args, args);
    assert Hit(hash, p'.cls, gvn'[k], op, args);
    v' := FirstHit(hash, p'.cls, gvn', op, args, k);
  }

  lemma FirstHit(hash: (Op, seq<Value>) -> nat, cls: Classes, gvn: seq<Bucket>, op: Op, args: seq<Value>, k: nat)
      returns (v: Value)
    requires k < |gvn| && Hit(hash, cls, gvn[k], op, args)
    ensures Holds(hash, cls, gvn, op, args, v)
  {
    hide Hit;
    var i := 0;
    while !Hit(hash, cls, gvn[i], op, args)
      invariant i <= k && Missing(hash, cls, gvn[..i], op, args)
      decreases k - i
    {
      i := i + 1;
    }
    assert FoundAt(hash, cls, gvn, op, args, i);
    v := gvn[i].value;
  }

  /** A new class does not change what the table has. */
  lemma HoldsAdded(hash: (Op, seq<Value>) -> nat, p: Partition, gvn: seq<Bucket>, x: Value, op: Op, args: seq<Value>,
      v: Value)
    requires TableOK(hash, p, gvn) && Holds(hash, p.cls, gvn, op, args, v) && x !in p.cls
    ensures Holds(hash, Added(p, x).cls, gvn, op, args, v)
  {
    var cls' := Added(p, x).cls;
    var k :| FoundAt(hash, p.cls, gvn, op, args, k) && gvn[k].value == v;
    assert Canonical(cls', args) == Canonical(p.cls, args);
    forall i | 0 <= i < |gvn| ensures Hit(hash, cls', gvn[i], op, args) == Hit(hash, p.cls, gvn[i], op, args) {
      assert KeyOK(hash, p, gvn[i]);
    }
    assert FoundAt(hash, cls', gvn, op, args, k);
  }

  /** As long as no two pinned classes are merged, that is for ever, and by the same entry. */
  lemma FoundForever(hash: (Op, seq<Value>) -> nat, p: Partition, p': Partition, gvn: seq<Bucket>, gvn': seq<Bucket>,
      op: Op, args: seq<Value>, k: nat)
    requires TableOK(hash, p, gvn) && FoundAt(hash, p.cls, gvn, op, args, k) && Evolves(p, p')
    requires TableOK(hash, p', gvn') && TableGrows(gvn, gvn') && p'.broken == 0
    ensures FoundAt(hash, p'.cls, gvn', op, args, k)
  {
    hide TableOK, KeyOK;
    assert SameClasses(p'.cls, gvn[k].args, args);
    AllFound(hash, p', gvn', op, args, k);
  }

  // ----- entering -----

  function Put(gvn: seq<Bucket>, k: int, h: nat, op: Op, args: seq<Value>, v: Value): seq<Bucket>
    requires k < |gvn|
  {
    if k >= 0 then gvn[k := gvn[k].(value := v)] else gvn + [Bucket(h, op, args, v)]
  }

  /** The value `v` is entered for the instruction: in its entry, or in a new one if it has none. */
  ghost predicate Inserted(hash: (Op, seq<Value>) -> nat, cls: Classes, gvn: seq<Bucket>, gvn': seq<Bucket>, op: Op,
      args: seq<Value>, v: Value)
    requires AllIn(args, cls)
  {
    exists k | -1 <= k < |gvn| ::
      && (if k >= 0 then FoundAt(hash, cls, gvn, op, args, k) else Missing(hash, cls, gvn, op, args))
      && gvn' == Put(gvn, k, hash(op, Canonical(cls, args)), op, args, v)
  }

  /** Entries that are found do not depend on their values. */
  lemma SameKeys(hash: (Op, seq<Value>) -> nat, cls: Classes, gvn: seq<Bucket>, gvn': seq<Bucket>, op: Op,
      args: seq<Value>, k: int)
    requires TableGrows(gvn, gvn') && k < |gvn|
    ensures FoundAt(hash, cls, gvn, op, args, k) <==> FoundAt(hash, cls, gvn', op, args, k)
  {
    if 0 <= k {
      assert forall i | 0 <= i < k :: gvn[..k][i] == gvn[i] && gvn'[..k][i] == gvn'[i];
      assert forall i | 0 <= i <= k :: Hit(hash, cls, gvn[i], op, args) == Hit(hash, cls, gvn'[i], op, args);
    }
  }

  lemma PutGrows(gvn: seq<Bucket>, k: int, h: nat, op: Op, args: seq<Value>, v: Value)
    requires k < |gvn|
    ensures TableGrows(gvn, Put(gvn, k, h, op, args, v))
  {
  }

  /** An instruction has the value that was entered last for it. */
  lemma InsertedHere(hash: (Op, seq<Value>) -> nat, cls: Classes, gvn: seq<Bucket>, gvn': seq<Bucket>, op: Op,
      args: seq<Value>, v: Value, args': seq<Value>)
    requires AllIn(args, cls) && Inserted(hash, cls, gvn, gvn', op, args, v) && SameClasses(cls, args', args)
    ensures Holds(hash, cls, gvn', op, args', v)
  {
    var h := hash(op, Canonical(cls, args));
    var k :| -1 <= k < |gvn|
      && (if k >= 0 then FoundAt(hash, cls, gvn, op, args, k) else Missing(hash, cls, gvn, op, args))
      && gvn' == Put(gvn, k, h, op, args, v);
    PutGrows(gvn, k, h, op, args, v);
    assert Canonical(cls, args') == Canonical(cls, args);
    assert forall b: Bucket :: Hit(hash, cls, b, op, args') == Hit(hash, cls, b, op, args);
    if k >= 0 {
      SameKeys(hash, cls, gvn, gvn', op, args, k);
      assert FoundAt(hash, cls, gvn', op, args', k);
    } else {
      assert gvn'[..|gvn|] == gvn;
      assert FoundAt(hash, cls, gvn', op, args', |gvn|);
    }
  }

  /** No other instruction is affected. */
  lemma InsertedElsewhere(hash: (Op, seq<Value>) -> nat, cls: Classes, gvn: seq<Bucket>, gvn': seq<Bucket>, op: Op,
      args: seq<Value>, v: Value, op': Op, args': seq<Value>, w: Value)
    requires AllIn(args, cls) && Inserted(hash, cls, gvn, gvn', op, args, v)
             && !(op' == op && SameClasses(cls, args', args))
    ensures Holds(hash, cls, gvn', op', args', w) <==> Holds(hash, cls, gvn, op', args', w)
  {
    var h := hash(op, Canonical(cls, args));
    var k :| -1 <= k < |gvn|
      && (if k >= 0 then FoundAt(hash, cls, gvn, op, args, k) else Missing(hash, cls, gvn, op, args))
      && gvn' == Put(gvn, k, h, op, args, v);
    PutGrows(gvn, k, h, op, args, v);
    forall i | 0 <= i < |gvn'| && (i == k || i == |gvn|) ensures !Hit(hash, cls, gvn'[i], op', args') {
      assert For(cls, gvn'[i], op, args);
    }
    forall i | 0 <= i < |gvn|
      ensures FoundAt(hash, cls, gvn, op', args', i) <==> FoundAt(hash, cls, gvn', op', args', i)
    {
      SameKeys(hash, cls, gvn, gvn', op', args', i);
    }
    assert Holds(hash, cls, gvn', op', args', w) ==> Holds(hash, cls, gvn, op', args', w) by {
      if i :| FoundAt(hash, cls, gvn', op', args', i) && gvn'[i].value == w {
        assert gvn'[i] == gvn[i];
      }
    }
    assert Holds(hash, cls, gvn, op', args', w) ==> Holds(hash, cls, gvn', op', args', w) by {
      if i :| FoundAt(hash, cls, gvn, op', args', i) && gvn[i].value == w {
        assert i != k && gvn'[i] == gvn[i];
      }
    }
  }

  /** Both cases: the value of an instruction changes exactly if the other is for the same operation and classes. */
  lemma InsertedHolds(hash: (Op, seq<Value>) -> nat, cls: Classes, gvn: seq<Bucket>, gvn': seq<Bucket>, op: Op,
      args: seq<Value>, v: Value, op': Op, args': seq<Value>, w: Value)
    requires AllIn(args, cls) && Inserted(hash, cls, gvn, gvn', op, args, v)
    ensures Holds(hash, cls, gvn', op', args', w) <==>
              if op' == op && SameClasses(cls, args', args) then w == v else Holds(hash, cls, gvn, op', args', w)
  {
    hide Inserted;
    if op' == op && SameClasses(cls, args', args) {
      InsertedHere(hash, cls, gvn, gvn', op, args, v, args');
      if Holds(hash, cls, gvn', op, args', w) {
        HoldsSame(hash, cls, gvn', op, args', v, w);
      }
    } else {
      InsertedElsewhere(hash, cls, gvn, gvn', op, args, v, op', args', w);
    }
  }

  lemma HoldsSame(hash: (Op, seq<Value>) -> nat, cls: Classes, gvn: seq<Bucket>, op: Op, args: seq<Value>, v: Value,
      w: Value)
    requires Holds(hash, cls, gvn, op, args, v) && Holds(hash, cls, gvn, op, args, w)
    ensures v == w
  {
    hide Hit, Missing;
    var k :| FoundAt(hash, cls, gvn, op, args, k) && gvn[k].value == w;
    HoldsOne(hash, cls, gvn, op, args, v, k);
  }

  /** The table stays in order. */
  lemma InsertedTable(hash: (Op, seq<Value>) -> nat, p: Partition, gvn: seq<Bucket>, gvn': seq<Bucket>, op: Op,
      args: seq<Value>, v: Value)
    requires TableOK(hash, p, gvn) && AllIn(args, p.cls) && Inserted(hash, p.cls, gvn, gvn', op, args, v)
    requires forall i | 0 <= i < |args| :: Pinned(p, args[i])
    ensures TableOK(hash, p, gvn') && TableGrows(gvn, gvn')
  {
    var h := hash(op, Canonical(p.cls, args));
    var k :| -1 <= k < |gvn|
      && (if k >= 0 then FoundAt(hash, p.cls, gvn, op, args, k) else Missing(hash, p.cls, gvn, op, args))
      && gvn' == Put(gvn, k, h, op, args, v);
    PutGrows(gvn, k, h, op, args, v);
    forall i | 0 <= i < |gvn'| ensures KeyOK(hash, p, gvn'[i]) {
      assert i < |gvn| ==> KeyOK(hash, p, gvn[i]);
    }
    if p.broken == 0 {
      forall i, j | 0 <= i < j < |gvn'| ensures !For(p.cls, gvn'[i], gvn'[j].op, gvn'[j].args) {
        if j < |gvn| {
          assert !For(p.cls, gvn[i], gvn[j].op, gvn[j].args);
        } else if For(p.cls, gvn[i], op, args) {
          AllFound(hash, p, gvn, op, args, i);
        }
      }
    }
  }

  /** An instruction may get another value although its operands keep their representatives: value 2 joins the class of
  1 while operation 0 of 2 is rewritten, so its value replaces that of operation 0 of 1. */
  lemma ValueReplaced() returns (hash: (Op, seq<Value>) -> nat, p: Partition, p': Partition, gvn: seq<Bucket>,
      gvn': seq<Bucket>)
    ensures TableOK(hash, p, gvn) && Holds(hash, p.cls, gvn, 0, [1], 5) && Missing(hash, p.cls, gvn, 0, [2])
    ensures 1 in p.cls && 2 in p.cls && p' == United(p, 2, 1)
    ensures AllIn([1], p'.cls) && AllIn([2], p'.cls) && Canonical(p'.cls, [1]) == Canonical(p.cls, [1])
    ensures p'.broken == p.broken == 0
    ensures Inserted(hash, p'.cls, gvn, gvn', 0, [2], 7) && Holds(hash, p'.cls, gvn', 0, [1], 7)
  {
    hash := (op, xs) => if xs == [1] then 1 else 0;
    p := Partition(map[1 := 1, 2 := 2, 5 := 5, 7 := 7], map[1 := PINNED], 0);
    p' := United(p, 2, 1);
    gvn, gvn' := [Bucket(1, 0, [1], 5)], [Bucket(1, 0, [1], 7)];
    assert Canonical(p.cls, [1]) == [1] && Canonical(p.cls, [2]) == [2];
    assert KeyOK(hash, p, gvn[0]);
    assert FoundAt(hash, p.cls, gvn, 0, [1], 0);
    assert p'.cls == map[1 := 1, 2 := 1, 5 := 5, 7 := 7];
    assert Canonical(p'.cls, [1]) == [1] && Canonical(p'.cls, [2]) == [1];
    assert FoundAt(hash, p'.cls, gvn, 0, [2], 0);
    assert gvn' == Put(gvn, 0, 1, 0, [2], 7);
    assert FoundAt(hash, p'.cls, gvn', 0, [1], 0);
  }
}
