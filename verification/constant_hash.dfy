/** Look-up in constant hash tables: open addressing with quadratic probing. */
module ConstantHash {
  datatype Slot<K> = Empty | Full(key: K)

  datatype Probed = Found(idx: nat) | Missing(idx: nat)

  function Pow2(k: nat): nat
    ensures Pow2(k) > 0
  {
    if k == 0 then 1 else 2 * Pow2(k - 1)
  }

  // ----- the order in which slots are probed -----

  function Triangle(n: nat): nat {
    if n == 0 then 0 else Triangle(n - 1) + n
  }

  /** The slot that is looked at after `n` steps. */
  function SlotAt(hash: nat, n: nat, len: nat): nat
    requires len > 0
  {
    (hash + Triangle(n)) % len
  }

  lemma {:induction false} TriangleTwice(n: nat)
    ensures 2 * Triangle(n) == n * (n + 1)
    decreases n
  {
    if n > 0 {
      TriangleTwice(n - 1);
    }
  }

  /** A power of two that divides a product with an odd factor divides the other factor. */
  lemma {:induction false} OddFactor(a: nat, b: nat, k: nat, q: nat) returns (r: nat)
    requires a % 2 == 1 && a * b == Pow2(k) * q
    ensures b == Pow2(k) * r
    decreases k
  {
    if k == 0 {
      r := b;
    } else {
      var p := Pow2(k - 1) * q;
      assert a * b == 2 * p by { Regroup(Pow2(k - 1), q); }
      var b' := HalfOf(a, b, p);
      assert a * b' == p by { Halve(a, b', p); }
      r := OddFactor(a, b', k - 1, q);
      Regroup(Pow2(k - 1), r);
    }
  }

  lemma Regroup(p: nat, q: nat)
    ensures 2 * p * q == 2 * (p * q)
  {
  }

  lemma Halve(a: nat, b: nat, p: nat)
    requires a * (2 * b) == 2 * p
    ensures a * b == p
  {
    assert a * (2 * b) == 2 * (a * b);
  }

  lemma HalfOf(a: nat, b: nat, p: nat) returns (b': nat)
    requires a % 2 == 1 && a * b == 2 * p
    ensures b == 2 * b'
  {
    b' := b / 2;
    if b % 2 == 1 {
      OddProduct(a, b);
    }
  }

  lemma OddProduct(a: nat, b: nat)
    requires a % 2 == 1 && b % 2 == 1
    ensures (a * b) % 2 == 1
  {
    var c, d := a / 2, b / 2;
    assert a * b == (2 * c + 1) * (2 * d + 1) == 2 * (2 * (c * d) + c + d) + 1;
  }

  /** The first `len` probes are at different slots. */
  lemma ProbesDiffer(hash: nat, i: nat, j: nat, k: nat)
    requires i < j < Pow2(k)
    ensures SlotAt(hash, i, Pow2(k)) != SlotAt(hash, j, Pow2(k))
  {
    hide Triangle, Pow2;
    if SlotAt(hash, i, Pow2(k)) == SlotAt(hash, j, Pow2(k)) {
      var q := SameRest(hash + Triangle(i), hash + Triangle(j), Pow2(k));
      TriangleTwice(i);
      TriangleTwice(j);
      TriangleMonotone(i, j);
      var q' := Difference(i, j, Pow2(k), q, Triangle(i), Triangle(j));
      NoMultiple(i, j, k, q');
    }
  }

  lemma NoMultiple(i: nat, j: nat, k: nat, q: nat)
    requires i < j < Pow2(k)
    ensures 2 * (Pow2(k) * q) != (j - i) * (i + j + 1)
  {
    hide Pow2;
    Doubled(k, q);
    assert (j - i) + (i + j + 1) == 2 * j + 1;
    TooSmallOdd(j - i, i + j + 1, k + 1, q);
  }

  lemma Doubled(k: nat, q: nat)
    ensures Pow2(k + 1) == 2 * Pow2(k) && Pow2(k + 1) * q == 2 * (Pow2(k) * q)
  {
    Regroup(Pow2(k), q);
  }

  lemma TooSmallOdd(a: nat, b: nat, k: nat, q: nat)
    requires 0 < a < Pow2(k) && 0 < b < Pow2(k) && a % 2 != b % 2
    ensures a * b != Pow2(k) * q
  {
    hide Pow2;
    if a * b == Pow2(k) * q {
      assert b * a == a * b;
      var odd, other := if a % 2 == 1 then a else b, if a % 2 == 1 then b else a;
      var r := OddFactor(odd, other, k, q);
      TooSmall(other, Pow2(k), r);
    }
  }

  lemma SameRest(a: nat, b: nat, n: nat) returns (q: int)
    requires n > 0 && a % n == b % n
    ensures b - a == n * q
  {
    q := b / n - a / n;
    assert b == n * (b / n) + b % n && a == n * (a / n) + a % n;
    assert n * (b / n) - n * (a / n) == n * q;
  }

  lemma {:induction false} TriangleMonotone(i: nat, j: nat)
    requires i < j
    ensures Triangle(i) < Triangle(j)
    decreases j
  {
    if i < j - 1 {
      TriangleMonotone(i, j - 1);
    }
  }

  lemma Difference(i: nat, j: nat, n: nat, q: int, ti: nat, tj: nat) returns (q': nat)
    requires i < j && tj - ti == n * q && n > 0 && tj > ti && 2 * ti == i * (i + 1) && 2 * tj == j * (j + 1)
    ensures 2 * (n * q') == (j - i) * (i + j + 1)
  {
    Positive(n, q);
    q' := q;
    assert (j - i) * (i + j + 1) == j * (j + 1) - i * (i + 1);
  }

  lemma Positive(n: nat, q: int)
    requires n * q > 0
    ensures q > 0
  {
  }

  lemma TooSmall(b: nat, n: nat, r: nat)
    requires 0 < b < n
    ensures b != n * r
  {
    if r == 0 {
      assert n * r == 0;
    } else {
      assert n * r >= n;
    }
  }

  // ----- all slots are probed -----

  ghost function Probes(hash: nat, n: nat, len: nat): set<nat>
    requires len > 0
  {
    if n == 0 then {} else Probes(hash, n - 1, len) + {SlotAt(hash, n - 1, len)}
  }

  lemma {:induction false} ProbesMember(hash: nat, n: nat, len: nat, idx: nat) returns (i: nat)
    requires len > 0 && idx in Probes(hash, n, len)
    ensures i < n && SlotAt(hash, i, len) == idx
    decreases n
  {
    hide SlotAt;
    i := n - 1;
    if SlotAt(hash, i, len) != idx {
      i := ProbesMember(hash, n - 1, len, idx);
    }
  }

  lemma {:induction false} ProbesCount(hash: nat, n: nat, k: nat)
    requires n <= Pow2(k)
    ensures |Probes(hash, n, Pow2(k))| == n
    decreases n
  {
    hide SlotAt, Pow2;
    if n > 0 {
      ProbesCount(hash, n - 1, k);
      var idx := SlotAt(hash, n - 1, Pow2(k));
      if idx in Probes(hash, n - 1, Pow2(k)) {
        var i := ProbesMember(hash, n - 1, Pow2(k), idx);
        ProbesDiffer(hash, i, n - 1, k);
      }
    }
  }

  ghost function Range(n: nat): (s: set<nat>)
    ensures forall i: nat :: i in s <==> i < n
    ensures |s| == n
  {
    if n == 0 then {} else Range(n - 1) + {n - 1}
  }

  /** Every slot is among the first `len` probes. */
  lemma AllProbed(hash: nat, k: nat, idx: nat) returns (n: nat)
    requires idx < Pow2(k)
    ensures n < Pow2(k) && SlotAt(hash, n, Pow2(k)) == idx
  {
    hide Pow2, Probes;
    var len := Pow2(k);
    ProbesCount(hash, len, k);
    forall x | x in Probes(hash, len, len) ensures x in Range(len) {
      var i := ProbesMember(hash, len, len, x);
    }
    Fills(Probes(hash, len, len), Range(len));
    n := ProbesMember(hash, len, len, idx);
  }

  lemma Fills(a: set<nat>, b: set<nat>)
    requires a <= b && |a| == |b|
    ensures a == b
  {
    assert |b - a| == |b| - |a|;
    assert b == a + (b - a);
  }

  // ----- look-up -----

  /** The first `n` probes for `key` are at slots with other keys. */
  ghost predicate Passed<K>(table: seq<Slot<K>>, key: K, hash: nat, n: nat)
    requires table != []
  {
    forall m | 0 <= m < n :: table[SlotAt(hash, m, |table|)].Full? && table[SlotAt(hash, m, |table|)].key != key
  }

  /** Look for `key`. With an empty slot in the table, the number of steps stays below its length. */
  method Probe<K(==)>(table: seq<Slot<K>>, key: K, hash: nat, ghost k: nat) returns (r: Probed, ghost n: nat)
    requires |table| == Pow2(k) && exists i | 0 <= i < |table| :: table[i].Empty?
    ensures n < |table| && r.idx == SlotAt(hash, n, |table|) && Passed(table, key, hash, n)
    ensures if r.Found? then table[r.idx] == Full(key) else table[r.idx].Empty?
  {
    hide Pow2, Triangle;
    ghost var e :| 0 <= e < |table| && table[e].Empty?;
    ghost var last := AllProbed(hash, k, e);
    var idx, step: nat := hash % |table|, 0;
    n := 0;
    assert idx == SlotAt(hash, 0, |table|) by { FirstSlot(hash, |table|); }
    while true
      invariant step == n <= last && idx == SlotAt(hash, n, |table|) && Passed(table, key, hash, n)
      decreases last - n
    {
      match table[idx] {
        case Empty => return Missing(idx), n;
        case Full(k') =>
          if k' == key {
            return Found(idx), n;
          }
      }
      step := step + 1;
      NextSlot(hash, n, |table|);
      n := n + 1;
      idx := (idx + step) % |table|;
    }
  }

  lemma FirstSlot(hash: nat, len: nat)
    requires len > 0
    ensures SlotAt(hash, 0, len) == hash % len
  {
  }

  lemma NextSlot(hash: nat, n: nat, len: nat)
    requires len > 0
    ensures SlotAt(hash, n + 1, len) == (SlotAt(hash, n, len) + n + 1) % len
  {
    hide Triangle;
    TriangleNext(n);
    Euclid(hash + Triangle(n), len);
    AddMultiple((hash + Triangle(n)) % len + n + 1, (hash + Triangle(n)) / len, len);
  }

  lemma TriangleNext(n: nat)
    ensures Triangle(n + 1) == Triangle(n) + (n + 1)
  {
  }

  lemma Euclid(a: nat, n: nat)
    requires n > 0
    ensures a == n * (a / n) + a % n
  {
  }

  lemma AddMultiple(a: nat, q: nat, len: nat)
    requires len > 0
    ensures (len * q + a) % len == a % len
  {
    assert a == len * (a / len) + a % len;
    assert len * q + a == len * (q + a / len) + a % len by { Spread(len, q, a / len); }
    RestUnique(len * q + a, len, q + a / len, a % len);
  }

  lemma Spread(n: nat, a: nat, b: nat)
    ensures n * (a + b) == n * a + n * b
  {
  }

  lemma RestUnique(x: nat, n: nat, q: nat, r: nat)
    requires n > 0 && r < n && x == n * q + r
    ensures x % n == r
  {
    var d: int := x / n - q;
    assert n * d == r - x % n by { assert x == n * (x / n) + x % n && n * d == n * (x / n) - n * q; }
    Multiples(n, d);
  }

  lemma Multiples(n: int, d: int)
    requires n > 0
    ensures d >= 1 ==> n * d >= n
    ensures d <= -1 ==> n * d <= -n
  {
  }

  // ----- tables built by probing -----

  /** The first `n` probes are at full slots. */
  ghost predicate Taken<K>(table: seq<Slot<K>>, hash: nat, n: nat)
    requires table != []
  {
    forall m | 0 <= m < n :: table[SlotAt(hash, m, |table|)].Full?
  }

  /** A look-up for any key of the table meets no empty slot before it. */
  ghost predicate TableOK<K(!new)>(table: seq<Slot<K>>, hash: K -> nat) {
    table != [] && forall p | 0 <= p < |table| && table[p].Full? :: Findable(table, hash(table[p].key), p)
  }

  ghost predicate Findable<K>(table: seq<Slot<K>>, hash: nat, p: nat)
    requires table != []
  {
    exists n | 0 <= n < |table| && SlotAt(hash, n, |table|) == p :: Taken(table, hash, n)
  }

  ghost predicate Has<K(!new)>(table: seq<Slot<K>>, key: K) {
    exists p | 0 <= p < |table| :: table[p] == Full(key)
  }

  /** A look-up finds a key exactly if it is in the table. */
  lemma ProbeCorrect<K(!new)>(table: seq<Slot<K>>, hash: K -> nat, key: K, r: Probed, n: nat)
    requires TableOK(table, hash) && n < |table| && r.idx == SlotAt(hash(key), n, |table|)
             && Passed(table, key, hash(key), n)
    requires if r.Found? then table[r.idx] == Full(key) else table[r.idx].Empty?
    ensures r.Found? <==> Has(table, key)
  {
    hide Triangle;
    if r.Missing? && Has(table, key) {
      var p :| 0 <= p < |table| && table[p] == Full(key);
      assert Findable(table, hash(key), p);
      var m :| 0 <= m < |table| && SlotAt(hash(key), m, |table|) == p && Taken(table, hash(key), m);
    }
  }

  /** Storing a key in the first empty slot of its probes keeps every key findable. */
  lemma StoreKeeps<K(!new)>(table: seq<Slot<K>>, hash: K -> nat, key: K, idx: nat, n: nat)
    requires TableOK(table, hash) && n < |table| && idx == SlotAt(hash(key), n, |table|) && Taken(table, hash(key), n)
    requires idx < |table| && table[idx].Empty?
    ensures TableOK(table[idx := Full(key)], hash)
  {
    hide Triangle;
    var table' := table[idx := Full(key)];
    forall p | 0 <= p < |table'| && table'[p].Full? ensures Findable(table', hash(table'[p].key), p) {
      if p == idx {
        assert Taken(table', hash(key), n);
      } else {
        var x := table[p].key;
        assert Findable(table, hash(x), p);
        var m :| 0 <= m < |table| && SlotAt(hash(x), m, |table|) == p && Taken(table, hash(x), m);
        assert Taken(table', hash(x), m);
      }
    }
  }

  /** The power of two just above `s`. */
  function LogAbove(s: nat): (k: nat)
    ensures s < Pow2(k) && Pow2(k) <= if s == 0 then 1 else 2 * s
  {
    if s == 0 then 0 else LogAbove(s / 2) + 1
  }

  lemma {:induction false} LeastAbove(s: nat, j: nat)
    requires s < Pow2(j)
    ensures Pow2(LogAbove(s)) <= Pow2(j)
    decreases s
  {
    if s > 0 {
      LeastAbove(s / 2, j - 1);
    }
  }

  ghost function Used<K(!new)>(table: seq<Slot<K>>): set<nat> {
    set p: nat | p < |table| && table[p].Full?
  }

  /** The keys of the table are the items. */
  ghost predicate Holds<K(!new)>(table: seq<Slot<K>>, items: seq<K>) {
    forall key :: Has(table, key) <==> key in items
  }

  lemma SomeEmpty<K(!new)>(table: seq<Slot<K>>)
    requires |Used(table)| < |table|
    ensures exists p | 0 <= p < |table| :: table[p].Empty?
  {
    var all := Range(|table|);
    assert all == Used(table) + (all - Used(table));
    var p :| p in all - Used(table);
    assert table[p].Empty?;
  }

  lemma UseOne<K(!new)>(table: seq<Slot<K>>, items: seq<K>, idx: nat, key: K)
    requires idx < |table| && table[idx].Empty? && Holds(table, items)
    ensures var table' := table[idx := Full(key)];
              Used(table') == Used(table) + {idx} && |Used(table')| == |Used(table)| + 1
    ensures Holds(table[idx := Full(key)], items + [key])
  {
    var table' := table[idx := Full(key)];
    assert Used(table') == Used(table) + {idx} && idx !in Used(table);
    forall x ensures Has(table', x) <==> x in items + [key] {
      if Has(table, x) {
        var p :| 0 <= p < |table| && table[p] == Full(x);
        assert table'[p] == Full(x);
      }
      assert table'[idx] == Full(key);
    }
  }

  /** The first empty slot for a key. */
  method EmptySlot<K(!new)>(table: seq<Slot<K>>, hash: nat, ghost k: nat) returns (idx: nat, ghost n: nat)
    requires |table| == Pow2(k) && exists i | 0 <= i < |table| :: table[i].Empty?
    ensures n < |table| && idx == SlotAt(hash, n, |table|) && idx < |table| && Taken(table, hash, n)
            && table[idx].Empty?
  {
    hide Pow2, Triangle;
    ghost var e :| 0 <= e < |table| && table[e].Empty?;
    ghost var last := AllProbed(hash, k, e);
    var s: nat := 0;
    idx, n := hash % |table|, 0;
    FirstSlot(hash, |table|);
    while table[idx].Full?
      invariant s == n <= last && idx == SlotAt(hash, n, |table|) && Taken(table, hash, n)
      decreases last - n
    {
      s := s + 1;
      NextSlot(hash, n, |table|);
      n := n + 1;
      idx := (idx + s) % |table|;
    }
  }

  /** A table of a power-of-two size, with an empty slot, that holds the items. */
  method GenerateTable<K(!new)>(items: seq<K>, hash: K -> nat) returns (table: seq<Slot<K>>, ghost k: nat)
    ensures |table| == Pow2(k) && (exists p | 0 <= p < |table| :: table[p].Empty?)
    ensures var size := 12 * |items| / 10; size < |table| && forall j: nat | Pow2(j) > size :: |table| <= Pow2(j)
    ensures TableOK(table, hash) && |Used(table)| == |items| && Holds(table, items)
  {
    hide Pow2, TableOK, Used, Holds;
    var size := 12 * |items| / 10;
    forall j: nat | Pow2(j) > size ensures Pow2(LogAbove(size)) <= Pow2(j) {
      LeastAbove(size, j);
    }
    k := LogAbove(size);
    table := seq(Pow2(LogAbove(size)), i => Empty);
    NoneStored(table, hash);
    for i := 0 to |items|
      invariant |table| == Pow2(k) > |items| && TableOK(table, hash) && |Used(table)| == i && Holds(table, items[..i])
    {
      SomeEmpty(table);
      var idx, n := EmptySlot(table, hash(items[i]), k);
      StoreKeeps(table, hash, items[i], idx, n);
      UseOne(table, items[..i], idx, items[i]);
      table := table[idx := Full(items[i])];
      assert items[..i + 1] == items[..i] + [items[i]];
    }
    SomeEmpty(table);
    assert items[..|items|] == items;
  }

  lemma NoneStored<K(!new)>(table: seq<Slot<K>>, hash: K -> nat)
    requires table != [] && forall p | 0 <= p < |table| :: table[p].Empty?
    ensures TableOK(table, hash) && Used(table) == {} && Holds(table, [])
  {
  }

  /** Looking a key up in the table generated for some items finds it exactly if it is one of them. */
  method LookUp<K(==, !new)>(items: seq<K>, hash: K -> nat, key: K) returns (r: Probed, table: seq<Slot<K>>)
    ensures r.Found? <==> key in items
    ensures r.idx < |table| && table[r.idx] == if r.Found? then Full(key) else Empty
  {
    hide Pow2, TableOK, Used, Has, Triangle;
    ghost var k;
    table, k := GenerateTable(items, hash);
    ghost var n;
    r, n := Probe(table, key, hash(key), k);
    ProbeCorrect(table, hash, key, r, n);
  }
}
