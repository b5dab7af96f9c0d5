/** The classes of an e-graph, kept as a forest: each value leads to a parent, and the root of its tree is the
representative of its class. */
module EgraphClasses {
  import opened EgraphValues

  /** A rank is a byte; the largest is that of a representative that was asked to stay. */
  type Rank = n: nat | n < 256

  const PINNED: Rank := 255

  type Ranks = map<Value, Rank>

  function RankOf(rank: Ranks, v: Value): Rank {
    if v in rank then rank[v] else 0
  }

  /** Classes by representative, the ranks of values, and how often two pinned classes were merged. */
  datatype Partition = Partition(cls: Classes, rank: Ranks, broken: nat)

  /** The class of `v` is pinned. */
  predicate Pinned(p: Partition, v: Value)
    requires v in p.cls
  {
    RankOf(p.rank, p.cls[v]) == PINNED
  }

  /** Merge the classes of `a` and `b` under the representative `rep`. */
  ghost function Merge(cls: Classes, a: Value, b: Value, rep: Value): Classes
    requires a in cls && b in cls
  {
    map v | v in cls :: if cls[v] == cls[a] || cls[v] == cls[b] then rep else cls[v]
  }

  /** Merging two classes: the one of higher rank keeps its representative. */
  ghost function United(p: Partition, a: Value, b: Value): Partition
    requires a in p.cls && b in p.cls
  {
    var x, y := p.cls[a], p.cls[b];
    var rx, ry := RankOf(p.rank, x), RankOf(p.rank, y);
    if x == y then p
    else if rx < ry then p.(cls := Merge(p.cls, a, b, y))
    else if ry < rx then p.(cls := Merge(p.cls, a, b, x))
    else if rx < PINNED then Partition(Merge(p.cls, a, b, x), p.rank[x := rx + 1], p.broken)
    else Partition(Merge(p.cls, a, b, x), p.rank[x := PINNED], p.broken + 1)
  }

  /** Exactly the two classes become one. */
  lemma UnitedClasses(p: Partition, a: Value, b: Value, v: Value, w: Value)
    requires a in p.cls && b in p.cls && v in p.cls && w in p.cls
    ensures var cls, cls' := p.cls, United(p, a, b).cls;
            && v in cls' && w in cls'
            && (cls'[v] == cls'[w] <==>
                cls[v] == cls[w] || (cls[v] == cls[a] && cls[w] == cls[b]) || (cls[v] == cls[b] && cls[w] == cls[a]))
  {
  }

  lemma MergeOK(p: Partition, avail: Avail, m: Meanings, a: Value, b: Value)
    requires ClassesOK(p.cls, avail, m) && a in avail && b in avail && avail[a] == avail[b] && m[a] == m[b]
    ensures ClassesOK(United(p, a, b).cls, avail, m)
  {
    hide United;
    forall v | v in avail ensures v in United(p, a, b).cls {
      UnitedClasses(p, a, b, v, v);
    }
    forall v, w | v in avail && w in avail && United(p, a, b).cls[v] == United(p, a, b).cls[w]
      ensures avail[v] == avail[w] && m[v] == m[w]
    {
      UnitedClasses(p, a, b, v, w);
    }
  }

  /** Of the classes in `cls`, exactly those of `a` and `b` have become one. */
  ghost predicate Joined(cls: Classes, cls': Classes, a: Value, b: Value)
    requires a in cls && b in cls
  {
    forall v, w {:trigger JoinedAt(cls, cls', a, b, v, w)} | v in cls && w in cls :: JoinedAt(cls, cls', a, b, v, w)
  }

  ghost predicate JoinedAt(cls: Classes, cls': Classes, a: Value, b: Value, v: Value, w: Value)
    requires a in cls && b in cls && v in cls && w in cls
  {
    && v in cls' && w in cls'
    && (cls'[v] == cls'[w] <==>
        cls[v] == cls[w] || (cls[v] == cls[a] && cls[w] == cls[b]) || (cls[v] == cls[b] && cls[w] == cls[a]))
  }

  lemma UnitedJoined(p: Partition, a: Value, b: Value)
    requires a in p.cls && b in p.cls
    ensures Joined(p.cls, United(p, a, b).cls, a, b)
  {
    hide United;
    forall v, w | v in p.cls && w in p.cls ensures JoinedAt(p.cls, United(p, a, b).cls, a, b, v, w) {
      UnitedClasses(p, a, b, v, w);
    }
  }

  /** Joining `a` and `b` under a new value `r`. */
  lemma JoinedUnder(cls: Classes, cls1: Classes, cls2: Classes, a: Value, b: Value, r: Value)
    requires a in cls && b in cls && r !in cls && forall v | v in cls :: cls[v] in cls
    requires Joined(cls[r := r], cls1, a, b) && a in cls1 && r in cls1 && Joined(cls1, cls2, a, r)
    ensures Joined(cls, cls2, a, b) && r in cls2 && a in cls2 && b in cls2 && cls2[r] == cls2[a] == cls2[b]
  {
    var cls0 := cls[r := r];
    forall v, w | v in cls && w in cls ensures JoinedAt(cls, cls2, a, b, v, w) {
      assert JoinedAt(cls0, cls1, a, b, v, w) && JoinedAt(cls0, cls1, a, b, v, r) && JoinedAt(cls0, cls1, a, b, w, r);
      assert JoinedAt(cls1, cls2, a, r, v, w);
    }
    assert JoinedAt(cls0, cls1, a, b, a, b);
    assert JoinedAt(cls1, cls2, a, r, a, r) && JoinedAt(cls1, cls2, a, r, a, b);
  }

  lemma JoinedSwap(cls: Classes, cls': Classes, a: Value, b: Value)
    requires a in cls && b in cls && Joined(cls, cls', a, b)
    ensures Joined(cls, cls', b, a)
  {
    forall v, w | v in cls && w in cls ensures JoinedAt(cls, cls', b, a, v, w) {
      assert JoinedAt(cls, cls', a, b, v, w);
    }
  }

  /** Both, and what is in the class of one of them, are in one class then. */
  lemma JoinedSame(cls: Classes, cls': Classes, a: Value, b: Value, c: Value)
    requires a in cls && b in cls && Joined(cls, cls', a, b) && c in cls && cls[c] == cls[a]
    ensures a in cls' && b in cls' && c in cls' && cls'[a] == cls'[b] == cls'[c]
  {
    assert JoinedAt(cls, cls', a, b, a, b) && JoinedAt(cls, cls', a, b, a, c);
  }

  /** The class of `v` has a member of `s`. */
  ghost predicate Meets(cls: Classes, v: Value, s: set<Value>)
    requires v in cls
  {
    exists x :: x in s && x in cls && cls[x] == cls[v]
  }

  /** Of the classes in `cls`, exactly those that meet `s` have become one. */
  ghost predicate Fused(cls: Classes, cls': Classes, s: set<Value>) {
    forall v, w {:trigger FusedAt(cls, cls', s, v, w)} | v in cls && w in cls :: FusedAt(cls, cls', s, v, w)
  }

  ghost predicate FusedAt(cls: Classes, cls': Classes, s: set<Value>, v: Value, w: Value)
    requires v in cls && w in cls
  {
    && v in cls' && w in cls'
    && (cls'[v] == cls'[w] <==> cls[v] == cls[w] || (Meets(cls, v, s) && Meets(cls, w, s)))
  }

  lemma FusedOne(cls: Classes, x: Value)
    requires x in cls
    ensures Fused(cls, cls, {x})
  {
  }

  /** One class more. */
  lemma FusedMore(cls: Classes, cls': Classes, cls'': Classes, s: set<Value>, x: Value, a: Value, b: Value)
    requires Fused(cls, cls', s) && x in s && x in cls && b in cls
    requires a in cls' && x in cls' && cls'[a] == cls'[x] && b in cls' && Joined(cls', cls'', a, b)
    ensures Fused(cls, cls'', s + {b})
  {
    forall v, w | v in cls && w in cls ensures FusedAt(cls, cls'', s + {b}, v, w) {
      assert FusedAt(cls, cls', s, v, w) && FusedAt(cls, cls', s, v, x) && FusedAt(cls, cls', s, w, x);
      assert FusedAt(cls, cls', s, v, b) && FusedAt(cls, cls', s, w, b) && FusedAt(cls, cls', s, b, x);
      assert Meets(cls, x, s);
      MeetsMore(cls, v, s, b);
      MeetsMore(cls, w, s, b);
      assert JoinedAt(cls', cls'', a, b, v, w);
    }
  }

  lemma MeetsMore(cls: Classes, v: Value, s: set<Value>, b: Value)
    requires v in cls && b in cls
    ensures Meets(cls, v, s + {b}) <==> Meets(cls, v, s) || cls[v] == cls[b]
  {
    assert b in s + {b};
    if y :| y in s && y in cls && cls[y] == cls[v] {
      assert y in s + {b};
    }
  }

  // ----- how classes change -----

  /** Classes are only merged, and a pinned class keeps its representative until it is merged with a pinned one. */
  ghost predicate Evolves(p: Partition, p': Partition) {
    && p.broken <= p'.broken
    && (forall v | v in p.cls :: v in p'.cls)
    && (forall v, w | v in p.cls && w in p.cls && p.cls[v] == p.cls[w] :: p'.cls[v] == p'.cls[w])
    && (forall v | v in p.cls && Pinned(p, v) :: Stable(p, p', v))
  }

  ghost predicate Stable(p: Partition, p': Partition, v: Value)
    requires v in p.cls
  {
    v in p'.cls && Pinned(p', v) && (p'.broken == p.broken ==> p'.cls[v] == p.cls[v])
  }

  lemma EvolvesTrans(p: Partition, p': Partition, p'': Partition)
    requires Evolves(p, p') && Evolves(p', p'')
    ensures Evolves(p, p'')
  {
    forall v | v in p.cls && Pinned(p, v) ensures Stable(p, p'', v) {
      assert Stable(p, p', v);
      assert Stable(p', p'', v);
    }
  }

  lemma EvolvesSelf(p: Partition)
    ensures Evolves(p, p)
  {
  }

  lemma UnitedKeys(p: Partition, a: Value, b: Value)
    requires a in p.cls && b in p.cls
    ensures forall v :: v in p.cls <==> v in United(p, a, b).cls
  {
  }

  lemma UnitedEvolves(p: Partition, a: Value, b: Value)
    requires a in p.cls && b in p.cls
    ensures Evolves(p, United(p, a, b))
  {
    forall v, w | v in p.cls && w in p.cls && p.cls[v] == p.cls[w]
      ensures United(p, a, b).cls[v] == United(p, a, b).cls[w]
    {
      UnitedClasses(p, a, b, v, w);
    }
  }

  /** A new value in a class of its own. */
  ghost function Added(p: Partition, v: Value): Partition {
    p.(cls := p.cls[v := v])
  }

  lemma AddedEvolves(p: Partition, v: Value)
    requires v !in p.cls
    ensures Evolves(p, Added(p, v))
  {
  }

  /** The class of `v` keeps its representative from here on. */
  ghost function WithPin(p: Partition, v: Value): Partition
    requires v in p.cls
  {
    p.(rank := p.rank[p.cls[v] := PINNED])
  }

  lemma PinEvolves(p: Partition, v: Value)
    requires v in p.cls
    ensures Evolves(p, WithPin(p, v)) && Pinned(WithPin(p, v), v)
  {
  }

  // ----- the forest -----

  type Parents = map<Value, Value>

  /** Following parents from a value leads, by rising levels, to the representative of its class. */
  ghost predicate ForestOK(parent: Parents, cls: Classes, level: map<Value, nat>, top: nat) {
    && (forall v | v in cls :: v in parent)
    && forall v {:trigger NodeOK(parent, cls, level, top, v)} | v in parent :: NodeOK(parent, cls, level, top, v)
  }

  ghost predicate NodeOK(parent: Parents, cls: Classes, level: map<Value, nat>, top: nat, v: Value)
    requires v in parent
  {
    && v in cls && v in level && level[v] <= top && cls[v] in parent && parent[cls[v]] == cls[v]
    && if parent[v] == v then cls[v] == v else Higher(parent, cls, level, v, parent[v])
  }

  /** `u` is in the same tree as `v`, closer to the root. */
  ghost predicate Higher(parent: Parents, cls: Classes, level: map<Value, nat>, v: Value, u: Value) {
    v in cls && v in level && u in parent && u in cls && u in level && cls[u] == cls[v] && level[v] < level[u]
  }

  class UnionFind {
    var parent: Parents
    var rank: Ranks
    var pinnedUnionCount: nat
    /** The representative of each value, and the heights that show that the forest has no cycles. */
    ghost var cls: Classes
    ghost var level: map<Value, nat>
    ghost var top: nat

    ghost predicate Valid()
      reads this
    {
      ForestOK(parent, cls, level, top)
    }

    ghost function View(): Partition
      reads this
    {
      Partition(cls, rank, pinnedUnionCount)
    }

    constructor ()
      ensures Valid() && View() == Partition(map[], map[], 0)
    {
      parent, rank, pinnedUnionCount, cls, level, top := map[], map[], 0, map[], map[], 0;
    }

    /** Put a value in a class of its own. */
    method Add(v: Value)
      requires Valid() && v !in cls
      modifies this
      ensures Valid() && View() == Added(old(View()), v)
    {
      parent, cls, level := parent[v := v], cls[v := v], level[v := 0];
      forall u | u in parent ensures NodeOK(parent, cls, level, top, u) {
        assert u != v ==> NodeOK(old(parent), old(cls), old(level), top, u);
      }
    }

    /** The representative of the class of `v`. */
    method Find(v: Value) returns (r: Value)
      requires Valid() && v in cls
      ensures r == cls[v] && r in cls && cls[r] == r
    {
      r := v;
      while r != parent[r]
        invariant r in parent && r in cls && cls[r] == cls[v]
        decreases if r in level then top - level[r] else 0
      {
        assert NodeOK(parent, cls, level, top, r);
        assert NodeOK(parent, cls, level, top, parent[r]);
        r := parent[r];
      }
      assert NodeOK(parent, cls, level, top, r);
    }

    /** The same, with shorter ways to the root for later. */
    method FindAndUpdate(v: Value) returns (r: Value)
      requires Valid() && v in cls
      modifies this`parent
      ensures Valid() && r == cls[v] && r in cls && cls[r] == r
    {
      hide ForestOK;
      r := v;
      InForest(parent, cls, level, top, v);
      while r != parent[r]
        invariant Valid() && r in parent && r in cls && cls[r] == cls[v]
        decreases if r in level then top - level[r] else 0
      {
        Halve(parent, cls, level, top, r);
        var next := parent[parent[r]];
        parent := parent[r := next];
        InForest(parent, cls, level, top, next);
        r := next;
      }
      InForest(parent, cls, level, top, r);
    }

    /** Ask the class of `v` to keep its representative. */
    method PinIndex(v: Value) returns (r: Value)
      requires Valid() && v in cls
      modifies this`parent, this`rank
      ensures Valid() && r == cls[v] && View() == WithPin(old(View()), v)
    {
      hide ForestOK;
      r := FindAndUpdate(v);
      rank := rank[r := PINNED];
    }

    /** Merge the classes of two values. */
    method Union(a: Value, b: Value)
      requires Valid() && a in cls && b in cls
      modifies this
      ensures Valid() && View() == United(old(View()), a, b)
    {
      hide ForestOK, Merge;
      var x := FindAndUpdate(a);
      var y := FindAndUpdate(b);
      if x == y {
        return;
      }
      if RankOf(rank, x) < RankOf(rank, y) {
        x, y := y, x;
      } else if RankOf(rank, x) == RankOf(rank, y) {
        if RankOf(rank, x) < PINNED {
          rank := rank[x := RankOf(rank, x) + 1];
        } else {
          pinnedUnionCount := pinnedUnionCount + 1;
          rank := rank[x := PINNED];
        }
      }
      Hang(parent, cls, level, top, a, b, x, y);
      parent, cls, level, top := parent[y := x], Merge(cls, a, b, x), level[x := top + 1], top + 1;
    }
  }

  lemma InForest(parent: Parents, cls: Classes, level: map<Value, nat>, top: nat, v: Value)
    requires ForestOK(parent, cls, level, top) && v in cls
    ensures v in parent && v in level && level[v] <= top && (parent[v] == v ==> cls[v] == v)
  {
    assert v in parent;
    assert NodeOK(parent, cls, level, top, v);
  }

  /** A value may skip its parent. */
  lemma Halve(parent: Parents, cls: Classes, level: map<Value, nat>, top: nat, v: Value)
    requires ForestOK(parent, cls, level, top) && v in parent && parent[v] != v
    ensures parent[v] in parent && Higher(parent, cls, level, v, parent[parent[v]])
    ensures ForestOK(parent[v := parent[parent[v]]], cls, level, top)
  {
    assert NodeOK(parent, cls, level, top, v);
    assert NodeOK(parent, cls, level, top, parent[v]);
    var next := parent[parent[v]];
    assert Higher(parent, cls, level, v, next);
    var parent' := parent[v := next];
    forall u | u in parent' ensures NodeOK(parent', cls, level, top, u) {
      assert u in parent;
      assert NodeOK(parent, cls, level, top, u);
    }
  }

  /** One root below another. */
  lemma Hang(parent: Parents, cls: Classes, level: map<Value, nat>, top: nat, a: Value, b: Value, x: Value, y: Value)
    requires ForestOK(parent, cls, level, top) && a in cls && b in cls
    requires x != y && {x, y} == {cls[a], cls[b]}
    ensures y in parent && ForestOK(parent[y := x], Merge(cls, a, b, x), level[x := top + 1], top + 1)
  {
    assert a in parent && b in parent;
    assert NodeOK(parent, cls, level, top, a) && NodeOK(parent, cls, level, top, b);
    var parent', cls', level' := parent[y := x], Merge(cls, a, b, x), level[x := top + 1];
    assert x in {cls[a], cls[b]} && y in {cls[a], cls[b]} && cls[a] in {x, y} && cls[b] in {x, y};
    assert NodeOK(parent, cls, level, top, x) && NodeOK(parent, cls, level, top, y);
    forall u | u in parent' ensures NodeOK(parent', cls', level', top + 1, u) {
      assert u in parent;
      assert NodeOK(parent, cls, level, top, u);
    }
  }
}
