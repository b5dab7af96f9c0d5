/** The arrays of a node: the two loops that move elements within a slice, and what insertion and removal do with them.
*/
module BforestSlice {
  import opened Options
  import opened BforestNode

  /** Insert `x` at position `i` of the slice `a[lo..hi]`, pushing out its last element. */
  method SliceInsertInPlace<T>(a: array<T>, lo: nat, hi: nat, i: nat, x: T)
    requires lo <= hi <= a.Length && i < hi - lo
    modifies a
    ensures a[..] == old(a[..])[..lo] + SliceInsert(old(a[..])[lo..hi], i, x) + old(a[..])[hi..]
  {
    hide SliceInsert;
    var j := hi - 1;
    while j > lo + i
      invariant lo + i <= j < hi
      invariant forall k | 0 <= k < a.Length && (k <= j || k >= hi) :: a[k] == old(a[k])
      invariant forall k | j < k < hi :: a[k] == old(a[k - 1])
    {
      a[j] := a[j - 1];
      j := j - 1;
    }
    a[lo + i] := x;
    Inserted(old(a[..]), a[..], lo, hi, i, x);
  }

  lemma Inserted<T>(s: seq<T>, r: seq<T>, lo: nat, hi: nat, i: nat, x: T)
    requires lo <= hi <= |s| == |r| && i < hi - lo && r[lo + i] == x
    requires forall k | 0 <= k < |s| && (k < lo + i || k >= hi) :: r[k] == s[k]
    requires forall k | lo + i < k < hi :: r[k] == s[k - 1]
    ensures r == s[..lo] + SliceInsert(s[lo..hi], i, x) + s[hi..]
  {
    var t := SliceInsert(s[lo..hi], i, x);
    forall k | lo <= k < hi ensures t[k - lo] == r[k] {}
  }

  /** Shift the elements of the slice `a[lo..hi]` to the left by `n` positions. */
  method SliceShiftInPlace<T>(a: array<T>, lo: nat, hi: nat, n: nat)
    requires lo <= hi <= a.Length && n <= hi - lo
    modifies a
    ensures a[..] == old(a[..])[..lo] + SliceShift(old(a[..])[lo..hi], n) + old(a[..])[hi..]
  {
    hide SliceShift;
    var j := lo;
    while j < hi - n
      invariant lo <= j <= hi - n
      invariant forall k | 0 <= k < lo || j <= k < a.Length :: a[k] == old(a[k])
      invariant forall k | lo <= k < j :: a[k] == old(a[k + n])
    {
      a[j] := a[j + n];
      j := j + 1;
    }
    Moved(old(a[..]), a[..], lo, hi, n);
  }

  lemma Moved<T>(s: seq<T>, r: seq<T>, lo: nat, hi: nat, n: nat)
    requires lo <= hi <= |s| == |r| && n <= hi - lo
    requires forall k | 0 <= k < lo || hi - n <= k < |s| :: r[k] == s[k]
    requires forall k | lo <= k < hi - n :: r[k] == s[k + n]
    ensures r == s[..lo] + SliceShift(s[lo..hi], n) + s[hi..]
  {
    var t := SliceShift(s[lo..hi], n);
    forall k | lo <= k < hi ensures t[k - lo] == r[k] {}
  }

  /** In a slice with one unused element at the end, inserting keeps all used elements. */
  lemma InsertUsed<T>(s: seq<T>, unused: T, i: nat, x: T)
    requires i <= |s|
    ensures SliceInsert(s + [unused], i, x) == InsertAt(s, i, x)
  {
  }

  /** Shifting the slice that starts at `i` by one removes element `i`, as far as the used elements go. */
  lemma ShiftUsed<T>(s: seq<T>, i: nat)
    requires i < |s|
    ensures (s[..i] + SliceShift(s[i..], 1))[..|s| - 1] == RemoveAt(s, i)
  {
    assert s[i..][1..] == s[i + 1..];
  }

  // ----- nodes in place -----

  /** Insert into the first `size` entries of a leaf, if there is room. */
  method LeafInsertInPlace(keys: array<Key>, vals: array<Value>, size: nat, index: nat, key: Key, value: Value)
      returns (size': nat)
    requires keys.Length == vals.Length && index <= size <= keys.Length
    modifies keys, vals
    ensures size <= size' <= keys.Length
    ensures TryLeafInsert(old(Leaf(keys[..size], vals[..size])), keys.Length, index, key, value) ==
            if size' > size then Some(Leaf(keys[..size'], vals[..size'])) else None
    ensures size' == size ==> keys[..] == old(keys[..]) && vals[..] == old(vals[..])
  {
    hide Expand, SliceInsert, InsertAt;
    size' := size;
    if size < keys.Length {
      size' := size + 1;
      SliceInsertInPlace(keys, 0, size + 1, index, key);
      SliceInsertInPlace(vals, 0, size + 1, index, value);
      UsedInsert(old(keys[..]), keys[..], 0, size, index, key);
      UsedInsert(old(vals[..]), vals[..], 0, size, index, value);
    }
  }

  /** Insert a key and a sub-tree into an inner node with `size` keys, if there is room. */
  method InnerInsertInPlace(keys: array<Key>, tree: array<Node>, size: nat, index: nat, key: Key, node: Node)
      returns (size': nat)
    requires keys.Length == INNER_SIZE - 1 && tree.Length == INNER_SIZE && index <= size <= keys.Length
    modifies keys, tree
    ensures size <= size' <= keys.Length
    ensures TryInnerInsert(old(Inner(keys[..size], tree[..size + 1])), index, key, node) ==
            if size' > size then Some(Inner(keys[..size'], tree[..size' + 1])) else None
    ensures size' == size ==> keys[..] == old(keys[..]) && tree[..] == old(tree[..])
  {
    hide Expand, SliceInsert, InsertAt;
    size' := size;
    if size < keys.Length {
      size' := size + 1;
      SliceInsertInPlace(keys, 0, size + 1, index, key);
      SliceInsertInPlace(tree, 1, size + 2, index, node);
      UsedInsert(old(keys[..]), keys[..], 0, size, index, key);
      UsedInsert(old(tree[..]), tree[..], 1, size + 1, index, node);
    }
  }

  /** Remove an entry of a leaf. */
  method LeafRemoveInPlace(keys: array<Key>, vals: array<Value>, size: nat, index: nat) returns (size': nat)
    requires keys.Length == vals.Length && index < size <= keys.Length
    modifies keys, vals
    ensures size' == size - 1 && LeafRemove(old(Leaf(keys[..size], vals[..size])), keys.Length, index) ==
            Leaf(keys[..size'], vals[..size'])
  {
    hide Expand, SliceShift, RemoveAt;
    size' := size - 1;
    SliceShiftInPlace(keys, index, size, 1);
    SliceShiftInPlace(vals, index, size, 1);
    UsedShift(old(keys[..]), keys[..], size, index);
    UsedShift(old(vals[..]), vals[..], size, index);
  }

  /** Remove one of the `ents` sub-trees of an inner node, and the key to its left, or to its right if it is the first.
  */
  method InnerRemoveInPlace(keys: array<Key>, tree: array<Node>, ents: nat, index: nat) returns (ents': nat)
    requires keys.Length == INNER_SIZE - 1 && tree.Length == INNER_SIZE && index < ents <= tree.Length
    modifies keys, tree
    ensures ents' == ents - 1
    ensures InnerRemove(old(Inner(keys[..ents - 1], tree[..ents])), index) ==
            Inner(keys[..if ents' > 0 then ents' - 1 else 0], tree[..ents'])
  {
    hide Expand, SliceShift, RemoveAt;
    ents' := ents - 1;
    if ents > 1 {
      var at := if index == 0 then 0 else index - 1;
      SliceShiftInPlace(keys, at, ents - 1, 1);
      UsedShift(old(keys[..]), keys[..], ents - 1, at);
    }
    SliceShiftInPlace(tree, index, ents, 1);
    UsedShift(old(tree[..]), tree[..], ents, index);
  }

  /** Inserting into the slice from `lo` to just past the used part is inserting into the used part. */
  lemma UsedInsert<T>(s: seq<T>, r: seq<T>, lo: nat, used: nat, i: nat, x: T)
    requires lo <= used < |s| && i <= used - lo && r == s[..lo] + SliceInsert(s[lo..used + 1], i, x) + s[used + 1..]
    ensures r[..used + 1] == InsertAt(s[..used], lo + i, x)
  {
    InsertUsed(s[lo..used], s[used], i, x);
    assert s[lo..used + 1] == s[lo..used] + [s[used]];
    assert s[lo..used][..i] == s[lo..lo + i] && s[lo..used][i..] == s[lo + i..used];
  }

  lemma UsedShift<T>(s: seq<T>, r: seq<T>, used: nat, i: nat)
    requires i < used <= |s| && r == s[..i] + SliceShift(s[i..used], 1) + s[used..]
    ensures r[..used - 1] == RemoveAt(s[..used], i)
  {
    ShiftUsed(s[..used], i);
    assert s[..used][i..] == s[i..used] && s[..used][..i] == s[..i];
  }
}
