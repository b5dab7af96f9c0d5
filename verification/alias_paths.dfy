/** What lies between the last visit of a dominator and the point it dominates. */
module AliasPaths {
  import opened DomtreePaths
  import opened AliasFunc

  lemma {:induction false} PathCut(cfg: Cfg, s: seq<Point>, p: Point, i: nat)
    requires Path(cfg, s, p) && i < |s|
    ensures Path(cfg, s[..i + 1], s[i])
    decreases |s|
  {
    if i == |s| - 1 {
      assert s[..i + 1] == s;
    } else {
      var t := s[..|s| - 1];
      PathCut(cfg, t, s[|s| - 2], i);
      assert t[..i + 1] == s[..i + 1];
    }
  }

  /** A path that visits a point twice can skip the part between. */
  lemma {:induction false} PathSplice(cfg: Cfg, s: seq<Point>, p: Point, i: nat, m: nat)
    requires Path(cfg, s, p) && i <= m < |s| && s[i] == s[m]
    ensures Path(cfg, s[..i + 1] + s[m + 1..], p)
    decreases |s|
  {
    if m == |s| - 1 {
      PathCut(cfg, s, p, i);
      assert s[..i + 1] + s[m + 1..] == s[..i + 1];
    } else {
      var t, q := s[..|s| - 1], s[|s| - 2];
      PathSplice(cfg, t, q, i, m);
      var u := t[..i + 1] + t[m + 1..];
      PathStep(cfg, u, q, p);
      assert u + [p] == s[..i + 1] + s[m + 1..];
    }
  }

  /** Index `j` is the last visit of `d` before the end of the path. */
  ghost predicate LastVisit(s: seq<Point>, d: Point, j: nat) {
    j < |s| - 1 && s[j] == d && forall m | j < m < |s| - 1 :: s[m] != d
  }

  lemma {:induction false} FindLast(s: seq<Point>, d: Point, n: nat) returns (j: nat)
    requires n < |s| && exists i | 0 <= i < n :: s[i] == d
    ensures j < n && s[j] == d && forall m | j < m < n :: s[m] != d
    decreases n
  {
    j := n - 1;
    if s[j] != d {
      j := FindLast(s, d, n - 1);
    }
  }

  lemma DomVisited(cfg: Cfg, s: seq<Point>, d: Point, p: Point) returns (j: nat)
    requires Path(cfg, s, p) && Dom(cfg, d, p) && d != p
    ensures LastVisit(s, d, j)
  {
    assert d in s;
    j := FindLast(s, d, |s| - 1);
  }

  /** What strictly dominates a point has been visited before its first visit. */
  lemma {:induction false} FirstBefore(cfg: Cfg, s: seq<Point>, e: Point, d: Point, j: nat) returns (i: nat)
    requires Dom(cfg, e, d) && e != d && j < |s| && s[j] == d && Path(cfg, s[..j + 1], d)
    ensures i < j && s[i] == e && d !in s[..i + 1]
    decreases j
  {
    var t := s[..j + 1];
    assert e in t;
    i :| 0 <= i < |t| && t[i] == e;
    if d in s[..i + 1] {
      var j' :| 0 <= j' <= i && s[j'] == d;
      PathCut(cfg, t, d, j');
      assert t[..j' + 1] == s[..j' + 1];
      i := FirstBefore(cfg, s, e, d, j');
    }
  }

  /** If `e` strictly dominates `d`, and `d` strictly dominates the end of the path, then `e` is not
  visited again after the last visit of `d`. */
  lemma NotBetween(cfg: Cfg, s: seq<Point>, e: Point, d: Point, p: Point, j: nat, m: nat)
    requires Path(cfg, s, p) && Dom(cfg, d, p) && d != p && Dom(cfg, e, d) && e != d
    requires LastVisit(s, d, j) && j < m < |s| - 1
    ensures s[m] != e
  {
    if s[m] == e {
      PathCut(cfg, s, p, j);
      var i := FirstBefore(cfg, s, e, d, j);
      var rest := s[m + 1..];
      assert forall k | 0 <= k < |rest| :: rest[k] == s[m + 1 + k] != d;
      PathSplice(cfg, s, p, i, m);
    }
  }

  /** Two points cannot strictly dominate each other when there is a path to one of them. */
  lemma NotMutual(cfg: Cfg, s: seq<Point>, e: Point, d: Point)
    requires Path(cfg, s, d) && Dom(cfg, d, e) && Dom(cfg, e, d)
    ensures e == d
  {
    if e != d {
      assert s[..|s|] == s;
      var i := FirstBefore(cfg, s, e, d, |s| - 1);
      PathCut(cfg, s, d, i);
    }
  }

  lemma DomTrans(cfg: Cfg, x: Point, y: Point, z: Point)
    requires Dom(cfg, x, y) && Dom(cfg, y, z)
    ensures Dom(cfg, x, z)
  {
    forall s | Path(cfg, s, z) ensures x in s {
      assert y in s;
      var i :| 0 <= i < |s| && s[i] == y;
      PathCut(cfg, s, z, i);
      assert x in s[..i + 1];
    }
  }

  lemma BeforeTrans(f: Func, x: Point, y: Point, z: Point)
    requires Before(f, x, y) && Before(f, y, z) && CfgOK(f.cfg)
    ensures Before(f, x, z)
  {
    if Reachable(f.cfg, z.block) {
      var s0 :| Path(f.cfg, s0, Point(z.block, 0));
      var s := Through(f.cfg, s0, z.block, z.at);
      var j := DomVisited(f.cfg, s, y, z);
      PathCut(f.cfg, s, z, j);
      PathReachable(f.cfg, s[..j + 1], y);
      DomTrans(f.cfg, x, y, z);
      if x == z {
        NotMutual(f.cfg, s, y, z);
      }
    }
  }

  lemma AvailLater(f: Func, v: Value, p: Point, q: Point)
    requires Avail(f, v, p) && Before(f, p, q) && CfgOK(f.cfg)
    ensures Avail(f, v, q)
  {
    var d :| DefAt(f, v, d) && Before(f, d, p);
    BeforeTrans(f, d, p, q);
  }
}
