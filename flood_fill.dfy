/** The recursive in-place flood fill of the character-map game, which
    `decorateMap` uses to mark the floor inside the walls: starting from a
    cell, every cell holding the old character that can be reached through
    old-character cells by orthogonal steps is overwritten with the new
    character.  `starpusher.py` and `starpusher_specify_map_ai_verify.py`
    hold the same function. */
module FloodFill {
  import opened Grid

  type CharGrid = seq<seq<char>>

  /** `q` is one orthogonal step away from `p`. */
  predicate Adjacent(p: Pos, q: Pos)
  {
    q == (p.0 + 1, p.1) || q == (p.0 - 1, p.1) || q == (p.0, p.1 + 1) || q == (p.0, p.1 - 1)
  }

  /** The cell `q` is off the grid or does not hold `c`. */
  predicate NotC(g: CharGrid, c: char, q: Pos)
  {
    !Inside(g, q) || At(g, q) != c
  }

  /** None of the four neighbours of `p` holds `c`. */
  predicate Sealed(g: CharGrid, c: char, p: Pos)
  {
    NotC(g, c, (p.0 + 1, p.1)) && NotC(g, c, (p.0 - 1, p.1))
    && NotC(g, c, (p.0, p.1 + 1)) && NotC(g, c, (p.0, p.1 - 1))
  }

  /** A walk of orthogonal steps in which every cell after the first holds `c`. */
  ghost predicate IsPath(g: CharGrid, c: char, path: seq<Pos>)
  {
    |path| >= 1
    && (forall k :: 1 <= k < |path| ==> Adjacent(path[k - 1], path[k]))
    && (forall k :: 1 <= k < |path| ==> Inside(g, path[k]) && At(g, path[k]) == c)
  }

  /** `t` can be reached from `s` through cells holding `c`. */
  ghost predicate Reaches(g: CharGrid, c: char, s: Pos, t: Pos)
  {
    exists path :: IsPath(g, c, path) && path[0] == s && path[|path| - 1] == t
  }

  /** The grid a flood fill from `s` leaves behind: each cell holding `c`
      that is reachable from `s` through `c` cells now holds `nw`, and
      every other cell is as it was. */
  ghost function Filled(g: CharGrid, c: char, nw: char, s: Pos): (r: CharGrid)
    ensures |r| == |g| && forall i :: 0 <= i < |g| ==> |r[i]| == |g[i]|
  {
    seq(|g|, i requires 0 <= i < |g| =>
      seq(|g[i]|, j requires 0 <= j < |g[i]| =>
        if g[i][j] == c && Reaches(g, c, s, (i, j)) then nw else g[i][j]))
  }

  // ---------------------------------------------------------------------------
  // Properties of the fill

  /** A fill changes only cells holding `c`, each to `nw`, and leaves the
      start cell and its four neighbours free of `c`. */
  lemma FilledChanges(g: CharGrid, c: char, nw: char, s: Pos)
    requires c != nw && Inside(g, s)
    ensures var r := Filled(g, c, nw, s);
      (forall i, j :: 0 <= i < |g| && 0 <= j < |g[i]| ==> r[i][j] == g[i][j] || (g[i][j] == c && r[i][j] == nw))
      && NotC(r, c, s) && Sealed(r, c, s)
  {
    var r := Filled(g, c, nw, s);
    assert IsPath(g, c, [s]);
    SealedAround(g, c, nw, s, s, [s]);
  }

  /** Filling a second time from the same cell changes nothing. */
  lemma FilledIdempotent(g: CharGrid, c: char, nw: char, s: Pos)
    requires c != nw && Inside(g, s)
    ensures Filled(Filled(g, c, nw, s), c, nw, s) == Filled(g, c, nw, s)
  {
    var r := Filled(g, c, nw, s);
    var r2 := Filled(r, c, nw, s);
    forall i | 0 <= i < |g| ensures r2[i] == r[i] {
      forall j | 0 <= j < |g[i]| ensures r2[i][j] == r[i][j] {
        FilledAt(r, c, nw, s, i, j);
        NothingLeft(g, c, nw, s, (i, j));
      }
    }
  }

  /** After a fill, no `c` cell is reachable from the start any more. */
  lemma NothingLeft(g: CharGrid, c: char, nw: char, s: Pos, t: Pos)
    requires c != nw && Inside(g, s) && Inside(g, t)
    ensures var r := Filled(g, c, nw, s); At(r, t) == c ==> !Reaches(r, c, s, t)
  {
    var r := Filled(g, c, nw, s);
    if At(r, t) == c && Reaches(r, c, s, t) {
      var path :| IsPath(r, c, path) && path[0] == s && path[|path| - 1] == t;
      var q := if |path| == 1 then s else path[1];
      FilledAt(g, c, nw, s, q.0, q.1);
      if |path| > 1 {
        PathPair(g, c, s, q);
      }
    }
  }

  /** One cell of the filled grid. */
  lemma FilledAt(g: CharGrid, c: char, nw: char, s: Pos, i: int, j: int)
    requires 0 <= i < |g| && 0 <= j < |g[i]|
    ensures Filled(g, c, nw, s)[i][j] == if g[i][j] == c && Reaches(g, c, s, (i, j)) then nw else g[i][j]
  {
  }

  /** A single step onto a `c` cell is a path. */
  lemma PathPair(g: CharGrid, c: char, s: Pos, q: Pos)
    requires Adjacent(s, q) && Inside(g, q) && At(g, q) == c
    ensures IsPath(g, c, [s, q]) && Reaches(g, c, s, q)
  {
    assert IsPath(g, c, [s, q]);
  }

  /** A path extended by one step onto a `c` cell is a path. */
  lemma PathSnoc(g: CharGrid, c: char, path: seq<Pos>, q: Pos)
    requires IsPath(g, c, path) && Adjacent(path[|path| - 1], q) && Inside(g, q) && At(g, q) == c
    ensures IsPath(g, c, path + [q])
  {
    var p := path + [q];
    forall k | 1 <= k < |p| ensures Adjacent(p[k - 1], p[k]) && Inside(g, p[k]) && At(g, p[k]) == c {
      if k < |path| {
        assert p[k - 1] == path[k - 1] && p[k] == path[k];
      }
    }
  }

  // ---------------------------------------------------------------------------
  // The invariant of the recursion

  /** Every cell is unchanged or went from `c` to `nw`. */
  predicate Mono(g0: CharGrid, g: CharGrid, c: char, nw: char)
  {
    |g| == |g0|
    && (forall i :: 0 <= i < |g0| ==> |g[i]| == |g0[i]|)
    && forall i, j :: 0 <= i < |g0| && 0 <= j < |g0[i]| ==> g[i][j] == g0[i][j] || (g0[i][j] == c && g[i][j] == nw)
  }

  /** What a call started from `s` on grid `g0` has achieved so far in `g`:
      only reachable `c` cells became `nw`, every changed cell other than
      `s` has no `c` neighbour, and `s` holds no `c`. */
  ghost predicate Inv(g0: CharGrid, g: CharGrid, c: char, nw: char, s: Pos)
  {
    Mono(g0, g, c, nw)
    && (forall i, j :: 0 <= i < |g0| && 0 <= j < |g0[i]| && g[i][j] != g0[i][j] ==> Reaches(g0, c, s, (i, j)))
    && (forall i, j :: 0 <= i < |g0| && 0 <= j < |g0[i]| && g[i][j] != g0[i][j] && (i, j) != s ==> Sealed(g, c, (i, j)))
    && NotC(g, c, s)
  }

  /** Every neighbour of a cell reachable from `s` that holds `c` is filled. */
  lemma SealedAround(g: CharGrid, c: char, nw: char, s: Pos, t: Pos, path: seq<Pos>)
    requires c != nw && IsPath(g, c, path) && path[0] == s && path[|path| - 1] == t && Inside(g, t)
    ensures Sealed(Filled(g, c, nw, s), c, t)
  {
    NeighbourFilled(g, c, nw, s, path, (t.0 + 1, t.1));
    NeighbourFilled(g, c, nw, s, path, (t.0 - 1, t.1));
    NeighbourFilled(g, c, nw, s, path, (t.0, t.1 + 1));
    NeighbourFilled(g, c, nw, s, path, (t.0, t.1 - 1));
  }

  /** A neighbour of the end of a path from `s` holds no `c` after the fill. */
  lemma NeighbourFilled(g: CharGrid, c: char, nw: char, s: Pos, path: seq<Pos>, q: Pos)
    requires c != nw && IsPath(g, c, path) && path[0] == s && Adjacent(path[|path| - 1], q)
    ensures NotC(Filled(g, c, nw, s), c, q)
  {
    if Inside(g, q) {
      FilledAt(g, c, nw, s, q.0, q.1);
      if g[q.0][q.1] == c {
        PathSnoc(g, c, path, q);
        assert (path + [q])[|path + [q]| - 1] == q;
      }
    }
  }

  /** A grid that has reached the invariant and whose start cell is sealed
      is exactly the filled grid. */
  lemma InvSealedIsFilled(g0: CharGrid, g: CharGrid, c: char, nw: char, s: Pos)
    requires c != nw && Inside(g0, s) && Inv(g0, g, c, nw, s) && Sealed(g, c, s)
    ensures g == Filled(g0, c, nw, s)
  {
    var r := Filled(g0, c, nw, s);
    forall i | 0 <= i < |g0| ensures g[i] == r[i] {
      forall j | 0 <= j < |g0[i]| ensures g[i][j] == r[i][j] {
        if g0[i][j] == c && Reaches(g0, c, s, (i, j)) {
          var path :| IsPath(g0, c, path) && path[0] == s && path[|path| - 1] == (i, j);
          PathFilled(g0, g, c, nw, s, path);
        }
      }
    }
  }

  /** Along a path from `s`, every cell after the first is filled. */
  lemma {:induction false} PathFilled(g0: CharGrid, g: CharGrid, c: char, nw: char, s: Pos, path: seq<Pos>)
    requires c != nw && Inside(g0, s) && Inv(g0, g, c, nw, s) && Sealed(g, c, s)
    requires IsPath(g0, c, path) && path[0] == s
    ensures var t := path[|path| - 1]; Inside(g0, t) && (t == s || g[t.0][t.1] == nw)
    ensures var t := path[|path| - 1]; g0[t.0][t.1] == c ==> g[t.0][t.1] == nw
  {
    var t := path[|path| - 1];
    if |path| == 1 {
      assert t == s;
    } else {
      var prev := path[..|path| - 1];
      assert IsPath(g0, c, prev);
      PathFilled(g0, g, c, nw, s, prev);
      var p := prev[|prev| - 1];
      assert Adjacent(p, t) && p == path[|path| - 2];
      assert Sealed(g, c, p);
    }
  }

  /** A path from a neighbour `n` of `s` in a grid whose `c` cells were
      already `c` in `g0` extends to a path from `s` in `g0`. */
  lemma ReachesThrough(g0: CharGrid, g1: CharGrid, c: char, nw: char, s: Pos, n: Pos, t: Pos)
    requires Mono(g0, g1, c, nw) && c != nw && Adjacent(s, n)
    requires Reaches(g1, c, n, t) && Inside(g1, n) && g1[n.0][n.1] == c
    ensures Reaches(g0, c, s, t)
  {
    var path :| IsPath(g1, c, path) && path[0] == n && path[|path| - 1] == t;
    var p := [s] + path;
    forall k | 1 <= k < |p| ensures Inside(g0, p[k]) && At(g0, p[k]) == c {
      assert p[k] == path[k - 1];
    }
    assert IsPath(g0, c, p);
  }

  /** What the guarded call on neighbour `n` adds to the caller's invariant. */
  lemma Compose(g0: CharGrid, g1: CharGrid, g2: CharGrid, c: char, nw: char, s: Pos, n: Pos)
    requires c != nw && Inside(g0, s) && Adjacent(s, n)
    requires Inv(g0, g1, c, nw, s) && Inside(g1, n) && g1[n.0][n.1] == c
    requires g2 == Filled(g1, c, nw, n)
    ensures Inv(g0, g2, c, nw, s) && NotC(g2, c, n) && Mono(g1, g2, c, nw)
  {
    FilledChanges(g1, c, nw, n);
    forall i, j | 0 <= i < |g0| && 0 <= j < |g0[i]| && g2[i][j] != g0[i][j]
      ensures Reaches(g0, c, s, (i, j))
      ensures (i, j) != s ==> Sealed(g2, c, (i, j))
    {
      ComposeCell(g0, g1, g2, c, nw, s, n, i, j);
    }
  }

  /** `Compose` for one changed cell. */
  lemma ComposeCell(g0: CharGrid, g1: CharGrid, g2: CharGrid, c: char, nw: char, s: Pos, n: Pos, i: int, j: int)
    requires c != nw && Inside(g0, s) && Adjacent(s, n)
    requires Inv(g0, g1, c, nw, s) && Inside(g1, n) && g1[n.0][n.1] == c
    requires g2 == Filled(g1, c, nw, n) && Mono(g1, g2, c, nw)
    requires 0 <= i < |g0| && 0 <= j < |g0[i]| && g2[i][j] != g0[i][j]
    ensures Reaches(g0, c, s, (i, j))
    ensures (i, j) != s ==> Sealed(g2, c, (i, j))
  {
    FilledAt(g1, c, nw, n, i, j);
    if g2[i][j] != g1[i][j] {
      assert Reaches(g1, c, n, (i, j));
      ReachesThrough(g0, g1, c, nw, s, n, (i, j));
      var path :| IsPath(g1, c, path) && path[0] == n && path[|path| - 1] == (i, j);
      SealedAround(g1, c, nw, n, (i, j), path);
    } else if (i, j) != s {
      SealedKept(g1, g2, c, nw, (i, j));
    }
  }

  lemma SealedKept(g1: CharGrid, g2: CharGrid, c: char, nw: char, t: Pos)
    requires c != nw && Mono(g1, g2, c, nw) && Sealed(g1, c, t)
    ensures Sealed(g2, c, t)
  {
  }

  /** The count of `c` cells does not grow while the invariant holds, and
      drops once the start cell has been overwritten. */
  lemma InvCount(g0: CharGrid, g: CharGrid, c: char, nw: char, s: Pos)
    requires c != nw && Inside(g0, s) && Mono(g0, g, c, nw) && NotC(g, c, s)
    ensures Count(g, c) <= Count(g0, c)
    ensures At(g0, s) == c ==> Count(g, c) < Count(g0, c)
  {
    CountMono(g0, g, c, nw, s);
  }

  lemma {:induction false} CountRowMono(r0: seq<char>, r: seq<char>, c: char, nw: char, j0: int)
    requires c != nw && |r| == |r0|
    requires forall j :: 0 <= j < |r0| ==> r[j] == r0[j] || (r0[j] == c && r[j] == nw)
    ensures CountRow(r, c) <= CountRow(r0, c)
    ensures 0 <= j0 < |r0| && r0[j0] == c && r[j0] != c ==> CountRow(r, c) < CountRow(r0, c)
  {
    if r0 != [] {
      CountRowMono(r0[1..], r[1..], c, nw, j0 - 1);
    }
  }

  lemma {:induction false} CountMono(g0: CharGrid, g: CharGrid, c: char, nw: char, p: Pos)
    requires c != nw && Mono(g0, g, c, nw)
    ensures Count(g, c) <= Count(g0, c)
    ensures Inside(g0, p) && At(g0, p) == c && At(g, p) != c ==> Count(g, c) < Count(g0, c)
  {
    if g0 != [] {
      CountRowMono(g0[0], g[0], c, nw, p.1);
      assert Mono(g0[1..], g[1..], c, nw) by {
        forall i, j | 0 <= i < |g0[1..]| && 0 <= j < |g0[1..][i]|
          ensures g[1..][i][j] == g0[1..][i][j] || (g0[1..][i][j] == c && g[1..][i][j] == nw)
        {
          assert g0[1..][i] == g0[i + 1] && g[1..][i] == g[i + 1];
        }
      }
      CountMono(g0[1..], g[1..], c, nw, (p.0 - 1, p.1));
    }
  }

  // ---------------------------------------------------------------------------
  // The recursive fill

  /** One in-place fill step: the start cell is overwritten if it holds
      `c`, and each of its four neighbours (below, above, right, left) that
      still holds `c` is filled in turn. */
  method Fill(a: array2<char>, x: int, y: int, c: char, nw: char)
    requires 0 <= x < a.Length0 && 0 <= y < a.Length1 && c != nw
    modifies a
    decreases Count(Snapshot(a), c), if a[x, y] == c then 0 else 1, 1
    ensures Snapshot(a) == Filled(old(Snapshot(a)), c, nw, (x, y))
  {
    ghost var g0 := Snapshot(a);
    var s := (x, y);
    Claim(a, x, y, c, nw);
    FirstStep(g0, Snapshot(a), c, nw, s);
    InvCount(g0, Snapshot(a), c, nw, s);
    Spread(a, s, 0, c, nw, g0);
    InvCount(g0, Snapshot(a), c, nw, s);
    Spread(a, s, 1, c, nw, g0);
    InvCount(g0, Snapshot(a), c, nw, s);
    Spread(a, s, 2, c, nw, g0);
    InvCount(g0, Snapshot(a), c, nw, s);
    Spread(a, s, 3, c, nw, g0);
    SealedAll(Snapshot(a), c, s);
    InvSealedIsFilled(g0, Snapshot(a), c, nw, s);
  }

  /** The neighbours of `p` in the order the fill tries them: below,
      above, right, left. */
  function Neighbour(p: Pos, k: int): (q: Pos)
    ensures Adjacent(p, q)
  {
    if k == 0 then (p.0 + 1, p.1) else if k == 1 then (p.0 - 1, p.1) else if k == 2 then (p.0, p.1 + 1) else (p.0, p.1 - 1)
  }

  /** The first `k` neighbours of `s` hold no `c`. */
  predicate SealedUpTo(g: CharGrid, c: char, s: Pos, k: int)
  {
    forall i :: 0 <= i < k ==> NotC(g, c, Neighbour(s, i))
  }

  lemma SealedAll(g: CharGrid, c: char, s: Pos)
    requires SealedUpTo(g, c, s, 4)
    ensures Sealed(g, c, s)
  {
    assert NotC(g, c, Neighbour(s, 0)) && NotC(g, c, Neighbour(s, 1));
    assert NotC(g, c, Neighbour(s, 2)) && NotC(g, c, Neighbour(s, 3));
  }

  /** A cell free of `c` stays free of it while cells only go from `c` to `nw`. */
  lemma KeepNotC(g1: CharGrid, g2: CharGrid, c: char, nw: char, q: Pos)
    requires c != nw && Mono(g1, g2, c, nw) && NotC(g1, c, q)
    ensures NotC(g2, c, q)
  {
  }

  /** The first statement of the fill: the start cell is overwritten if it
      holds `c`. */
  method Claim(a: array2<char>, x: int, y: int, c: char, nw: char)
    requires 0 <= x < a.Length0 && 0 <= y < a.Length1
    modifies a
    ensures Snapshot(a) == SetCell(old(Snapshot(a)), (x, y), if old(a[x, y]) == c then nw else old(a[x, y]))
  {
    ghost var g0 := Snapshot(a);
    if a[x, y] == c {
      a[x, y] := nw;
    }
    GridExt(Snapshot(a), SetCell(g0, (x, y), a[x, y]), a.Length1);
  }

  /** After the start cell has been written the invariant holds. */
  lemma FirstStep(g0: CharGrid, g: CharGrid, c: char, nw: char, s: Pos)
    requires Inside(g0, s) && c != nw
    requires g == SetCell(g0, s, if g0[s.0][s.1] == c then nw else g0[s.0][s.1])
    ensures Inv(g0, g, c, nw, s)
  {
    assert IsPath(g0, c, [s]);
  }

  /** The guarded recursive call on the k-th neighbour of `s`: when it is
      on the grid and still holds `c` it is filled, otherwise nothing
      happens. */
  method Spread(a: array2<char>, s: Pos, k: int, c: char, nw: char, ghost g0: CharGrid)
    requires c != nw && Inside(g0, s) && 0 <= k < 4
    requires Inv(g0, Snapshot(a), c, nw, s) && SealedUpTo(Snapshot(a), c, s, k)
    modifies a
    decreases Count(Snapshot(a), c), 0, 2
    ensures Inv(g0, Snapshot(a), c, nw, s) && SealedUpTo(Snapshot(a), c, s, k + 1)
  {
    var n := Neighbour(s, k);
    if 0 <= n.0 < a.Length0 && 0 <= n.1 < a.Length1 && a[n.0, n.1] == c {
      ghost var g1 := Snapshot(a);
      Fill(a, n.0, n.1, c, nw);
      ghost var g2 := Snapshot(a);
      Compose(g0, g1, g2, c, nw, s, n);
      forall i | 0 <= i < k ensures NotC(g2, c, Neighbour(s, i)) {
        KeepNotC(g1, g2, c, nw, Neighbour(s, i));
      }
    }
  }

  /** On the two-cell floor "  " a fill from the left cell reaches the
      right one. */
  lemma TwoCellFill()
    ensures Filled(["  "], ' ', 'o', (0, 0)) == ["oo"]
  {
    var g := ["  "];
    assert IsPath(g, ' ', [(0, 0), (0, 1)]);
    assert IsPath(g, ' ', [(0, 0)]);
    var r := Filled(g, ' ', 'o', (0, 0));
    assert r[0][0] == 'o' && r[0][1] == 'o';
    assert r[0] == "oo";
  }
}
