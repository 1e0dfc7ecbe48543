/** Rectangular grids, positions and row-major scans shared by both Sokoban
    representations: the numeric room of the training environment and the
    character map of the playable game.  A position is (row, column), the
    same (x, y) pair the game code uses with x counting rows. */
module Grid {

  type Pos = (int, int)

  function Abs(n: int): (r: nat)
    ensures r == n || r == -n
  {
    if n < 0 then -n else n
  }

  /** Manhattan distance |a.0 - b.0| + |a.1 - b.1|. */
  function Manhattan(a: Pos, b: Pos): nat
  {
    Abs(a.0 - b.0) + Abs(a.1 - b.1)
  }

  function Add(p: Pos, d: Pos): Pos
  {
    (p.0 + d.0, p.1 + d.1)
  }

  predicate InBounds(h: int, w: int, p: Pos)
  {
    0 <= p.0 < h && 0 <= p.1 < w
  }

  /** Every row of `g` has exactly `w` entries. */
  predicate IsRect<T>(g: seq<seq<T>>, w: nat)
  {
    forall i :: 0 <= i < |g| ==> |g[i]| == w
  }

  /** Every row of `g` has at least `w` entries. */
  predicate WideEnough<T>(g: seq<seq<T>>, w: nat)
  {
    forall i :: 0 <= i < |g| ==> |g[i]| >= w
  }

  /** The width of a grid, taken from its first row as the game code does. */
  function Width<T>(g: seq<seq<T>>): nat
  {
    if |g| == 0 then 0 else |g[0]|
  }

  predicate Inside<T>(g: seq<seq<T>>, p: Pos)
  {
    0 <= p.0 < |g| && 0 <= p.1 < |g[p.0]|
  }

  function At<T>(g: seq<seq<T>>, p: Pos): T
    requires Inside(g, p)
  {
    g[p.0][p.1]
  }

  /** The grid with the one cell at `p` replaced by `v`. */
  function SetCell<T>(g: seq<seq<T>>, p: Pos, v: T): (r: seq<seq<T>>)
    requires Inside(g, p)
    ensures |r| == |g|
    ensures forall i :: 0 <= i < |g| ==> |r[i]| == |g[i]|
    ensures r[p.0][p.1] == v
    ensures forall i, j {:trigger r[i][j]} :: 0 <= i < |g| && 0 <= j < |g[i]| && (i, j) != p ==> r[i][j] == g[i][j]
  {
    g[p.0 := g[p.0][p.1 := v]]
  }

  /** The contents of a two-dimensional array as a grid of rows. */
  function Snapshot<T>(a: array2<T>): (s: seq<seq<T>>)
    reads a
    ensures |s| == a.Length0 && IsRect(s, a.Length1)
    ensures forall i, j :: 0 <= i < a.Length0 && 0 <= j < a.Length1 ==> s[i][j] == a[i, j]
  {
    seq(a.Length0, i requires 0 <= i < a.Length0 reads a =>
      seq(a.Length1, j requires 0 <= j < a.Length1 reads a => a[i, j]))
  }

  /** Two rectangular grids of the same shape that agree cell by cell are equal. */
  lemma GridExt<T>(s: seq<seq<T>>, t: seq<seq<T>>, w: nat)
    requires |s| == |t| && IsRect(s, w) && IsRect(t, w)
    requires forall i, j :: 0 <= i < |s| && 0 <= j < w ==> s[i][j] == t[i][j]
    ensures s == t
  {
    forall i | 0 <= i < |s| ensures s[i] == t[i] {
      assert |s[i]| == |t[i]| == w;
    }
  }

  // ---------------------------------------------------------------------------
  // Row-major order and scans

  /** `a` comes strictly before `b` when the grid is read row by row. */
  predicate Before(a: Pos, b: Pos)
  {
    a.0 < b.0 || (a.0 == b.0 && a.1 < b.1)
  }

  predicate RowMajor(s: seq<Pos>)
  {
    forall i, j :: 0 <= i < j < |s| ==> Before(s[i], s[j])
  }

  /** The columns y .. w-1 of row x whose entry is in `keep`, left to right. */
  function ScanRow<T>(row: seq<T>, x: int, y: nat, w: nat, keep: set<T>): (r: seq<Pos>)
    requires w <= |row|
    decreases w - y
    ensures forall p :: p in r <==> p.0 == x && y <= p.1 < w && row[p.1] in keep
    ensures RowMajor(r)
  {
    if y >= w then []
    else
      var rest := ScanRow(row, x, y + 1, w, keep);
      if row[y] in keep then [(x, y)] + rest else rest
  }

  /** The cells of rows x .. |g|-1 (columns 0 .. w-1) whose entry is in
      `keep`, in row-major order. */
  function ScanRows<T>(g: seq<seq<T>>, x: nat, w: nat, keep: set<T>): (r: seq<Pos>)
    requires WideEnough(g, w)
    decreases |g| - x
    ensures forall p :: p in r <==> x <= p.0 < |g| && 0 <= p.1 < w && g[p.0][p.1] in keep
    ensures RowMajor(r)
  {
    if x >= |g| then []
    else
      var row := ScanRow(g[x], x, 0, w, keep);
      var rest := ScanRows(g, x + 1, w, keep);
      assert forall i :: 0 <= i < |row| ==> row[i] in row && row[i].0 == x;
      assert forall j :: 0 <= j < |rest| ==> rest[j] in rest && rest[j].0 > x;
      row + rest
  }

  /** Every cell of the first w columns whose entry is in `keep`, in
      row-major order: the order of a nested `for x / for y` loop. */
  function ScanPositions<T>(g: seq<seq<T>>, w: nat, keep: set<T>): (r: seq<Pos>)
    requires WideEnough(g, w)
    ensures forall p :: p in r <==> 0 <= p.0 < |g| && 0 <= p.1 < w && g[p.0][p.1] in keep
    ensures RowMajor(r)
  {
    ScanRows(g, 0, w, keep)
  }

  lemma RowMajorDistinct(s: seq<Pos>)
    requires RowMajor(s)
    ensures forall i, j :: 0 <= i < j < |s| ==> s[i] != s[j]
  {
  }

  // ---------------------------------------------------------------------------
  // Counting cells

  function CountRow<T(==)>(row: seq<T>, v: T): (n: nat)
    ensures n <= |row|
  {
    if row == [] then 0 else (if row[0] == v then 1 else 0) + CountRow(row[1..], v)
  }

  /** How many cells of `g` hold `v`. */
  function Count<T(==)>(g: seq<seq<T>>, v: T): nat
  {
    if g == [] then 0 else CountRow(g[0], v) + Count(g[1..], v)
  }

  lemma {:induction false} CountRowSet<T>(row: seq<T>, j: nat, u: T, v: T)
    requires j < |row|
    ensures CountRow(row[j := u], v)
         == CountRow(row, v) - (if row[j] == v then 1 else 0) + (if u == v then 1 else 0)
  {
    if j > 0 {
      assert row[j := u][1..] == row[1..][j - 1 := u];
      CountRowSet(row[1..], j - 1, u, v);
    } else {
      assert row[j := u][1..] == row[1..];
    }
  }

  /** Writing `u` into one cell changes the number of `v` cells by the
      difference that one cell makes. */
  lemma {:induction false} CountSetCell<T>(g: seq<seq<T>>, p: Pos, u: T, v: T)
    requires Inside(g, p)
    ensures Count(SetCell(g, p, u), v)
         == Count(g, v) - (if At(g, p) == v then 1 else 0) + (if u == v then 1 else 0)
  {
    var r := SetCell(g, p, u);
    if p.0 == 0 {
      assert r[1..] == g[1..];
      CountRowSet(g[0], p.1, u, v);
    } else {
      assert r[1..] == SetCell(g[1..], (p.0 - 1, p.1), u);
      CountSetCell(g[1..], (p.0 - 1, p.1), u, v);
    }
  }
}
