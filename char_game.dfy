/** The character-map game of `starpusher.py`, whose level logic is repeated
    almost verbatim in `starpusher_specify_map_ai_verify.py`: the level
    parser, the wall and blocking queries, the in-place move on the star
    list with its training-mode action log, the level-finished test, the
    per-level loop state (step counter, replay of a recorded action string)
    and the level index of the main loop.  A position is (x, y) with x the
    row, as in the game code. */
module CharGame {
  import opened Common
  import opened Grid
  import opened Text
  import Physics

  type CharMap = seq<seq<char>>

  // ---------------------------------------------------------------------------
  // Directions and action strings

  /** The four moves the arrow keys (or a replayed action string) request. */
  datatype Dir = Up | Right | Down | Left

  /** The (xOffset, yOffset) pair `makeMove` uses: one cell along one axis. */
  function Offset(d: Dir): (o: Pos)
    ensures (o.0 == 0) != (o.1 == 0) && -1 <= o.0 <= 1 && -1 <= o.1 <= 1
  {
    match d
    case Up => (-1, 0)
    case Right => (0, 1)
    case Down => (1, 0)
    case Left => (0, -1)
  }

  /** The letter the training log records for a move. */
  function Letter(d: Dir): char
  {
    match d
    case Up => 'U'
    case Right => 'R'
    case Down => 'D'
    case Left => 'L'
  }

  /** The letters of a sequence of moves, in order. */
  function Letters(ds: seq<Dir>): (s: string)
    ensures |s| == |ds|
  {
    seq(|ds|, i requires 0 <= i < |ds| => Letter(ds[i]))
  }

  predicate IsMoveLetter(c: char)
  {
    c == 'L' || c == 'R' || c == 'U' || c == 'D'
  }

  function DirOf(c: char): Dir
    requires IsMoveLetter(c)
  {
    if c == 'L' then Left else if c == 'R' then Right else if c == 'U' then Up else Down
  }

  /** How many characters of `s` are move letters. */
  function CountMoveLetters(s: string): nat
  {
    if s == [] then 0 else (if IsMoveLetter(s[0]) then 1 else 0) + CountMoveLetters(s[1..])
  }

  /** `get_actions` (and `get_ai_actions`): each of L, R, U, D becomes its
      move, in order, and every other character is dropped. */
  function DecodeActions(s: string): (r: seq<Dir>)
    ensures |r| == CountMoveLetters(s)
    ensures forall i :: 0 <= i < |r| ==> Letter(r[i]) in s
  {
    if s == [] then []
    else
      var rest := DecodeActions(s[1..]);
      assert forall i :: 0 <= i < |rest| ==> Letter(rest[i]) in s by {
        forall i | 0 <= i < |rest| ensures Letter(rest[i]) in s {
          var k :| 0 <= k < |s[1..]| && s[1..][k] == Letter(rest[i]);
          assert s[k + 1] == Letter(rest[i]);
        }
      }
      if IsMoveLetter(s[0]) then [DirOf(s[0])] + rest else rest
  }

  /** Decoding distributes over concatenation. */
  lemma {:induction false} DecodeAppend(s: string, t: string)
    ensures DecodeActions(s + t) == DecodeActions(s) + DecodeActions(t)
  {
    if s != [] {
      assert (s + t)[1..] == s[1..] + t;
      DecodeAppend(s[1..], t);
    } else {
      assert s + t == t;
    }
  }

  /** A training log decodes back to the moves that produced it. */
  lemma {:induction false} LettersRoundTrip(ds: seq<Dir>)
    ensures DecodeActions(Letters(ds)) == ds
  {
    if ds != [] {
      assert Letters(ds)[1..] == Letters(ds[1..]);
      LettersRoundTrip(ds[1..]);
    }
  }

  /** The action string `get_ai_actions` returns in place of a model query. */
  const AI_RESULT: string := "LRRD"

  /** `get_ai_actions`: the fixed string decoded. */
  function AiActions(): (r: seq<Dir>)
    ensures r == [Left, Right, Right, Down]
  {
    DecodeActions(AI_RESULT)
  }

  /** The recorded action string the verification game replays. */
  const ACTION_SEQUENCE: string := "LLUULRDLUDRLDRLRLURRUURRULUDDDD"

  // ---------------------------------------------------------------------------
  // Level parsing

  /** The level object `read_map` builds: the map as given, the goals and
      star positions in row-major order, and the start position. */
  datatype Level = Level(width: nat, height: nat, mapObj: CharMap, goals: seq<Pos>, start: Pos, stars: seq<Pos>)

  /** Why `read_map` fails: a row shorter than the first (an IndexError), or
      one of its three level-design assertions. */
  datatype ParseError = RowTooShort | MissingStart | NoGoals | TooFewStars

  const START: set<char> := {'@'}
  const GOAL: set<char> := {'.', '*'}
  const STAR: set<char> := {'$', '*'}

  function Last(s: seq<Pos>): Option<Pos>
  {
    if s == [] then None else Some(s[|s| - 1])
  }

  /** Some scanned cell of the map holds '@'. */
  predicate HasStart(lines: seq<string>)
    requires WideEnough(lines, Width(lines))
  {
    exists i, j :: 0 <= i < |lines| && 0 <= j < Width(lines) && lines[i][j] == '@'
  }

  /** What `read_map` computes for the given map lines. Only the first
      row's width is scanned, every row must be that wide, and '+' does not
      count as a start. */
  function ParseLevel(lines: seq<string>): (r: Result<Level, ParseError>)
    ensures r == Failure(RowTooShort) <==> !WideEnough(lines, Width(lines))
    ensures r == Failure(MissingStart) <==> WideEnough(lines, Width(lines)) && !HasStart(lines)
    ensures r == Failure(NoGoals) <==>
      WideEnough(lines, Width(lines)) && HasStart(lines) && ScanPositions(lines, Width(lines), GOAL) == []
    ensures r == Failure(TooFewStars) <==>
      WideEnough(lines, Width(lines)) && HasStart(lines) && ScanPositions(lines, Width(lines), GOAL) != []
      && |ScanPositions(lines, Width(lines), STAR)| < |ScanPositions(lines, Width(lines), GOAL)|
    ensures r.Success? <==>
      WideEnough(lines, Width(lines)) && HasStart(lines)
      && 1 <= |ScanPositions(lines, Width(lines), GOAL)| <= |ScanPositions(lines, Width(lines), STAR)|
    ensures r.Success? ==>
      var lv := r.value;
      lv.mapObj == lines && lv.height == |lines| && lv.width == Width(lines)
      && 1 <= |lv.goals| <= |lv.stars|
      && InBounds(lv.height, lv.width, lv.start) && lines[lv.start.0][lv.start.1] == '@'
      && (forall i, j :: 0 <= i < |lines| && 0 <= j < lv.width && Before(lv.start, (i, j)) ==> lines[i][j] != '@')
      && RowMajor(lv.goals) && RowMajor(lv.stars)
      && (forall p :: p in lv.goals <==> InBounds(lv.height, lv.width, p) && lines[p.0][p.1] in GOAL)
      && (forall p :: p in lv.stars <==> InBounds(lv.height, lv.width, p) && lines[p.0][p.1] in STAR)
  {
    var w := Width(lines);
    if !WideEnough(lines, w) then Failure(RowTooShort)
    else
      var ats := ScanPositions(lines, w, START);
      var goals := ScanPositions(lines, w, GOAL);
      var stars := ScanPositions(lines, w, STAR);
      if ats == [] then
        assert !HasStart(lines) by {
          forall i, j | 0 <= i < |lines| && 0 <= j < w ensures lines[i][j] != '@' {
            assert (i, j) !in ats;
          }
        }
        Failure(MissingStart)
      else
        assert HasStart(lines) by { assert ats[0] in ats; }
        if |goals| == 0 then Failure(NoGoals)
        else if |stars| < |goals| then Failure(TooFewStars)
        else
          var start := ats[|ats| - 1];
          assert start in ats;
          assert forall i, j :: 0 <= i < |lines| && 0 <= j < w && Before(start, (i, j)) ==> lines[i][j] != '@' by {
            forall i, j | 0 <= i < |lines| && 0 <= j < w && Before(start, (i, j))
              ensures lines[i][j] != '@'
            {
              forall k | 0 <= k < |ats| ensures ats[k] != (i, j) {
                if k < |ats| - 1 { assert Before(ats[k], start); }
              }
              assert (i, j) !in ats;
            }
          }
          Success(Level(w, |lines|, lines, goals, start, stars))
  }

  /** A parsed level's stars sit on distinct star cells of its map. */
  lemma ParsedWellPlaced(lines: seq<string>)
    requires ParseLevel(lines).Success?
    ensures WellPlaced(lines, ParseLevel(lines).value.stars)
  {
    var lv := ParseLevel(lines).value;
    RowMajorDistinct(lv.stars);
    forall p | p in lv.stars ensures OnMap(lines, p.0, p.1) && lines[p.0][p.1] != '#' && lines[p.0][p.1] != 'x' {
      assert lines[p.0][p.1] in STAR;
    }
  }

  /** The scan of the first x rows and the first y columns of row x. */
  function ScanUpTo(g: CharMap, x: nat, y: nat, w: nat, keep: set<char>): seq<Pos>
    requires x < |g| && y <= w <= |g[x]| && WideEnough(g[..x], w)
  {
    ScanPositions(g[..x], w, keep) + ScanRow(g[x], x, 0, y, keep)
  }

  lemma {:induction false} ScanRowSnoc(row: string, x: int, y0: nat, y: nat, keep: set<char>)
    requires y0 <= y < |row|
    decreases y - y0
    ensures ScanRow(row, x, y0, y + 1, keep)
         == ScanRow(row, x, y0, y, keep) + (if row[y] in keep then [(x, y)] else [])
  {
    if y0 < y {
      ScanRowSnoc(row, x, y0 + 1, y, keep);
    }
  }

  lemma WideSnoc(g: CharMap, row: string, w: nat)
    requires WideEnough(g, w) && w <= |row|
    ensures WideEnough(g + [row], w)
  {
    var g' := g + [row];
    forall k | 0 <= k < |g'| ensures |g'[k]| >= w {
      if k < |g| { assert g'[k] == g[k]; }
    }
  }

  lemma {:induction false} ScanRowsSnoc(g: CharMap, row: string, i: nat, w: nat, keep: set<char>)
    requires WideEnough(g, w) && WideEnough(g + [row], w) && w <= |row| && i <= |g|
    decreases |g| - i
    ensures ScanRows(g + [row], i, w, keep) == ScanRows(g, i, w, keep) + ScanRow(row, |g|, 0, w, keep)
  {
    var h := g + [row];
    if i < |g| {
      assert h[i] == g[i];
      ScanRowsSnoc(g, row, i + 1, w, keep);
      var a := ScanRow(g[i], i, 0, w, keep);
      assert ScanRows(h, i, w, keep) == a + ScanRows(h, i + 1, w, keep);
      assert ScanRows(g, i, w, keep) == a + ScanRows(g, i + 1, w, keep);
    } else {
      assert h[i] == row;
      assert ScanRows(h, i + 1, w, keep) == [];
      assert ScanRows(g, i, w, keep) == [];
    }
  }

  lemma ScanUpToSnoc(g: CharMap, x: nat, y: nat, w: nat, keep: set<char>)
    requires x < |g| && y < w <= |g[x]| && WideEnough(g[..x], w)
    ensures ScanUpTo(g, x, y + 1, w, keep) == ScanUpTo(g, x, y, w, keep) + (if g[x][y] in keep then [(x, y)] else [])
  {
    ScanRowSnoc(g[x], x, 0, y, keep);
  }

  /** Finishing row x of the scan is the scan of the first x + 1 rows. */
  lemma RowDone(g: CharMap, x: nat, w: nat, keep: set<char>)
    requires x < |g| && w <= |g[x]| && WideEnough(g[..x], w)
    ensures WideEnough(g[..x + 1], w)
    ensures ScanUpTo(g, x, w, w, keep) == ScanPositions(g[..x + 1], w, keep)
  {
    assert g[..x + 1] == g[..x] + [g[x]];
    WideSnoc(g[..x], g[x], w);
    ScanRowsSnoc(g[..x], g[x], 0, w, keep);
  }

  /** `read_map`: the nested loop over rows and the first row's columns,
      collecting the last '@', the goals and the stars as it goes. */
  method ReadMap(lines: seq<string>) returns (r: Result<Level, ParseError>)
    ensures r == ParseLevel(lines)
  {
    var w := Width(lines);
    var start: Option<Pos> := None;
    var goals: seq<Pos> := [];
    var stars: seq<Pos> := [];
    var x := 0;
    while x < |lines|
      invariant x <= |lines| && WideEnough(lines[..x], w)
      invariant start == Last(ScanPositions(lines[..x], w, START))
      invariant goals == ScanPositions(lines[..x], w, GOAL)
      invariant stars == ScanPositions(lines[..x], w, STAR)
    {
      if |lines[x]| < w {
        assert !WideEnough(lines, w) by { assert |lines[x]| < w; }
        return Failure(RowTooShort);
      }
      var y := 0;
      while y < w
        invariant y <= w
        invariant start == Last(ScanUpTo(lines, x, y, w, START))
        invariant goals == ScanUpTo(lines, x, y, w, GOAL)
        invariant stars == ScanUpTo(lines, x, y, w, STAR)
      {
        var c := lines[x][y];
        ScanUpToSnoc(lines, x, y, w, START);
        ScanUpToSnoc(lines, x, y, w, GOAL);
        ScanUpToSnoc(lines, x, y, w, STAR);
        if c == '@' {
          start := Some((x, y));
        }
        if c == '.' {
          goals := goals + [(x, y)];
        }
        if c == '$' {
          stars := stars + [(x, y)];
        }
        if c == '*' {
          goals := goals + [(x, y)];
          stars := stars + [(x, y)];
        }
        y := y + 1;
      }
      RowDone(lines, x, w, START);
      RowDone(lines, x, w, GOAL);
      RowDone(lines, x, w, STAR);
      x := x + 1;
    }
    assert lines[..x] == lines;
    if start.None? {
      return Failure(MissingStart);
    }
    if |goals| == 0 {
      return Failure(NoGoals);
    }
    if |stars| < |goals| {
      return Failure(TooFewStars);
    }
    r := Success(Level(w, |lines|, lines, goals, start.value, stars));
  }

  // ---------------------------------------------------------------------------
  // Queries

  predicate OnMap(m: CharMap, x: int, y: int)
  {
    0 <= x < |m| && 0 <= y < |m[x]|
  }

  /** `isWall`: only '#' and 'x' are walls, and nothing off the map is. */
  function IsWall(m: CharMap, x: int, y: int): (r: bool)
    ensures r ==> OnMap(m, x, y)
  {
    if x < 0 || x >= |m| || y < 0 || y >= |m[x]| then false
    else m[x][y] == '#' || m[x][y] == 'x'
  }

  /** `isBlocked`: a wall, a cell off the map, or a cell holding a star. */
  function IsBlocked(m: CharMap, stars: seq<Pos>, x: int, y: int): (r: bool)
    ensures r <==> !OnMap(m, x, y) || m[x][y] == '#' || m[x][y] == 'x' || (x, y) in stars
  {
    if IsWall(m, x, y) then true
    else if x < 0 || x >= |m| || y < 0 || y >= |m[x]| then true
    else (x, y) in stars
  }

  /** `isLevelFinished`'s condition: every goal holds a star. */
  predicate Finished(goals: seq<Pos>, stars: seq<Pos>)
  {
    forall g :: g in goals ==> g in stars
  }

  // ---------------------------------------------------------------------------
  // Moves

  /** The part of the game state a move changes. */
  datatype State = State(player: Pos, stars: seq<Pos>)

  /** What `makeMove` does: whether the player moved, and the new state.
      A wall ahead, or a star ahead whose far cell is blocked, stops the
      move; otherwise the player steps and a star ahead is pushed one cell
      further, replaced in place at its list index. */
  function Move(m: CharMap, s: State, d: Dir): (bool, State)
  {
    var o := Offset(d);
    var to := Add(s.player, o);
    var far := Add(to, o);
    if IsWall(m, to.0, to.1) then (false, s)
    else if to in s.stars then
      if IsBlocked(m, s.stars, far.0, far.1) then (false, s)
      else
        var ind := Physics.FirstIndex(s.stars, to);
        (true, State(to, s.stars[ind := far]))
    else (true, State(to, s.stars))
  }

  /** A move is refused exactly when a wall is ahead or a star ahead cannot
      be pushed, and then nothing changes; otherwise the player steps one
      cell, and the only star that can change is the one the player now
      stands on, which moves one cell further in the same direction. */
  lemma MoveEffect(m: CharMap, s: State, d: Dir)
    ensures var (moved, n) := Move(m, s, d);
      var to := Add(s.player, Offset(d));
      var far := Add(to, Offset(d));
      |n.stars| == |s.stars|
      && (moved <==> !IsWall(m, to.0, to.1) && (to in s.stars ==> !IsBlocked(m, s.stars, far.0, far.1)))
      && (!moved ==> n == s)
      && (moved ==> n.player == to)
      && (forall i :: 0 <= i < |s.stars| && n.stars[i] != s.stars[i] ==> s.stars[i] == to && n.stars[i] == far)
      && (forall i, j :: 0 <= i < |s.stars| && 0 <= j < |s.stars| && i != j && n.stars[i] != s.stars[i] ==> n.stars[j] == s.stars[j])
  {
  }

  /** Stars sit on distinct open cells of the map: what `read_map` sets up
      and every move keeps. */
  predicate WellPlaced(m: CharMap, stars: seq<Pos>)
  {
    Physics.Distinct(stars)
    && forall p :: p in stars ==> OnMap(m, p.0, p.1) && m[p.0][p.1] != '#' && m[p.0][p.1] != 'x'
  }

  /** A move keeps the stars well placed. */
  lemma MoveKeepsWellPlaced(m: CharMap, s: State, d: Dir)
    requires WellPlaced(m, s.stars)
    ensures WellPlaced(m, Move(m, s, d).1.stars)
  {
    var (moved, n) := Move(m, s, d);
    var to := Add(s.player, Offset(d));
    var far := Add(to, Offset(d));
    if moved && to in s.stars {
      var ind := Physics.FirstIndex(s.stars, to);
      assert n.stars == s.stars[ind := far];
      assert far !in s.stars;
      forall i, j | 0 <= i < j < |n.stars| ensures n.stars[i] != n.stars[j] {
        if i == ind || j == ind {
          assert n.stars[i] in s.stars || n.stars[j] in s.stars;
        }
      }
      forall p | p in n.stars ensures OnMap(m, p.0, p.1) && m[p.0][p.1] != '#' && m[p.0][p.1] != 'x' {
        var k :| 0 <= k < |n.stars| && n.stars[k] == p;
        if k != ind { assert p == s.stars[k]; }
      }
    }
  }

  /** The star list after a move is the old one with the star the player
      now stands on traded for the cell beyond it, or the old one itself. */
  lemma MovePermutesStars(m: CharMap, s: State, d: Dir)
    ensures var (moved, n) := Move(m, s, d);
      (moved && n.player in s.stars ==>
         multiset(n.stars) == multiset(s.stars) - multiset{n.player} + multiset{Add(n.player, Offset(d))})
      && (!moved || n.player !in s.stars ==> n.stars == s.stars)
  {
    var (moved, n) := Move(m, s, d);
    var to := Add(s.player, Offset(d));
    if moved && to in s.stars {
      var ind := Physics.FirstIndex(s.stars, to);
      ReplaceMultiset(s.stars, ind, Add(to, Offset(d)));
    }
  }

  lemma ReplaceMultiset(s: seq<Pos>, i: int, v: Pos)
    requires 0 <= i < |s|
    ensures multiset(s[i := v]) == multiset(s) - multiset{s[i]} + multiset{v}
  {
    assert s == s[..i] + [s[i]] + s[i + 1..];
    assert s[i := v] == s[..i] + [v] + s[i + 1..];
  }

  /** On a map that is not closed by walls the player walks off it: `isWall`
      is false off the map, so nothing stops the move. */
  lemma WalkOffMap()
    ensures Move(["@."], State((0, 0), []), Up) == (true, State((-1, 0), []))
  {
  }

  // ---------------------------------------------------------------------------
  // The level index of the main loop

  /** What `runLevel` reports back to the main loop. */
  datatype LevelResult = Solved | NextLevel | Back | ResetLevel

  /** The main loop's new level index: forward on a solved or skipped level
      and back on 'back', each wrapping around, unchanged on 'reset'. */
  function NextIndex(i: int, n: int, result: LevelResult): (j: int)
    requires 0 <= i < n
    ensures 0 <= j < n
    ensures result == ResetLevel ==> j == i
  {
    match result
    case Solved => if i + 1 >= n then 0 else i + 1
    case NextLevel => if i + 1 >= n then 0 else i + 1
    case Back => if i - 1 < 0 then n - 1 else i - 1
    case ResetLevel => i
  }

  /** Going back undoes going forward, and going forward undoes going back. */
  lemma NavigationInverse(i: int, n: int)
    requires 0 <= i < n
    ensures NextIndex(NextIndex(i, n, NextLevel), n, Back) == i
    ensures NextIndex(NextIndex(i, n, Back), n, NextLevel) == i
  {
  }

  /** The level index after k forward moves from level i. */
  function Forward(i: int, n: int, k: nat): (j: int)
    requires 0 <= i < n
    ensures 0 <= j < n
  {
    if k == 0 then i else NextIndex(Forward(i, n, k - 1), n, NextLevel)
  }

  /** Up to one full round, k forward moves add k modulo the level count;
      after exactly n of them the player is back at the starting level. */
  lemma {:induction false} ForwardCycle(i: int, n: int, k: nat)
    requires 0 <= i < n && k <= n
    ensures Forward(i, n, k) == if i + k < n then i + k else i + k - n
    ensures k == n ==> Forward(i, n, k) == i
  {
    if k > 0 {
      ForwardCycle(i, n, k - 1);
    }
  }

  /** The main loop's own state: the level index and the module-level
      training log `human_training_actions`. */
  class Session {
    const levelCount: nat
    var levelIndex: int
    var trainingActions: string

    ghost predicate Valid()
      reads this
    {
      0 <= levelIndex < levelCount
    }

    constructor(levelCount: nat)
      requires levelCount > 0
      ensures Valid() && this.levelCount == levelCount && levelIndex == 0 && trainingActions == []
    {
      this.levelCount := levelCount;
      levelIndex := 0;
      trainingActions := [];
    }

    /** One turn of the main loop after `runLevel` returns: the log is
        cleared (saved first when solved, by the keys 'n', 'b' and 'r'
        otherwise) and the index moves. */
    method Navigate(result: LevelResult)
      requires Valid()
      modifies this
      ensures Valid()
      ensures levelIndex == NextIndex(old(levelIndex), levelCount, result)
      ensures trainingActions == []
    {
      trainingActions := [];
      if result == Solved || result == NextLevel {
        levelIndex := levelIndex + 1;
        if levelIndex >= levelCount {
          levelIndex := 0;
        }
      } else if result == Back {
        levelIndex := levelIndex - 1;
        if levelIndex < 0 {
          levelIndex := levelCount - 1;
        }
      }
    }
  }

  // ---------------------------------------------------------------------------
  // One level being played

  /** The state `runLevel` keeps for one level: the game state object
      (player, stars, step counter), the completion flag and the replay
      position in a recorded action sequence. */
  class LevelRun {
    const mapObj: CharMap
    const goals: seq<Pos>
    const aiActions: seq<Dir>
    var player: Pos
    var stars: seq<Pos>
    var stepCounter: nat
    var complete: bool
    var aiStep: nat
    var aiInterval: int

    ghost predicate Valid()
      reads this
    {
      aiStep <= |aiActions| && WellPlaced(mapObj, stars)
    }

    function Current(): State
      reads this
    {
      State(player, stars)
    }

    /** A fresh copy of the level's start state, with the replay queue
        decoded from the recorded action string. */
    constructor(level: Level, actions: string)
      requires WellPlaced(level.mapObj, level.stars)
      ensures Valid()
      ensures mapObj == level.mapObj && goals == level.goals && aiActions == DecodeActions(actions)
      ensures player == level.start && stars == level.stars && stepCounter == 0 && !complete
      ensures aiStep == 0 && aiInterval == 500
    {
      mapObj := level.mapObj;
      goals := level.goals;
      aiActions := DecodeActions(actions);
      player := level.start;
      stars := level.stars;
      stepCounter := 0;
      complete := false;
      aiStep := 0;
      aiInterval := 500;
    }

    /** `makeMove`: the player and the pushed star change in place exactly
        as `Move` says, and the training log gains the move's letter iff
        the player moved (it is appended up front and dropped again on
        every path that returns False). */
    method MakeMove(d: Dir, session: Session) returns (moved: bool)
      requires Valid()
      modifies this, session
      ensures Valid()
      ensures (moved, Current()) == Move(mapObj, old(Current()), d)
      ensures session.trainingActions == old(session.trainingActions) + (if moved then [Letter(d)] else [])
      ensures stepCounter == old(stepCounter) && complete == old(complete)
      ensures aiStep == old(aiStep) && aiInterval == old(aiInterval)
      ensures session.levelIndex == old(session.levelIndex)
    {
      session.trainingActions := session.trainingActions + [Letter(d)];
      moved := Shift(d);
      if !moved {
        session.trainingActions := session.trainingActions[..|session.trainingActions| - 1];
      }
    }

    /** The position updates of `makeMove`: the wall test, the push test
        on the far cell and the in-place replacement of the pushed star. */
    method Shift(d: Dir) returns (moved: bool)
      requires Valid()
      modifies this
      ensures Valid()
      ensures (moved, Current()) == Move(mapObj, old(Current()), d)
      ensures stepCounter == old(stepCounter) && complete == old(complete)
      ensures aiStep == old(aiStep) && aiInterval == old(aiInterval)
    {
      MoveKeepsWellPlaced(mapObj, Current(), d);
      ghost var r := Move(mapObj, Current(), d);
      var o := Offset(d);
      if IsWall(mapObj, player.0 + o.0, player.1 + o.1) {
        assert r == (false, Current());
        return false;
      }
      if (player.0 + o.0, player.1 + o.1) in stars {
        if !IsBlocked(mapObj, stars, player.0 + o.0 * 2, player.1 + o.1 * 2) {
          var ind := Physics.FirstIndex(stars, (player.0 + o.0, player.1 + o.1));
          stars := stars[ind := (stars[ind].0 + o.0, stars[ind].1 + o.1)];
          assert r.1.stars == stars;
        } else {
          assert r == (false, Current());
          return false;
        }
      } else {
        assert r.1.stars == stars;
      }
      player := (player.0 + o.0, player.1 + o.1);
      assert r == (true, Current());
      return true;
    }

    /** `isLevelFinished`: look for a goal without a star. */
    method IsLevelFinished() returns (done: bool)
      ensures done <==> Finished(goals, stars)
    {
      for i := 0 to |goals|
        invariant forall k :: 0 <= k < i ==> goals[k] in stars
      {
        if goals[i] !in stars {
          return false;
        }
      }
      return true;
    }

    /** The move step of the `runLevel` loop: a requested move is tried
        unless the level is already complete, the step counter counts the
        moves that happened, and the level is marked complete once every
        goal holds a star. */
    method Apply(moveTo: Option<Dir>, session: Session)
      requires Valid()
      modifies this, session
      ensures Valid()
      ensures old(complete) || moveTo.None? ==>
        Current() == old(Current()) && stepCounter == old(stepCounter) && complete == old(complete)
        && session.trainingActions == old(session.trainingActions)
      ensures !old(complete) && moveTo.Some? ==>
        var (moved, n) := Move(mapObj, old(Current()), moveTo.value);
        Current() == n
        && stepCounter == old(stepCounter) + (if moved then 1 else 0)
        && complete == Finished(goals, n.stars)
        && session.trainingActions == old(session.trainingActions) + (if moved then [Letter(moveTo.value)] else [])
      ensures aiStep == old(aiStep) && aiInterval == old(aiInterval)
      ensures session.levelIndex == old(session.levelIndex)
    {
      if moveTo.Some? && !complete {
        var moved := MakeMove(moveTo.value, session);
        if moved {
          stepCounter := stepCounter + 1;
        }
        var done := IsLevelFinished();
        if done {
          complete := true;
        }
      }
    }

    /** One pass of the replay branch of the verification game's loop: once
        the interval counter has gone below zero the next recorded move is
        issued and the counter restarts from 1000; the counter then counts
        down by one while moves remain. */
    method ReplayTick() returns (moveTo: Option<Dir>)
      requires Valid()
      modifies this
      ensures Valid()
      ensures moveTo.Some? <==> aiStep == old(aiStep) + 1
      ensures moveTo.None? <==> aiStep == old(aiStep)
      ensures moveTo.Some? <==> old(aiInterval) < 0 && old(aiStep) < |aiActions|
      ensures moveTo.Some? ==> old(aiInterval) < 0 && moveTo.value == aiActions[old(aiStep)] && aiInterval == 999
      ensures moveTo.None? ==> aiInterval == (if old(aiStep) < |aiActions| then old(aiInterval) - 1 else old(aiInterval))
      ensures Current() == old(Current()) && stepCounter == old(stepCounter) && complete == old(complete)
    {
      moveTo := None;
      if aiStep < |aiActions| && |aiActions| > 0 {
        if aiInterval < 0 && aiStep < |aiActions| {
          moveTo := Some(aiActions[aiStep]);
          aiInterval := 1000;
          aiStep := aiStep + 1;
        } else {
          moveTo := None;
        }
        aiInterval := aiInterval - 1;
      }
    }
  }

  // ---------------------------------------------------------------------------
  // Reading a recorded level file

  /** The line filter of `read_map_from_file`: the stripped lines from the
      top of the file for as long as each starts with '#'. Lines come from
      `readlines`, so none is empty. */
  function WallPrefix(lines: seq<string>): (r: seq<string>)
    requires forall i :: 0 <= i < |lines| ==> |lines[i]| > 0
    ensures |r| <= |lines|
    ensures forall i :: 0 <= i < |r| ==> lines[i][0] == '#' && r[i] == Strip(lines[i])
    ensures |r| < |lines| ==> lines[|r|][0] != '#'
  {
    if lines == [] || lines[0][0] != '#' then []
    else [Strip(lines[0])] + WallPrefix(lines[1..])
  }
}
