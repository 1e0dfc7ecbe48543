/** `convert_to_ai_map`: the character game's current state written as the
    numeric grid the trained agent reads (0 floor, 1 wall, 2 box, 3 target,
    4 box on target, 5 player), and how a move of the character game
    corresponds to a step of the numeric environment on that grid. */
module AiMap {
  import opened Grid
  import opened Encoders
  import CharGame
  import Physics

  /** The level fields the conversion reads can be indexed: `height` rows
      of at least `width` characters. */
  predicate Sized(lv: CharGame.Level)
  {
    |lv.mapObj| == lv.height && WideEnough(lv.mapObj, lv.width)
  }

  /** The code of cell (i, j): a wall first, then the player, then a star
      (on target when its cell is one of the level's goals), then a `.` of
      the starting map, and floor otherwise. */
  function AiCell(lv: CharGame.Level, stars: seq<Pos>, player: Pos, i: nat, j: nat): (v: int)
    requires Sized(lv) && i < lv.height && j < lv.width
    ensures IsCode(v)
  {
    var c := lv.mapObj[i][j];
    if c == '#' then WALL
    else if (i, j) == player then PLAYER
    else if (i, j) in stars then (if (i, j) in lv.goals then BOX_ON_TARGET else BOX)
    else if c == '.' then TARGET
    else EMPTY
  }

  /** The grid `convert_to_ai_map` returns. */
  function ConvertToAiMap(lv: CharGame.Level, stars: seq<Pos>, player: Pos): (g: Room)
    requires Sized(lv)
    ensures |g| == lv.height && IsRect(g, lv.width)
    ensures forall i, j :: 0 <= i < lv.height && 0 <= j < lv.width ==> IsCode(g[i][j])
    ensures forall i, j :: 0 <= i < lv.height && 0 <= j < lv.width ==> g[i][j] == AiCell(lv, stars, player, i, j)
  {
    seq(lv.height, i requires 0 <= i < lv.height =>
      seq(lv.width, j requires 0 <= j < lv.width => AiCell(lv, stars, player, i, j)))
  }

  /** The nested loops of `convert_to_ai_map`, writing a zero grid cell by
      cell. */
  method ConvertToAiMapIn(lv: CharGame.Level, stars: seq<Pos>, player: Pos) returns (ai: array2<int>)
    requires Sized(lv)
    ensures Snapshot(ai) == ConvertToAiMap(lv, stars, player)
  {
    var h, w := lv.height, lv.width;
    var m := lv.mapObj;
    ai := new int[h, w]((i, j) => EMPTY);
    var i := 0;
    while i < h
      invariant 0 <= i <= h && ai.Length0 == h && ai.Length1 == w
      invariant forall r, c :: 0 <= r < i && 0 <= c < w ==> ai[r, c] == AiCell(lv, stars, player, r, c)
    {
      var j := 0;
      while j < w
        invariant 0 <= j <= w
        invariant forall r, c :: 0 <= r < i && 0 <= c < w ==> ai[r, c] == AiCell(lv, stars, player, r, c)
        invariant forall c :: 0 <= c < j ==> ai[i, c] == AiCell(lv, stars, player, i, c)
      {
        if m[i][j] == '#' {
          ai[i, j] := WALL;
        } else if (i, j) == player {
          ai[i, j] := PLAYER;
        } else if (i, j) in stars {
          if (i, j) in lv.goals {
            ai[i, j] := BOX_ON_TARGET;
          } else {
            ai[i, j] := BOX;
          }
        } else if m[i][j] == '.' {
          ai[i, j] := TARGET;
        } else {
          ai[i, j] := EMPTY;
        }
        j := j + 1;
      }
      i := i + 1;
    }
    GridExt(Snapshot(ai), ConvertToAiMap(lv, stars, player), w);
  }

  // ---------------------------------------------------------------------------
  // What a cell shows

  /** Each code, read back: a wall hides the player and any star, the player
      hides a star, a star shows as on target exactly on a goal, and only a
      `.` of the starting map shows as a bare target. */
  lemma AiCellMeaning(lv: CharGame.Level, stars: seq<Pos>, player: Pos, i: nat, j: nat)
    requires Sized(lv) && i < lv.height && j < lv.width
    ensures var v := AiCell(lv, stars, player, i, j); var c := lv.mapObj[i][j]; var p := (i, j);
      && (v == WALL <==> c == '#')
      && (v == PLAYER <==> c != '#' && p == player)
      && (v == BOX_ON_TARGET <==> c != '#' && p != player && p in stars && p in lv.goals)
      && (v == BOX <==> c != '#' && p != player && p in stars && p !in lv.goals)
      && (v == TARGET <==> c == '.' && p != player && p !in stars)
      && (v == EMPTY <==> c != '#' && c != '.' && p != player && p !in stars)
  {
  }

  /** A goal the starting map wrote as `*` shows as floor once its star has
      been pushed away, and a goal under the player shows as the player:
      in both cases the agent no longer sees the target. */
  lemma HiddenGoals(lv: CharGame.Level, stars: seq<Pos>, player: Pos, i: nat, j: nat)
    requires Sized(lv) && i < lv.height && j < lv.width && (i, j) in lv.goals
    ensures lv.mapObj[i][j] == '*' && (i, j) != player && (i, j) !in stars ==> AiCell(lv, stars, player, i, j) == EMPTY
    ensures lv.mapObj[i][j] != '#' && (i, j) == player ==> AiCell(lv, stars, player, i, j) == PLAYER
  {
  }

  // ---------------------------------------------------------------------------
  // Boxes on targets

  /** The entries of the star list that the grid shows as boxes on targets:
      on the grid, not under a wall or the player, and on a goal. */
  predicate ShownOnGoal(lv: CharGame.Level, player: Pos, p: Pos)
    requires Sized(lv)
  {
    InBounds(lv.height, lv.width, p) && lv.mapObj[p.0][p.1] != '#' && p != player && p in lv.goals
  }

  function OnGoalCount(lv: CharGame.Level, stars: seq<Pos>, player: Pos): nat
    requires Sized(lv)
  {
    if stars == [] then 0
    else OnGoalCount(lv, stars[..|stars| - 1], player) + (if ShownOnGoal(lv, player, stars[|stars| - 1]) then 1 else 0)
  }

  /** Without repeated stars, the grid holds one box-on-target code per star
      that stands on a goal and is hidden by neither a wall nor the player. */
  lemma {:induction false} CountBoxesOnTarget(lv: CharGame.Level, stars: seq<Pos>, player: Pos)
    requires Sized(lv) && Physics.Distinct(stars)
    ensures Count(ConvertToAiMap(lv, stars, player), BOX_ON_TARGET) == OnGoalCount(lv, stars, player)
  {
    var g := ConvertToAiMap(lv, stars, player);
    if stars == [] {
      CountAbsent(g, BOX_ON_TARGET);
    } else {
      var n := |stars| - 1;
      var init := stars[..n];
      var p := stars[n];
      assert stars == init + [p];
      assert p !in init;
      CountBoxesOnTarget(lv, init, player);
      AddStar(lv, init, p, player);
      var g0 := ConvertToAiMap(lv, init, player);
      if ShownOnGoal(lv, player, p) {
        CountSetCell(g0, p, BOX_ON_TARGET, BOX_ON_TARGET);
      } else if InBounds(lv.height, lv.width, p) && lv.mapObj[p.0][p.1] != '#' && p != player {
        CountSetCell(g0, p, BOX, BOX_ON_TARGET);
      }
    }
  }

  /** Adding a star that is not yet listed changes at most its own cell,
      which held no box before. */
  lemma AddStar(lv: CharGame.Level, stars: seq<Pos>, p: Pos, player: Pos)
    requires Sized(lv) && p !in stars
    ensures var g := ConvertToAiMap(lv, stars, player);
      var g1 := ConvertToAiMap(lv, stars + [p], player);
      if InBounds(lv.height, lv.width, p) && lv.mapObj[p.0][p.1] != '#' && p != player then
        Inside(g, p) && At(g, p) != BOX_ON_TARGET
        && g1 == SetCell(g, p, if p in lv.goals then BOX_ON_TARGET else BOX)
      else g1 == g
  {
    var g := ConvertToAiMap(lv, stars, player);
    var g1 := ConvertToAiMap(lv, stars + [p], player);
    if InBounds(lv.height, lv.width, p) && lv.mapObj[p.0][p.1] != '#' && p != player {
      var s := SetCell(g, p, if p in lv.goals then BOX_ON_TARGET else BOX);
      assert IsRect(s, lv.width);
      GridExt(g1, s, lv.width);
    } else {
      GridExt(g1, g, lv.width);
    }
  }

  /** A grid with no cell holding `v` counts no `v`. */
  lemma {:induction false} CountAbsent(g: Room, v: int)
    requires forall i, j :: 0 <= i < |g| && 0 <= j < |g[i]| ==> g[i][j] != v
    ensures Count(g, v) == 0
  {
    if g != [] {
      CountRowAbsent(g[0], v);
      assert forall i, j :: 0 <= i < |g[1..]| && 0 <= j < |g[1..][i]| ==> g[1..][i][j] == g[i + 1][j];
      CountAbsent(g[1..], v);
    }
  }

  lemma {:induction false} CountRowAbsent(row: seq<int>, v: int)
    requires forall j :: 0 <= j < |row| ==> row[j] != v
    ensures CountRow(row, v) == 0
  {
    if row != [] {
      assert forall j :: 0 <= j < |row[1..]| ==> row[1..][j] == row[j + 1];
      CountRowAbsent(row[1..], v);
    }
  }

  // ---------------------------------------------------------------------------
  // The character game against the numeric environment

  /** The environment action for a move direction of the character game. */
  function ActionOf(d: CharGame.Dir): (a: Physics.Action)
    ensures Physics.Direction(a) == CharGame.Offset(d)
  {
    match d
    case Up => 0
    case Down => 1
    case Left => 2
    case Right => 3
  }

  /** The environment board the converted grid stands for: the player, the
      star list as the box list, and the grid's count of boxes on targets. */
  function Encode(lv: CharGame.Level, s: CharGame.State): (b: Physics.Board)
    requires Sized(lv)
  {
    var room := ConvertToAiMap(lv, s.stars, s.player);
    Physics.Board(room, s.player, s.stars, Count(room, BOX_ON_TARGET))
  }

  /** The states on which the two games can agree: a rectangular map without
      `x` walls whose goals are its `.` and `*` cells, stars on distinct open
      cells, every `*` cell still holding a star, and the player on an open
      cell that is neither a star nor a goal. */
  predicate Faithful(lv: CharGame.Level, s: CharGame.State)
  {
    Sized(lv) && IsRect(lv.mapObj, lv.width)
    && (forall p :: p in lv.goals ==> InBounds(lv.height, lv.width, p) && lv.mapObj[p.0][p.1] in CharGame.GOAL)
    && (forall i, j :: 0 <= i < lv.height && 0 <= j < lv.width && lv.mapObj[i][j] in CharGame.GOAL ==> (i, j) in lv.goals)
    && (forall i, j :: 0 <= i < lv.height && 0 <= j < lv.width ==> lv.mapObj[i][j] != 'x')
    && (forall i, j :: 0 <= i < lv.height && 0 <= j < lv.width && lv.mapObj[i][j] == '*' ==> (i, j) in s.stars)
    && CharGame.WellPlaced(lv.mapObj, s.stars)
    && InBounds(lv.height, lv.width, s.player) && lv.mapObj[s.player.0][s.player.1] != '#'
    && s.player !in s.stars && s.player !in lv.goals
  }

  /** On such a state the converted grid is a consistent environment board. */
  lemma EncodeConsistent(lv: CharGame.Level, s: CharGame.State)
    requires Faithful(lv, s)
    ensures Physics.Consistent(Encode(lv, s), lv.height, lv.width)
  {
    var b := Encode(lv, s);
    forall p | p in s.stars ensures InBounds(lv.height, lv.width, p) && Physics.IsBox(b.room[p.0][p.1]) {
      assert CharGame.OnMap(lv.mapObj, p.0, p.1);
    }
  }

  /** One move of the character game and one step of the numeric
      environment from the converted grid have the same effect: the move is
      refused exactly when the environment reports a blocked action, the
      player ends on the same cell, the environment's grid is the conversion
      of the new state, and its box list holds the new star positions. */
  predicate Agrees(lv: CharGame.Level, s: CharGame.State, d: CharGame.Dir)
    requires Sized(lv) && Physics.Consistent(Encode(lv, s), lv.height, lv.width)
  {
    var (moved, n) := CharGame.Move(lv.mapObj, s, d);
    var b := Encode(lv, s);
    var nb := Physics.Next(b, lv.height, lv.width, ActionOf(d));
    && (moved <==> !Physics.Blocked(Physics.Resolve(b, lv.height, lv.width, ActionOf(d))))
    && nb.player == n.player
    && nb.room == ConvertToAiMap(lv, n.stars, n.player)
    && multiset(nb.boxes) == multiset(n.stars)
  }

  /** `makeMove` in the character game and `step` in the numeric environment
      agree move for move on the converted grid, as long as the player does
      not walk off the map, which the character game allows. */
  lemma MoveRefines(lv: CharGame.Level, s: CharGame.State, d: CharGame.Dir)
    requires Faithful(lv, s) && InBounds(lv.height, lv.width, Add(s.player, CharGame.Offset(d)))
    ensures Physics.Consistent(Encode(lv, s), lv.height, lv.width)
    ensures Agrees(lv, s, d)
  {
    EncodeConsistent(lv, s);
    var m := lv.mapObj;
    var o := CharGame.Offset(d);
    var to := Add(s.player, o);
    var far := Add(to, o);
    if m[to.0][to.1] == '#' {
      WallRefines(lv, s, d);
    } else if to in s.stars {
      if !InBounds(lv.height, lv.width, far) || m[far.0][far.1] == '#' || far in s.stars {
        BlockedPush(lv, s, d);
      } else {
        PushRefines(lv, s, d);
      }
    } else {
      WalkRefines(lv, s, d);
    }
  }

  /** A wall ahead stops both games. */
  lemma WallRefines(lv: CharGame.Level, s: CharGame.State, d: CharGame.Dir)
    requires Faithful(lv, s) && Physics.Consistent(Encode(lv, s), lv.height, lv.width)
    requires var to := Add(s.player, CharGame.Offset(d));
      InBounds(lv.height, lv.width, to) && lv.mapObj[to.0][to.1] == '#'
    ensures Agrees(lv, s, d)
  {
    var b := Encode(lv, s);
    var to := Add(s.player, CharGame.Offset(d));
    assert b.room[to.0][to.1] == WALL;
    assert Physics.Resolve(b, lv.height, lv.width, ActionOf(d)) == Physics.IntoWall;
  }

  /** A star ahead whose far cell is off the grid, a wall or another star
      stops both games. */
  lemma BlockedPush(lv: CharGame.Level, s: CharGame.State, d: CharGame.Dir)
    requires Faithful(lv, s) && Physics.Consistent(Encode(lv, s), lv.height, lv.width)
    requires var to := Add(s.player, CharGame.Offset(d)); var far := Add(to, CharGame.Offset(d));
      InBounds(lv.height, lv.width, to) && lv.mapObj[to.0][to.1] != '#' && to in s.stars
      && (!InBounds(lv.height, lv.width, far) || lv.mapObj[far.0][far.1] == '#' || far in s.stars)
    ensures Agrees(lv, s, d)
  {
    var b := Encode(lv, s);
    var o := CharGame.Offset(d);
    var to := Add(s.player, o);
    var far := Add(to, o);
    assert b.room[to.0][to.1] == AiCell(lv, s.stars, s.player, to.0, to.1);
    assert far != s.player;
    if InBounds(lv.height, lv.width, far) {
      assert b.room[far.0][far.1] == AiCell(lv, s.stars, s.player, far.0, far.1);
    }
    assert Physics.Resolve(b, lv.height, lv.width, ActionOf(d)) == Physics.BoxBlocked;
    assert CharGame.Move(lv.mapObj, s, d) == (false, s);
  }

  /** A step onto an open cell without a star: the environment walks. */
  lemma WalkRefines(lv: CharGame.Level, s: CharGame.State, d: CharGame.Dir)
    requires Faithful(lv, s) && Physics.Consistent(Encode(lv, s), lv.height, lv.width)
    requires var to := Add(s.player, CharGame.Offset(d));
      InBounds(lv.height, lv.width, to) && lv.mapObj[to.0][to.1] != '#' && to !in s.stars
    ensures Agrees(lv, s, d)
  {
    var h, w := lv.height, lv.width;
    var b := Encode(lv, s);
    var a := ActionOf(d);
    var to := Add(s.player, CharGame.Offset(d));
    assert b.room[to.0][to.1] == AiCell(lv, s.stars, s.player, to.0, to.1);
    assert Physics.Resolve(b, h, w, a) == Physics.Walked;
    assert CharGame.Move(lv.mapObj, s, d) == (true, CharGame.State(to, s.stars));
    Physics.WalkMovesPlayer(b, h, w, a);
    var nroom := Physics.Next(b, h, w, a).room;
    var g := ConvertToAiMap(lv, s.stars, to);
    forall i, j | 0 <= i < h && 0 <= j < w ensures nroom[i][j] == g[i][j] {
      if (i, j) == s.player {
        assert s.player !in lv.goals;
      } else if (i, j) != to {
        assert b.room[i][j] == AiCell(lv, s.stars, s.player, i, j);
      }
    }
    GridExt(nroom, g, w);
  }

  /** A star ahead with an open far cell: the environment pushes, and the
      character game moves that star, at its own list index, to the far
      cell. */
  lemma PushRefines(lv: CharGame.Level, s: CharGame.State, d: CharGame.Dir)
    requires Faithful(lv, s) && Physics.Consistent(Encode(lv, s), lv.height, lv.width)
    requires var to := Add(s.player, CharGame.Offset(d)); var far := Add(to, CharGame.Offset(d));
      InBounds(lv.height, lv.width, to) && lv.mapObj[to.0][to.1] != '#' && to in s.stars
      && InBounds(lv.height, lv.width, far) && lv.mapObj[far.0][far.1] != '#' && far !in s.stars
    ensures Agrees(lv, s, d)
  {
    var h, w := lv.height, lv.width;
    var b := Encode(lv, s);
    var a := ActionOf(d);
    var to := Add(s.player, CharGame.Offset(d));
    var far := Add(to, CharGame.Offset(d));
    var ind := Physics.FirstIndex(s.stars, to);
    var moved := s.stars[ind := far];
    PushStep(lv, s, d);
    ReplaceMembers(s.stars, ind, to, far);
    CharGame.ReplaceMultiset(s.stars, ind, far);
    Physics.PushNext(b, h, w, a);
    PushGrid(lv, s.stars, moved, s.player, to, far, b.room);
  }

  /** Which branch a push takes in each game, and the facts about the three
      cells involved that the converted grids depend on. */
  lemma PushStep(lv: CharGame.Level, s: CharGame.State, d: CharGame.Dir)
    requires Faithful(lv, s) && Physics.Consistent(Encode(lv, s), lv.height, lv.width)
    requires var to := Add(s.player, CharGame.Offset(d)); var far := Add(to, CharGame.Offset(d));
      InBounds(lv.height, lv.width, to) && lv.mapObj[to.0][to.1] != '#' && to in s.stars
      && InBounds(lv.height, lv.width, far) && lv.mapObj[far.0][far.1] != '#' && far !in s.stars
    ensures var to := Add(s.player, CharGame.Offset(d)); var far := Add(to, CharGame.Offset(d));
      && Physics.Resolve(Encode(lv, s), lv.height, lv.width, ActionOf(d)) == Physics.Pushed
      && CharGame.Move(lv.mapObj, s, d) == (true, CharGame.State(to, s.stars[Physics.FirstIndex(s.stars, to) := far]))
      && lv.mapObj[s.player.0][s.player.1] != '.'
      && (far in lv.goals <==> lv.mapObj[far.0][far.1] == '.')
  {
    var m := lv.mapObj;
    var b := Encode(lv, s);
    var to := Add(s.player, CharGame.Offset(d));
    var far := Add(to, CharGame.Offset(d));
    assert b.room[to.0][to.1] == AiCell(lv, s.stars, s.player, to.0, to.1);
    assert far != s.player;
    assert b.room[far.0][far.1] == AiCell(lv, s.stars, s.player, far.0, far.1);
    assert m[far.0][far.1] != 'x';
    assert CharGame.OnMap(m, far.0, far.1);
    assert m[s.player.0][s.player.1] in CharGame.GOAL ==> s.player in lv.goals;
    assert m[far.0][far.1] == '*' ==> far in s.stars;
    assert far in lv.goals ==> m[far.0][far.1] in CharGame.GOAL;
  }

  /** The grid the environment leaves after a push is the conversion of the
      pushed state: the player on the box's old cell, floor where the player
      stood, the box on the far cell (on target exactly where the far cell
      showed a target), and every other cell as before. */
  lemma PushGrid(lv: CharGame.Level, stars: seq<Pos>, moved: seq<Pos>, player: Pos, to: Pos, far: Pos, g: Room)
    requires Sized(lv) && g == ConvertToAiMap(lv, stars, player)
    requires InBounds(lv.height, lv.width, player) && InBounds(lv.height, lv.width, to) && InBounds(lv.height, lv.width, far)
    requires player != to && player != far && to != far
    requires lv.mapObj[player.0][player.1] != '#' && lv.mapObj[player.0][player.1] != '.' && player !in stars
    requires lv.mapObj[to.0][to.1] != '#' && to in stars
    requires lv.mapObj[far.0][far.1] != '#' && far !in stars
    requires far in lv.goals <==> lv.mapObj[far.0][far.1] == '.'
    requires forall q :: q in moved <==> q == far || (q in stars && q != to)
    ensures Inside(g, player) && Inside(g, to) && Inside(g, far)
    ensures Physics.PushRoom(g, player, to, far) == ConvertToAiMap(lv, moved, to)
  {
    var v := At(g, to);
    var fv := At(g, far);
    var lifted := SetCell(g, to, if v == BOX then EMPTY else TARGET);
    var placed := SetCell(lifted, far, if fv == EMPTY then BOX else BOX_ON_TARGET);
    assert At(lifted, far) == fv;
    assert At(placed, player) == PLAYER;
    var r := Physics.PushRoom(g, player, to, far);
    assert r == Physics.MovePlayer(placed, player, to);
    var g1 := ConvertToAiMap(lv, moved, to);
    forall i, j | 0 <= i < lv.height && 0 <= j < lv.width ensures r[i][j] == g1[i][j] {
      var p := (i, j);
      if p != player && p != to && p != far {
        assert r[i][j] == placed[i][j] == lifted[i][j] == g[i][j];
        assert p in moved <==> p in stars;
      }
    }
    GridExt(r, g1, lv.width);
  }

  /** Replacing entry k of a list without repeats by a new position `y`
      removes exactly the old entry `x` and adds `y`. */
  lemma ReplaceMembers(s: seq<Pos>, k: nat, x: Pos, y: Pos)
    requires k < |s| && s[k] == x && Physics.Distinct(s)
    ensures forall q :: q in s[k := y] <==> q == y || (q in s && q != x)
  {
    assert s[k := y][k] == y;
    forall q ensures q in s[k := y] <==> q == y || (q in s && q != s[k]) {
      if q in s[k := y] {
        var i :| 0 <= i < |s| && s[k := y][i] == q;
        if i != k {
          assert q == s[i];
        }
      }
      if q in s && q != s[k] {
        var i :| 0 <= i < |s| && s[i] == q;
        assert s[k := y][i] == q;
      }
    }
  }
}
