/** `SokobanEnv`: the training environment as an object whose room is a
    two-dimensional array updated in place, with the bookkeeping fields the
    environment keeps beside it.  Each method is proved against the value
    model of the physics, reward and curriculum modules. */
module Environment {
  import opened Grid
  import opened Encoders
  import opened Physics
  import opened Rewards
  import opened Curriculum

  /** A level the environment can start from: the common shape, valid codes
      and a player cell. */
  predicate PlayableMap(m: Room, h: nat, w: nat)
  {
    Shaped(m, h, w) && AllCodes(m) && ScanPositions(m, w, {PLAYER}) != []
  }

  /** The board `reset` reads off a playable level: the first player cell in
      row-major order, every box cell once, and the count of boxes on targets. */
  function Loaded(m: Room, w: nat): (b: Board)
    requires WideEnough(m, w)
  {
    Board(m, if ScanPositions(m, w, {PLAYER}) == [] then (0, 0) else ScanPositions(m, w, {PLAYER})[0],
          ScanPositions(m, w, {BOX, BOX_ON_TARGET}), Count(m, BOX_ON_TARGET))
  }

  /** A playable level gives a consistent board whose targets lie inside it. */
  lemma LoadedConsistent(m: Room, h: nat, w: nat)
    requires PlayableMap(m, h, w)
    ensures Consistent(Loaded(m, w), h, w)
    ensures AllInside(m, ScanPositions(m, w, {TARGET, BOX_ON_TARGET}))
  {
    var b := Loaded(m, w);
    var ps := ScanPositions(m, w, {PLAYER});
    assert ps[0] in ps;
    RowMajorDistinct(b.boxes);
  }

  /** The environment's invariant on its board: consistent bookkeeping,
      valid codes and targets inside the room. */
  predicate Playable(b: Board, targets: seq<Pos>, h: nat, w: nat)
  {
    Consistent(b, h, w) && AllCodes(b.room) && AllInside(b.room, targets)
  }

  /** A step keeps the board playable. */
  lemma StepKeepsInvariant(b: Board, h: nat, w: nat, a: Action, targets: seq<Pos>)
    requires Playable(b, targets, h, w)
    ensures Playable(Next(b, h, w, a), targets, h, w)
  {
    NextConsistent(b, h, w, a);
    NextKeepsCodes(b, h, w, a);
    var n := Next(b, h, w, a);
    forall t | t in targets ensures Inside(n.room, t) {
      assert Inside(b.room, t);
    }
  }

  datatype ResetInfo = ResetInfo(mapIdx: int, boxesOnTarget: int, totalBoxes: int, curriculumPhase: int)

  datatype StepInfo = StepInfo(boxesOnTarget: int, totalBoxes: int, allBoxesOnTarget: bool, steps: int, curriculumPhase: int)

  /** The direction letter of the text view: U, D, L, R for actions 0..3 and
      X for anything else. */
  function DirectionLetter(a: int): (c: char)
    ensures c == 'X' <==> !(0 <= a < 4)
  {
    if a == 0 then 'U' else if a == 1 then 'D' else if a == 2 then 'L' else if a == 3 then 'R' else 'X'
  }

  /** Each letter names the offset its action moves by. */
  lemma DirectionLetterMatches(a: Action)
    ensures DirectionLetter(a) == 'U' <==> Direction(a) == (-1, 0)
    ensures DirectionLetter(a) == 'D' <==> Direction(a) == (1, 0)
    ensures DirectionLetter(a) == 'L' <==> Direction(a) == (0, -1)
    ensures DirectionLetter(a) == 'R' <==> Direction(a) == (0, 1)
  {
  }

  /** The listed targets on which the player now stands, in list order. */
  function PlayerOnTarget(room: Room, targets: seq<Pos>): (r: seq<Pos>)
    requires AllInside(room, targets)
    ensures forall t :: t in r <==> t in targets && At(room, t) == PLAYER
  {
    if targets == [] then []
    else (if At(room, targets[0]) == PLAYER then [targets[0]] else []) + PlayerOnTarget(room, targets[1..])
  }

  class SokobanEnv {
    const maps: seq<Room>
    const height: nat
    const width: nat
    var room: array2<int>
    var player: Pos
    var boxes: seq<Pos>
    var targets: seq<Pos>
    var onTarget: int
    var prevDistances: int
    var steps: int
    var phase: int
    var successBuffer: seq<int>
    var lastDirection: int
    var currentMap: int

    /** Every level has the shape of the first one, valid codes and a player. */
    ghost predicate MapsOk()
    {
      |maps| >= 1 && forall m :: m in maps ==> PlayableMap(m, height, width)
    }

    ghost function Board(): Board
      reads this, room
    {
      Physics.Board(Snapshot(room), player, boxes, onTarget)
    }

    ghost predicate Valid()
      reads this, room
    {
      MapsOk()
      && room.Length0 == height && room.Length1 == width
      && Playable(Board(), targets, height, width)
      && 0 <= phase <= LAST_PHASE
    }

    /** The environment starts in phase 0 with an empty buffer, so its first
        reset always loads the first level. */
    constructor (levels: seq<Room>)
      requires |levels| >= 1 && forall m :: m in levels ==> PlayableMap(m, |levels[0]|, Width(levels[0]))
      ensures Valid() && fresh(room)
      ensures maps == levels && phase == 0 && successBuffer == [] && currentMap == 0
      ensures Snapshot(room) == levels[0] && steps == 0 && lastDirection == 0
    {
      maps := levels;
      height := |levels[0]|;
      width := Width(levels[0]);
      phase := 0;
      successBuffer := [];
      lastDirection := 0;
      room := new int[0, 0];
      new;
      var obs, info := Reset(0);
    }

    /** The curriculum step at the start of `reset`. */
    method AdvanceCurriculum()
      requires 0 <= phase <= LAST_PHASE
      modifies this
      ensures Schedule(phase, successBuffer) == Update(old(Schedule(phase, successBuffer)))
      ensures 0 <= phase <= LAST_PHASE
      ensures room == old(room) && player == old(player) && boxes == old(boxes) && targets == old(targets)
      ensures onTarget == old(onTarget) && prevDistances == old(prevDistances) && steps == old(steps)
      ensures lastDirection == old(lastDirection) && currentMap == old(currentMap)
    {
      if |successBuffer| >= WINDOW {
        if 5 * Sum(successBuffer) >= 3 * |successBuffer| {
          if phase < LAST_PHASE {
            phase := phase + 1;
            successBuffer := [];
          }
        } else if 4 * Sum(successBuffer) < |successBuffer| && phase > 0 {
          phase := phase - 1;
          successBuffer := [];
        }
        if |successBuffer| > 2 * WINDOW {
          successBuffer := successBuffer[|successBuffer| - WINDOW..];
        }
      }
      UpdateBounds(old(Schedule(phase, successBuffer)));
    }

    /** A fresh copy of level `mapIdx`, with the player and the boxes read
        off it in row-major order. */
    method LoadMap(mapIdx: int)
      requires 0 <= mapIdx < |maps| && Shaped(maps[mapIdx], height, width)
      modifies this
      ensures fresh(room) && room.Length0 == height && room.Length1 == width
      ensures Board() == Loaded(maps[mapIdx], width) && currentMap == mapIdx
      ensures targets == old(targets) && prevDistances == old(prevDistances) && steps == old(steps)
      ensures lastDirection == old(lastDirection) && phase == old(phase) && successBuffer == old(successBuffer)
    {
      var m := maps[mapIdx];
      var b := Loaded(m, width);
      room := CopyRoom(m, height, width);
      player := b.player;
      boxes := b.boxes;
      onTarget := b.onTarget;
      currentMap := mapIdx;
    }

    /** The targets of level `m` in row-major order, the starting distance
        sum and a zero step counter. */
    method LoadTargets(m: Room)
      requires Shaped(m, height, width)
      modifies this
      ensures targets == ScanPositions(m, width, {TARGET, BOX_ON_TARGET})
      ensures prevDistances == Distances(m, boxes, targets) && steps == 0
      ensures room == old(room) && player == old(player) && boxes == old(boxes) && onTarget == old(onTarget)
      ensures currentMap == old(currentMap) && lastDirection == old(lastDirection)
      ensures phase == old(phase) && successBuffer == old(successBuffer)
    {
      targets := ScanPositions(m, width, {TARGET, BOX_ON_TARGET});
      prevDistances := Distances(m, boxes, targets);
      steps := 0;
    }

    /** `np.copy` of a level into a fresh array. */
    static method CopyRoom(m: Room, h: nat, w: nat) returns (g: array2<int>)
      requires Shaped(m, h, w)
      ensures fresh(g) && g.Length0 == h && g.Length1 == w && Snapshot(g) == m
    {
      g := new int[h, w]((i, j) => if 0 <= i < |m| && 0 <= j < |m[i]| then m[i][j] else EMPTY);
      GridExt(Snapshot(g), m, w);
    }

    /** `reset`: the curriculum step, then level `mapIdx`, which must lie in
        the range of the updated phase (the source draws it at random). */
    method Reset(mapIdx: int) returns (obs: array3<int>, info: ResetInfo)
      requires MapsOk() && 0 <= phase <= LAST_PHASE
      requires MapRange(|maps|, Update(Schedule(phase, successBuffer)).phase).0 <= mapIdx
      requires mapIdx < MapRange(|maps|, Update(Schedule(phase, successBuffer)).phase).1
      modifies this
      ensures Valid() && fresh(room)
      ensures Schedule(phase, successBuffer) == Update(old(Schedule(phase, successBuffer)))
      ensures 0 <= mapIdx < |maps| && Snapshot(room) == maps[mapIdx] && currentMap == mapIdx
      ensures Board() == Loaded(maps[mapIdx], width)
      ensures targets == ScanPositions(maps[mapIdx], width, {TARGET, BOX_ON_TARGET})
      ensures prevDistances == Distances(maps[mapIdx], boxes, targets)
      ensures steps == 0 && lastDirection == old(lastDirection)
      ensures info == ResetInfo(mapIdx, onTarget, |boxes|, ClampPhase(phase))
      ensures fresh(obs) && Observes(obs)
    {
      AdvanceCurriculum();
      MapRangeNonEmpty(|maps|, phase);
      var validPhase := ClampPhase(phase);
      assert maps[mapIdx] in maps;
      LoadedConsistent(maps[mapIdx], height, width);
      LoadMap(mapIdx);
      LoadTargets(maps[mapIdx]);
      obs := GetObservation();
      info := ResetInfo(mapIdx, onTarget, |boxes|, validPhase);
    }

    /** The seven-channel observation of the current room. */
    ghost predicate Observes(obs: array3<int>)
      reads this, room, obs
    {
      obs.Length0 == CHANNELS && obs.Length1 == room.Length0 && obs.Length2 == room.Length1
      && forall c, i, j :: 0 <= c < CHANNELS && 0 <= i < room.Length0 && 0 <= j < room.Length1
           ==> obs[c, i, j] == ObsValue(room[i, j], (i, j) in targets, c)
    }

    /** `_get_observation`: a zero array with, for every cell, the one channel
        of its code set to 1 (channel 2 for the player on a listed target). */
    method GetObservation() returns (obs: array3<int>)
      ensures fresh(obs) && Observes(obs)
    {
      var h, w := room.Length0, room.Length1;
      obs := new int[CHANNELS, h, w]((c, i, j) => 0);
      var i := 0;
      while i < h
        invariant 0 <= i <= h
        invariant forall c, x, y :: 0 <= c < CHANNELS && 0 <= x < h && 0 <= y < w ==>
          obs[c, x, y] == (if x < i then ObsValue(room[x, y], (x, y) in targets, c) else 0)
      {
        var j := 0;
        while j < w
          invariant 0 <= j <= w
          invariant forall c, x, y :: 0 <= c < CHANNELS && 0 <= x < h && 0 <= y < w ==>
            obs[c, x, y] == (if x < i || (x == i && y < j) then ObsValue(room[x, y], (x, y) in targets, c) else 0)
        {
          var ch := Channel(room[i, j], (i, j) in targets);
          if 0 <= ch < CHANNELS {
            obs[ch, i, j] := 1;
          }
          j := j + 1;
        }
        i := i + 1;
      }
    }

    /** One cell write of the room. */
    method WriteCell(p: Pos, v: int)
      requires 0 <= p.0 < room.Length0 && 0 <= p.1 < room.Length1
      modifies room
      ensures Snapshot(room) == SetCell(old(Snapshot(room)), p, v)
    {
      ghost var before := Snapshot(room);
      room[p.0, p.1] := v;
      GridExt(Snapshot(room), SetCell(before, p, v), room.Length1);
    }

    /** `_move_player`. */
    method MovePlayerTo(to: Pos)
      requires 0 <= player.0 < room.Length0 && 0 <= player.1 < room.Length1
      requires 0 <= to.0 < room.Length0 && 0 <= to.1 < room.Length1
      modifies this, room
      ensures room == old(room) && player == to
      ensures Snapshot(room) == MovePlayer(old(Snapshot(room)), old(player), to)
      ensures boxes == old(boxes) && targets == old(targets) && onTarget == old(onTarget)
      ensures steps == old(steps) && phase == old(phase) && successBuffer == old(successBuffer)
      ensures prevDistances == old(prevDistances) && lastDirection == old(lastDirection) && currentMap == old(currentMap)
    {
      if room[player.0, player.1] == PLAYER {
        WriteCell(player, EMPTY);
      } else {
        WriteCell(player, TARGET);
      }
      WriteCell(to, PLAYER);
      player := to;
    }

    /** The push branch of `step`, for the box at `np` and the free cell
        `far` behind it: the box's cell loses the box, `far` gains it, the box
        list swaps `np` for `far` at its end, and the player moves onto `np`. */
    method Push(np: Pos, far: Pos)
      requires InBounds(room.Length0, room.Length1, player)
      requires InBounds(room.Length0, room.Length1, np) && InBounds(room.Length0, room.Length1, far)
      requires far != player && np != player && np != far && np in boxes
      modifies this, room
      ensures room == old(room) && player == np
      ensures Snapshot(room) == PushRoom(old(Snapshot(room)), old(player), np, far)
      ensures boxes == RemoveFirst(old(boxes), np) + [far]
      ensures onTarget == old(onTarget) + OnTargetChange(old(room[np.0, np.1]), old(room[far.0, far.1]))
      ensures targets == old(targets) && steps == old(steps) && phase == old(phase)
      ensures successBuffer == old(successBuffer) && prevDistances == old(prevDistances)
      ensures lastDirection == old(lastDirection) && currentMap == old(currentMap)
    {
      ghost var before := Snapshot(room);
      var v := room[np.0, np.1];
      var fv := room[far.0, far.1];
      WriteCell(np, if v == BOX then EMPTY else TARGET);
      ghost var lifted := Snapshot(room);
      assert At(lifted, far) == fv;
      WriteCell(far, if fv == EMPTY then BOX else BOX_ON_TARGET);
      onTarget := onTarget + OnTargetChange(v, fv);
      boxes := RemoveFirst(boxes, np) + [far];
      MovePlayerTo(np);
    }

    /** The walk branch of `step`. */
    method Walk(a: Action)
      requires Valid() && Resolve(Board(), height, width, a) == Walked
      modifies this, room
      ensures room == old(room) && Board() == Next(old(Board()), height, width, a)
      ensures targets == old(targets) && steps == old(steps) && phase == old(phase)
      ensures successBuffer == old(successBuffer) && prevDistances == old(prevDistances)
      ensures lastDirection == old(lastDirection) && currentMap == old(currentMap)
    {
      MovePlayerTo(Add(player, Direction(a)));
    }

    /** The movement part of `step`: off the grid, into a wall or against a
        blocked box nothing moves; otherwise the player pushes or walks. */
    method Move(a: Action) returns (o: Outcome)
      requires Valid()
      modifies this, room
      ensures Valid() && room == old(room)
      ensures o == Resolve(old(Board()), height, width, a)
      ensures Board() == Next(old(Board()), height, width, a)
      ensures targets == old(targets) && steps == old(steps) && phase == old(phase)
      ensures successBuffer == old(successBuffer) && prevDistances == old(prevDistances)
      ensures lastDirection == old(lastDirection) && currentMap == old(currentMap)
    {
      ghost var b := Board();
      StepKeepsInvariant(b, height, width, a, targets);
      var d := Direction(a);
      var np := Add(player, d);
      var far := Add(np, d);
      o := OffGrid;
      if InBounds(height, width, np) {
        var v := room[np.0, np.1];
        if v == WALL {
          o := IntoWall;
        } else if v == BOX || v == BOX_ON_TARGET {
          if InBounds(height, width, far) && (room[far.0, far.1] == EMPTY || room[far.0, far.1] == TARGET) {
            PushNext(b, height, width, a);
            Push(np, far);
            o := Pushed;
          } else {
            o := BoxBlocked;
          }
        } else {
          Walk(a);
          o := Walked;
        }
      }
      if Blocked(o) {
        BlockedLeavesBoard(b, height, width, a);
      }
      assert Board() == Next(b, height, width, a);
    }

    /** The shaped part of `step`'s reward, accumulated term by term on the
        board after the move: the outcome's base cost, the push terms, the
        proximity and positioning bonuses and the push penalties.  It also
        yields the distance total `step` keeps for the next push. */
    method ShapeReward(o: Outcome, np: Pos, far: Pos, change: int) returns (reward: real, distances: int)
      requires Valid() && (o == Pushed ==> InBounds(height, width, far))
      ensures reward == ShapedReward(o, Board(), height, width, targets, prevDistances, change, np, far)
      ensures distances == if o == Pushed then Distances(Snapshot(room), boxes, targets) else prevDistances
    {
      var now := Snapshot(room);
      reward := if o == IntoWall then -0.1 else if o == BoxBlocked then -0.2 else -0.01;
      distances := prevDistances;
      if o == Pushed {
        reward := reward + OnTargetReward(change);
        distances := Distances(now, boxes, targets);
        reward := reward + DistanceShaping(prevDistances, distances);
        reward := reward + SpecificShaping(now, targets, np, far);
      }
      reward := reward + Proximity(now, height, width, player);
      reward := reward + Positioning(now, height, width, player, boxes, targets);
      if o == Pushed {
        reward := reward + AccessPenalty(now, height, width, far);
        reward := reward + CornerPenalty(now, height, width, boxes, targets);
      }
    }

    /** The move of `step` and the reward it earns, with the distance total
        to keep for the next push; the counters are left to `Step`. */
    method Play(a: Action) returns (o: Outcome, reward: real, distances: int)
      requires Valid()
      modifies this, room
      ensures Valid() && room == old(room)
      ensures o == Resolve(old(Board()), height, width, a)
      ensures Board() == Next(old(Board()), height, width, a)
      ensures reward == StepReward(old(Board()), height, width, targets, prevDistances, a)
      ensures distances == if o == Pushed then Distances(Snapshot(room), boxes, targets) else prevDistances
      ensures targets == old(targets) && steps == old(steps) && phase == old(phase)
      ensures successBuffer == old(successBuffer) && prevDistances == old(prevDistances)
      ensures lastDirection == old(lastDirection) && currentMap == old(currentMap)
    {
      ghost var b := Board();
      var np := Add(player, Direction(a));
      var far := Add(np, Direction(a));
      var before := onTarget;
      o := Move(a);
      distances := prevDistances;
      if o == OffGrid {
        reward := -0.1;
      } else {
        if o == Pushed {
          PushMovesOneBox(b, height, width, a);
        }
        reward, distances := ShapeReward(o, np, far, onTarget - before);
        if onTarget == |boxes| {
          reward := 10.0;
        }
      }
    }

    /** The bookkeeping of `step` after the move: the last action, the step
        counter, the kept distance total and the end of the episode, recorded
        in the success buffer.  The board is left alone. */
    method Tally(a: Action, o: Outcome, distances: int) returns (terminated: bool, truncated: bool)
      modifies this
      ensures Board() == old(Board()) && targets == old(targets) && phase == old(phase)
      ensures room == old(room) && currentMap == old(currentMap)
      ensures steps == old(steps) + 1 && lastDirection == a && prevDistances == distances
      ensures terminated <==> o != OffGrid && Won(Board())
      ensures truncated <==> o != OffGrid && steps >= MaxSteps(phase)
      ensures successBuffer == old(successBuffer) + (if terminated then [1] else []) + (if truncated then [0] else [])
    {
      lastDirection := a;
      steps := steps + 1;
      prevDistances := distances;
      terminated, truncated := false, false;
      if o != OffGrid {
        if onTarget == |boxes| {
          terminated := true;
          successBuffer := successBuffer + [1];
        }
        if steps >= MaxSteps(phase) {
          truncated := true;
          successBuffer := successBuffer + [0];
        }
      }
    }

    /** `step`: the move, the shaped reward of the new state and the episode
        end; the step counter advances even when nothing moves. */
    method Step(a: Action) returns (obs: array3<int>, reward: real, terminated: bool, truncated: bool, info: StepInfo)
      requires Valid()
      modifies this, room
      ensures Valid() && room == old(room)
      ensures Board() == Next(old(Board()), height, width, a)
      ensures reward == StepReward(old(Board()), height, width, targets, old(prevDistances), a)
      ensures steps == old(steps) + 1 && lastDirection == a
      ensures targets == old(targets) && phase == old(phase) && currentMap == old(currentMap)
      ensures prevDistances
           == if Resolve(old(Board()), height, width, a) == Pushed then Distances(Snapshot(room), boxes, targets)
              else old(prevDistances)
      ensures terminated <==> Resolve(old(Board()), height, width, a) != OffGrid && Won(Board())
      ensures truncated <==> Resolve(old(Board()), height, width, a) != OffGrid && steps >= MaxSteps(phase)
      ensures successBuffer == old(successBuffer) + (if terminated then [1] else []) + (if truncated then [0] else [])
      ensures info == StepInfo(onTarget, |boxes|, onTarget == |boxes|, steps, phase)
      ensures fresh(obs) && Observes(obs)
    {
      var o, distances;
      o, reward, distances := Play(a);
      terminated, truncated := Tally(a, o, distances);
      obs := GetObservation();
      info := StepInfo(onTarget, |boxes|, onTarget == |boxes|, steps, phase);
    }

    /** `get_text_representation`: the printed board, with the player shown
        as `+` on a listed target, and the letter of the last action. */
    function TextRepresentation(): (r: (string, char))
      requires Valid()
      reads this, room
      ensures r.1 == DirectionLetter(lastDirection)
    {
      (NumericalToChars(Snapshot(room), PlayerOnTarget(Snapshot(room), targets)), DirectionLetter(lastDirection))
    }
  }
}
