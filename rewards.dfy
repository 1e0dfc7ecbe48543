/** The reward shaper of `SokobanEnv.step`: box-on-target deltas, distance
    shaping, the positioning bonus, the accessibility and corner penalties and
    the completion override.  Rewards are exact reals. */
module Rewards {
  import opened Grid
  import opened Encoders
  import opened Physics

  predicate AllInside(room: Room, ps: seq<Pos>)
  {
    forall p :: p in ps ==> Inside(room, p)
  }

  /** The targets whose cell does not hold a box on target, in list order. */
  function Uncovered(room: Room, targets: seq<Pos>): (r: seq<Pos>)
    requires AllInside(room, targets)
    ensures forall t :: t in r <==> t in targets && At(room, t) != BOX_ON_TARGET
  {
    if targets == [] then []
    else (if At(room, targets[0]) != BOX_ON_TARGET then [targets[0]] else []) + Uncovered(room, targets[1..])
  }

  /** The index a left-to-right scan keeps when it replaces its choice only on
      a strictly smaller distance: the first of the nearest. */
  function Closest(b: Pos, ts: seq<Pos>): (k: nat)
    requires ts != []
    ensures k < |ts|
    ensures forall i :: 0 <= i < |ts| ==> Manhattan(b, ts[k]) <= Manhattan(b, ts[i])
    ensures forall i :: 0 <= i < k ==> Manhattan(b, ts[k]) < Manhattan(b, ts[i])
  {
    if |ts| == 1 then 0
    else
      var k := Closest(b, ts[..|ts| - 1]);
      if Manhattan(b, ts[|ts| - 1]) < Manhattan(b, ts[k]) then |ts| - 1 else k
  }

  /** The Manhattan distance from `b` to the nearest position of `ts`. */
  function Nearest(b: Pos, ts: seq<Pos>): (d: nat)
    requires ts != []
    ensures exists i :: 0 <= i < |ts| && d == Manhattan(b, ts[i])
    ensures forall i :: 0 <= i < |ts| ==> d <= Manhattan(b, ts[i])
  {
    Manhattan(b, ts[Closest(b, ts)])
  }

  lemma ManhattanTriangle(a: Pos, b: Pos, c: Pos)
    ensures Manhattan(a, c) <= Manhattan(a, b) + Manhattan(b, c)
  {
  }

  /** Moving the box by one cell changes its nearest-target distance by at
      most one in either direction. */
  lemma NearestLipschitz(a: Pos, c: Pos, ts: seq<Pos>)
    requires ts != []
    ensures Nearest(c, ts) <= Nearest(a, ts) + Manhattan(a, c)
    ensures Nearest(a, ts) <= Nearest(c, ts) + Manhattan(a, c)
  {
    var i := Closest(a, ts);
    ManhattanTriangle(c, a, ts[i]);
    var j := Closest(c, ts);
    ManhattanTriangle(a, c, ts[j]);
  }

  /** The sum, over the positions of `bs` not in `skip`, of the distance to
      the nearest of `ts`; nothing is added while `ts` is empty. */
  function SumNearest(bs: seq<Pos>, skip: seq<Pos>, ts: seq<Pos>): nat
  {
    if bs == [] then 0
    else (if bs[0] in skip || ts == [] then 0 else Nearest(bs[0], ts)) + SumNearest(bs[1..], skip, ts)
  }

  /** The sum is zero exactly when there is nothing to measure against or every
      counted position already stands on one of `ts`. */
  lemma {:induction false} SumNearestZero(bs: seq<Pos>, skip: seq<Pos>, ts: seq<Pos>)
    ensures SumNearest(bs, skip, ts) == 0 <==> ts == [] || forall p :: p in bs && p !in skip ==> p in ts
  {
    if bs != [] {
      SumNearestZero(bs[1..], skip, ts);
      if bs[0] !in skip && ts != [] {
        if bs[0] in ts {
          var i :| 0 <= i < |ts| && ts[i] == bs[0];
          assert Manhattan(bs[0], ts[i]) == 0;
        } else {
          forall i | 0 <= i < |ts| ensures Manhattan(bs[0], ts[i]) > 0 {
            assert ts[i] != bs[0];
          }
        }
      }
      assert forall p :: p in bs <==> p == bs[0] || p in bs[1..];
    }
  }

  /** `_calculate_distances`: boxes listed as targets are skipped; the others
      add their distance to the nearest target not holding a box on target. */
  function Distances(room: Room, boxes: seq<Pos>, targets: seq<Pos>): nat
    requires AllInside(room, targets)
  {
    SumNearest(boxes, targets, Uncovered(room, targets))
  }

  /** The distance sum is zero exactly when every target holds a box on
      target or every box stands on a listed target. */
  lemma DistancesZero(room: Room, boxes: seq<Pos>, targets: seq<Pos>)
    requires AllInside(room, targets)
    ensures Distances(room, boxes, targets) == 0
        <==> Uncovered(room, targets) == [] || forall p :: p in boxes ==> p in targets
  {
    var u := Uncovered(room, targets);
    SumNearestZero(boxes, targets, u);
    assert forall p :: p in u ==> p in targets;
  }

  /** `_calculate_box_target_distances`: plain boxes against empty targets,
      both read from the room in row-major order. */
  function BoxTargetDistances(room: Room, w: nat): nat
    requires WideEnough(room, w)
  {
    SumNearest(ScanPositions(room, w, {BOX}), [], ScanPositions(room, w, {TARGET}))
  }

  /** It is zero exactly when the room has no plain box or no empty target. */
  lemma BoxTargetDistancesZero(room: Room, w: nat)
    requires WideEnough(room, w)
    ensures BoxTargetDistances(room, w) == 0
        <==> ScanPositions(room, w, {BOX}) == [] || ScanPositions(room, w, {TARGET}) == []
  {
    var bs := ScanPositions(room, w, {BOX});
    var ts := ScanPositions(room, w, {TARGET});
    SumNearestZero(bs, [], ts);
    if bs != [] && ts != [] {
      assert bs[0] in bs && bs[0] !in ts;
    }
  }

  // ---------------------------------------------------------------------------
  // Reward pieces

  /** Placing boxes on targets earns 1.5 each; taking them off costs 0.5 each. */
  function OnTargetReward(change: int): (r: real)
    ensures r > 0.0 <==> change > 0
    ensures r < 0.0 <==> change < 0
    ensures change == 1 ==> r == 1.5
    ensures change == -1 ==> r == -0.5
  {
    if change > 0 then 1.5 * change as real
    else if change < 0 then -(0.5 * Abs(change) as real)
    else 0.0
  }

  /** Shaping on the change of the total distance: 0.3 per unit gained, 0.1
      per unit lost. */
  function DistanceShaping(prev: int, cur: int): (r: real)
    ensures r > 0.0 <==> cur < prev
    ensures r < 0.0 <==> cur > prev
    ensures -0.1 * Abs(cur - prev) as real <= r <= 0.3 * Abs(cur - prev) as real
  {
    var improvement := prev - cur;
    if improvement > 0 then 0.3 * improvement as real
    else if improvement < 0 then -(0.1 * Abs(improvement) as real)
    else 0.0
  }

  /** The extra 0.2 per unit the pushed box itself got closer to its nearest
      uncovered target; zero when there is none or it got no closer. */
  function SpecificShaping(room: Room, targets: seq<Pos>, from: Pos, to: Pos): (r: real)
    requires AllInside(room, targets)
    ensures r >= 0.0
  {
    var u := Uncovered(room, targets);
    if u == [] then 0.0
    else
      var improvement := Nearest(from, u) - Nearest(to, u);
      if improvement > 0 then 0.2 * improvement as real else 0.0
  }

  /** A one-cell push earns either nothing or exactly 0.2 from the per-box term. */
  lemma SpecificShapingOneCell(room: Room, targets: seq<Pos>, from: Pos, to: Pos)
    requires AllInside(room, targets) && Manhattan(from, to) == 1
    ensures SpecificShaping(room, targets, from, to) == 0.0 || SpecificShaping(room, targets, from, to) == 0.2
  {
    var u := Uncovered(room, targets);
    if u != [] {
      NearestLipschitz(from, to, u);
    }
  }

  /** The four neighbour offsets in the order the environment checks them. */
  const NEIGHBOURS: seq<Pos> := [(0, 1), (1, 0), (0, -1), (-1, 0)]

  /** The first of the offsets `ds` that lands in bounds on a box. */
  function NearBox(room: Room, h: nat, w: nat, p: Pos, ds: seq<Pos>): (r: bool)
    requires Shaped(room, h, w)
    ensures r <==> exists k :: 0 <= k < |ds| && InBounds(h, w, Add(p, ds[k])) && IsBox(room[p.0 + ds[k].0][p.1 + ds[k].1])
  {
    if ds == [] then false
    else
      var q := Add(p, ds[0]);
      if InBounds(h, w, q) && IsBox(room[q.0][q.1]) then true
      else
        var r := NearBox(room, h, w, p, ds[1..]);
        assert forall k :: 1 <= k < |ds| ==> ds[k] == ds[1..][k - 1];
        r
  }

  /** 0.05, once, for standing next to a box. */
  function Proximity(room: Room, h: nat, w: nat, p: Pos): (r: real)
    requires Shaped(room, h, w)
    ensures r == 0.05 <==> exists k :: 0 <= k < 4 && InBounds(h, w, Add(p, NEIGHBOURS[k]))
                                       && IsBox(room[p.0 + NEIGHBOURS[k].0][p.1 + NEIGHBOURS[k].1])
    ensures r == 0.0 || r == 0.05
  {
    if NearBox(room, h, w, p, NEIGHBOURS) then 0.05 else 0.0
  }

  /** The cell to push the box at `b` from to drive it toward `t`: behind the
      box along the axis of the larger offset, the column axis on a tie. */
  function PushCell(b: Pos, t: Pos): Pos
  {
    var dx := b.0 - t.0;
    var dy := b.1 - t.1;
    if Abs(dx) > Abs(dy) then
      if dx > 0 then (b.0 + 1, b.1) else (b.0 - 1, b.1)
    else
      if dy > 0 then (b.0, b.1 + 1) else (b.0, b.1 - 1)
  }

  /** The push cell is next to the box, on the side away from the target,
      and a tie between the axes goes to the column axis. */
  lemma PushCellBehindBox(b: Pos, t: Pos)
    ensures Manhattan(PushCell(b, t), b) == 1
    ensures b != t ==> Manhattan(PushCell(b, t), t) == Manhattan(b, t) + 1
    ensures Abs(b.0 - t.0) == Abs(b.1 - t.1) ==> PushCell(b, t).0 == b.0
    ensures Abs(b.0 - t.0) > Abs(b.1 - t.1) ==> PushCell(b, t).1 == b.1
  {
  }

  /** One box's share of the positioning bonus: 0.1 per unit the player is
      closer than 3 to the cell behind the box, when that cell is free. */
  function BoxPositioning(room: Room, h: nat, w: nat, player: Pos, targets: seq<Pos>, b: Pos): (r: real)
    requires Shaped(room, h, w) && InBounds(h, w, b) && AllInside(room, targets)
    ensures 0.0 <= r <= 0.3
    ensures r > 0.0 ==> room[b.0][b.1] != BOX_ON_TARGET && Uncovered(room, targets) != []
  {
    if room[b.0][b.1] == BOX_ON_TARGET then 0.0
    else
      var u := Uncovered(room, targets);
      if u == [] then 0.0
      else
        var c := PushCell(b, u[Closest(b, u)]);
        if InBounds(h, w, c) && room[c.0][c.1] != WALL && room[c.0][c.1] != BOX && room[c.0][c.1] != BOX_ON_TARGET then
          var d := Manhattan(player, c);
          if d < 3 then 0.1 * (3 - d) as real else 0.0
        else 0.0
  }

  /** `_calculate_player_positioning_reward`: the shares of all boxes. */
  function Positioning(room: Room, h: nat, w: nat, player: Pos, boxes: seq<Pos>, targets: seq<Pos>): (r: real)
    requires Shaped(room, h, w) && AllInside(room, targets)
    requires forall p :: p in boxes ==> InBounds(h, w, p)
    ensures 0.0 <= r <= 0.3 * |boxes| as real
  {
    if boxes == [] then 0.0
    else BoxPositioning(room, h, w, player, targets, boxes[0]) + Positioning(room, h, w, player, boxes[1..], targets)
  }

  /** The player standing on the free cell behind a box that is not on a
      target earns the full 0.3 for that box. */
  lemma PositioningFullShare(room: Room, h: nat, w: nat, targets: seq<Pos>, b: Pos)
    requires Shaped(room, h, w) && InBounds(h, w, b) && AllInside(room, targets)
    requires room[b.0][b.1] != BOX_ON_TARGET && Uncovered(room, targets) != []
    requires var c := PushCell(b, Uncovered(room, targets)[Closest(b, Uncovered(room, targets))]);
      InBounds(h, w, c) && room[c.0][c.1] == PLAYER
    ensures BoxPositioning(room, h, w, PushCell(b, Uncovered(room, targets)[Closest(b, Uncovered(room, targets))]), targets, b) == 0.3
  {
  }

  /** The number of the offsets `ds` that land in bounds on an empty, target
      or player cell. */
  function FreeSides(room: Room, h: nat, w: nat, p: Pos, ds: seq<Pos>): (n: nat)
    requires Shaped(room, h, w)
    ensures n <= |ds|
  {
    if ds == [] then 0
    else (if Free(room, h, w, Add(p, ds[0])) then 1 else 0) + FreeSides(room, h, w, p, ds[1..])
  }

  predicate Free(room: Room, h: nat, w: nat, q: Pos)
    requires Shaped(room, h, w)
  {
    InBounds(h, w, q) && (room[q.0][q.1] == EMPTY || room[q.0][q.1] == TARGET || room[q.0][q.1] == PLAYER)
  }

  /** `_is_box_accessible`: at least two of the four sides are free. */
  function IsBoxAccessible(room: Room, h: nat, w: nat, b: Pos): bool
    requires Shaped(room, h, w)
  {
    FreeSides(room, h, w, b, NEIGHBOURS) >= 2
  }

  /** A box is accessible exactly when two different sides of it are free. */
  lemma AccessibleTwoSides(room: Room, h: nat, w: nat, b: Pos)
    requires Shaped(room, h, w)
    ensures IsBoxAccessible(room, h, w, b)
        <==> exists k, l :: 0 <= k < l < 4 && Free(room, h, w, Add(b, NEIGHBOURS[k])) && Free(room, h, w, Add(b, NEIGHBOURS[l]))
  {
    var ds := NEIGHBOURS;
    assert ds[1..] == [(1, 0), (0, -1), (-1, 0)];
    assert ds[1..][1..] == [(0, -1), (-1, 0)];
    assert ds[1..][1..][1..] == [(-1, 0)];
    assert ds[1..][1..][1..][1..] == [];
    var f := seq(4, k requires 0 <= k < 4 => Free(room, h, w, Add(b, ds[k])));
    assert FreeSides(room, h, w, b, ds[1..][1..][1..]) == (if f[3] then 1 else 0);
    assert FreeSides(room, h, w, b, ds[1..][1..]) == (if f[2] then 1 else 0) + (if f[3] then 1 else 0);
    assert FreeSides(room, h, w, b, ds)
        == (if f[0] then 1 else 0) + (if f[1] then 1 else 0) + (if f[2] then 1 else 0) + (if f[3] then 1 else 0);
  }

  predicate WallAt(room: Room, h: nat, w: nat, q: Pos)
    requires Shaped(room, h, w)
  {
    InBounds(h, w, q) && room[q.0][q.1] == WALL
  }

  /** The offset pairs of the corner check: each (d1, d2) tests the cells
      b + (d1, d2) and b + (d2, d1). */
  const CORNER_PAIRS: seq<Pos> := [(0, 1), (0, -1), (1, 0), (-1, 0)]

  function CornerFrom(room: Room, h: nat, w: nat, b: Pos, ds: seq<Pos>): bool
    requires Shaped(room, h, w)
  {
    if ds == [] then false
    else
      var p1 := (b.0 + ds[0].0, b.1 + ds[0].1);
      var p2 := (b.0 + ds[0].1, b.1 + ds[0].0);
      (InBounds(h, w, p1) && InBounds(h, w, p2) && room[p1.0][p1.1] == WALL && room[p2.0][p2.1] == WALL)
      || CornerFrom(room, h, w, b, ds[1..])
  }

  /** The deadlock corner test of `step`. */
  function IsCorner(room: Room, h: nat, w: nat, b: Pos): bool
    requires Shaped(room, h, w)
  {
    CornerFrom(room, h, w, b, CORNER_PAIRS)
  }

  /** Only two of the four corner orientations are detected: walls to the
      right and below, or to the left and above. */
  lemma CornerOrientations(room: Room, h: nat, w: nat, b: Pos)
    requires Shaped(room, h, w)
    ensures IsCorner(room, h, w, b)
        <==> ((WallAt(room, h, w, (b.0, b.1 + 1)) && WallAt(room, h, w, (b.0 + 1, b.1)))
              || (WallAt(room, h, w, (b.0, b.1 - 1)) && WallAt(room, h, w, (b.0 - 1, b.1))))
  {
    var ds := CORNER_PAIRS;
    assert ds[1..] == [(0, -1), (1, 0), (-1, 0)];
    assert ds[1..][1..] == [(1, 0), (-1, 0)];
    assert ds[1..][1..][1..] == [(-1, 0)];
    assert ds[1..][1..][1..][1..] == [];
    var rd := WallAt(room, h, w, (b.0, b.1 + 1)) && WallAt(room, h, w, (b.0 + 1, b.1));
    var lu := WallAt(room, h, w, (b.0, b.1 - 1)) && WallAt(room, h, w, (b.0 - 1, b.1));
    assert CornerFrom(room, h, w, b, ds[1..][1..][1..]) == lu;
    assert CornerFrom(room, h, w, b, ds[1..][1..]) == (rd || lu);
    assert CornerFrom(room, h, w, b, ds[1..]) == (lu || rd || lu);
  }

  /** A box with walls above and to its right is not seen as cornered. */
  lemma UpperRightCornerMissed()
    ensures var room := [[WALL, WALL], [BOX, WALL]];
      Shaped(room, 2, 2) && !IsCorner(room, 2, 2, (1, 0))
  {
    var room := [[WALL, WALL], [BOX, WALL]];
    CornerOrientations(room, 2, 2, (1, 0));
  }

  /** -0.4 for every box not on a target cell that sits in a detected corner
      and is not a listed target. */
  function CornerPenalty(room: Room, h: nat, w: nat, boxes: seq<Pos>, targets: seq<Pos>): (r: real)
    requires Shaped(room, h, w)
    requires forall p :: p in boxes ==> InBounds(h, w, p)
    ensures -0.4 * |boxes| as real <= r <= 0.0
  {
    if boxes == [] then 0.0
    else
      var b := boxes[0];
      assert b in boxes;
      assert InBounds(h, w, b);
      assert |room[b.0]| == w;
      (if room[b.0][b.1] != BOX_ON_TARGET && IsCorner(room, h, w, b) && b !in targets then -0.4 else 0.0)
      + CornerPenalty(room, h, w, boxes[1..], targets)
  }

  /** -0.8 when the pushed box ends with fewer than two free sides and not on a target. */
  function AccessPenalty(room: Room, h: nat, w: nat, b: Pos): (r: real)
    requires Shaped(room, h, w) && InBounds(h, w, b)
    ensures r == -0.8 <==> !IsBoxAccessible(room, h, w, b) && room[b.0][b.1] != BOX_ON_TARGET
    ensures r == 0.0 || r == -0.8
  {
    if !IsBoxAccessible(room, h, w, b) && room[b.0][b.1] != BOX_ON_TARGET then -0.8 else 0.0
  }

  // ---------------------------------------------------------------------------
  // The reward of one step

  /** Every box is on a target. */
  predicate Won(b: Board)
  {
    b.onTarget == |b.boxes|
  }

  /** The reward of a step that stays on the grid without completing the
      level, from the board `n` after the move: the move's base penalty, the
      push terms (on-target change, distance shaping, the pushed box's own
      progress), proximity and positioning, and the push penalties. */
  function ShapedReward(o: Outcome, n: Board, h: nat, w: nat, targets: seq<Pos>, prevDist: int,
                        change: int, np: Pos, far: Pos): real
    requires Shaped(n.room, h, w) && AllInside(n.room, targets)
    requires forall p :: p in n.boxes ==> InBounds(h, w, p)
    requires o == Pushed ==> InBounds(h, w, far)
  {
    var base := if o == IntoWall then -0.1 else if o == BoxBlocked then -0.2 else -0.01;
    var pushed :=
      if o == Pushed then
        OnTargetReward(change) + DistanceShaping(prevDist, Distances(n.room, n.boxes, targets))
        + SpecificShaping(n.room, targets, np, far)
      else 0.0;
    var penalties :=
      if o == Pushed then AccessPenalty(n.room, h, w, far) + CornerPenalty(n.room, h, w, n.boxes, targets)
      else 0.0;
    base + pushed + Proximity(n.room, h, w, n.player) + Positioning(n.room, h, w, n.player, n.boxes, targets) + penalties
  }

  /** The reward `step` returns for action `a`, given the distance total
      remembered from the last push. */
  function StepReward(b: Board, h: nat, w: nat, targets: seq<Pos>, prevDist: int, a: Action): real
    requires Consistent(b, h, w) && AllInside(b.room, targets)
  {
    var o := Resolve(b, h, w, a);
    NextConsistent(b, h, w, a);
    var n := Next(b, h, w, a);
    var np := Add(b.player, Direction(a));
    var far := Add(np, Direction(a));
    if o == OffGrid then -0.1
    else if Won(n) then 10.0
    else
      assert AllInside(n.room, targets) by {
        forall t | t in targets ensures Inside(n.room, t) {
          assert Inside(b.room, t);
        }
      }
      assert o == Pushed ==> InBounds(h, w, far) by {
        if o == Pushed {
          PushMovesOneBox(b, h, w, a);
        }
      }
      ShapedReward(o, n, h, w, targets, prevDist, n.onTarget - b.onTarget, np, far)
  }

  /** Leaving the grid costs exactly 0.1 and nothing else is counted. */
  lemma OffGridReward(b: Board, h: nat, w: nat, targets: seq<Pos>, prevDist: int, a: Action)
    requires Consistent(b, h, w) && AllInside(b.room, targets)
    requires Resolve(b, h, w, a) == OffGrid
    ensures StepReward(b, h, w, targets, prevDist, a) == -0.1
  {
  }

  /** Any step on the grid that ends with every box on a target earns exactly 10. */
  lemma CompletionOverride(b: Board, h: nat, w: nat, targets: seq<Pos>, prevDist: int, a: Action)
    requires Consistent(b, h, w) && AllInside(b.room, targets)
    requires Resolve(b, h, w, a) != OffGrid && Won(Next(b, h, w, a))
    ensures StepReward(b, h, w, targets, prevDist, a) == 10.0
  {
  }

  /** A blocked move inside the grid that does not complete the level earns
      the blocked penalty (0.1 into a wall, 0.2 against a stuck box) plus only
      the proximity and positioning terms of the unchanged board. */
  lemma BlockedReward(b: Board, h: nat, w: nat, targets: seq<Pos>, prevDist: int, a: Action)
    requires Consistent(b, h, w) && AllInside(b.room, targets)
    requires Resolve(b, h, w, a) == IntoWall || Resolve(b, h, w, a) == BoxBlocked
    requires !Won(b)
    ensures StepReward(b, h, w, targets, prevDist, a)
         == (if Resolve(b, h, w, a) == IntoWall then -0.1 else -0.2)
            + Proximity(b.room, h, w, b.player) + Positioning(b.room, h, w, b.player, b.boxes, targets)
  {
    BlockedLeavesBoard(b, h, w, a);
  }
}
