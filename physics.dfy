/** The push physics of the numeric-grid environment (`SokobanEnv.step` and
    `_move_player`), stated on values: a board is the room grid together with
    the bookkeeping the environment keeps beside it. */
module Physics {
  import opened Grid
  import opened Encoders

  /** An index into the environment's four-action space. */
  type Action = a: int | 0 <= a < 4

  /** Actions 0..3 move up, down, left and right, as (row, column) offsets:
      one cell along exactly one axis. */
  function Direction(a: Action): (d: Pos)
    ensures (d.0 == 0) != (d.1 == 0) && -1 <= d.0 <= 1 && -1 <= d.1 <= 1
  {
    if a == 0 then (-1, 0) else if a == 1 then (1, 0) else if a == 2 then (0, -1) else (0, 1)
  }

  predicate IsBox(v: int)
  {
    v == BOX || v == BOX_ON_TARGET
  }

  /** The room, the player position, the box list in the environment's own
      order and the count of boxes on targets. */
  datatype Board = Board(room: Room, player: Pos, boxes: seq<Pos>, onTarget: int)

  predicate Distinct(s: seq<Pos>)
  {
    forall i, j :: 0 <= i < j < |s| ==> s[i] != s[j]
  }

  predicate Shaped(room: Room, h: nat, w: nat)
  {
    |room| == h && IsRect(room, w)
  }

  /** The bookkeeping agrees with the room: the player stands on a player
      cell, the box list holds each box cell exactly once, and the on-target
      count is the number of box-on-target cells. */
  predicate Consistent(b: Board, h: nat, w: nat)
  {
    Shaped(b.room, h, w)
    && InBounds(h, w, b.player) && b.room[b.player.0][b.player.1] == PLAYER
    && (forall p :: p in b.boxes ==> InBounds(h, w, p) && IsBox(b.room[p.0][p.1]))
    && (forall i, j :: 0 <= i < h && 0 <= j < w && IsBox(b.room[i][j]) ==> (i, j) in b.boxes)
    && Distinct(b.boxes)
    && b.onTarget == Count(b.room, BOX_ON_TARGET)
  }

  /** What an action runs into. */
  datatype Outcome = OffGrid | IntoWall | BoxBlocked | Walked | Pushed

  predicate Blocked(o: Outcome)
  {
    o == OffGrid || o == IntoWall || o == BoxBlocked
  }

  /** The branch `step` takes for action `a`. */
  function Resolve(b: Board, h: nat, w: nat, a: Action): Outcome
    requires Shaped(b.room, h, w)
  {
    var d := Direction(a);
    var np := Add(b.player, d);
    if !InBounds(h, w, np) then OffGrid
    else
      var v := b.room[np.0][np.1];
      if v == WALL then IntoWall
      else if IsBox(v) then
        var far := Add(np, d);
        if !InBounds(h, w, far) then BoxBlocked
        else if b.room[far.0][far.1] == EMPTY || b.room[far.0][far.1] == TARGET then Pushed
        else BoxBlocked
      else Walked
  }

  /** `_move_player`: the vacated cell becomes empty if it shows the player
      (a target otherwise) and the destination shows the player. */
  function MovePlayer(room: Room, from: Pos, to: Pos): (r: Room)
    requires Inside(room, from) && Inside(room, to)
    ensures |r| == |room| && forall i :: 0 <= i < |room| ==> |r[i]| == |room[i]|
    ensures r[to.0][to.1] == PLAYER
    ensures from != to ==> r[from.0][from.1] == (if At(room, from) == PLAYER then EMPTY else TARGET)
    ensures forall i, j :: 0 <= i < |room| && 0 <= j < |room[i]| && (i, j) != from && (i, j) != to ==> r[i][j] == room[i][j]
  {
    var vacated := SetCell(room, from, if At(room, from) == PLAYER then EMPTY else TARGET);
    SetCell(vacated, to, PLAYER)
  }

  /** The index of the first occurrence of `x` in `s`. */
  function FirstIndex(s: seq<Pos>, x: Pos): (i: nat)
    requires x in s
    ensures i < |s| && s[i] == x && x !in s[..i]
  {
    if s[0] == x then 0 else 1 + FirstIndex(s[1..], x)
  }

  /** Python's `list.remove(x)`: drop the first occurrence of `x`. */
  function RemoveFirst(s: seq<Pos>, x: Pos): (r: seq<Pos>)
    requires x in s
    ensures multiset(r) == multiset(s) - multiset{x}
  {
    var i := FirstIndex(s, x);
    assert s == s[..i] + [x] + s[i + 1..];
    s[..i] + s[i + 1..]
  }

  /** How the on-target count changes when a box leaves a cell holding `v`
      for a cell holding `fv`. */
  function OnTargetChange(v: int, fv: int): int
  {
    (if fv == TARGET then 1 else 0) - (if v == BOX_ON_TARGET then 1 else 0)
  }

  /** The board after action `a`. */
  function Next(b: Board, h: nat, w: nat, a: Action): Board
    requires Consistent(b, h, w)
  {
    var d := Direction(a);
    var np := Add(b.player, d);
    match Resolve(b, h, w, a)
    case Walked =>
      b.(room := MovePlayer(b.room, b.player, np), player := np)
    case Pushed =>
      var far := Add(np, d);
      Board(PushRoom(b.room, b.player, np, far), np, RemoveFirst(b.boxes, np) + [far],
            b.onTarget + OnTargetChange(b.room[np.0][np.1], b.room[far.0][far.1]))
    case _ => b
  }

  /** The pushed board spelled out cell by cell, for callers that build it
      one write at a time. */
  lemma PushNext(b: Board, h: nat, w: nat, a: Action)
    requires Consistent(b, h, w) && Resolve(b, h, w, a) == Pushed
    ensures var np := Add(b.player, Direction(a)); var far := Add(np, Direction(a));
      && Inside(b.room, np) && Inside(b.room, far) && far != b.player && np != b.player && np != far
      && np in b.boxes
      && Next(b, h, w, a)
         == Board(PushRoom(b.room, b.player, np, far), np, RemoveFirst(b.boxes, np) + [far],
                  b.onTarget + OnTargetChange(At(b.room, np), At(b.room, far)))
  {
    var d := Direction(a);
    var np := Add(b.player, d);
    var far := Add(np, d);
    assert IsBox(b.room[np.0][np.1]);
  }

  /** The room after the box at `np` is pushed to `far` by the player at
      `from`: the box's cell loses the box (keeping its target), the far cell
      gains it (as a box on target if it was a target), then the player moves. */
  function PushRoom(room: Room, from: Pos, np: Pos, far: Pos): Room
    requires Inside(room, from) && Inside(room, np) && Inside(room, far)
  {
    var lifted := SetCell(room, np, if At(room, np) == BOX then EMPTY else TARGET);
    var placed := SetCell(lifted, far, if At(room, far) == EMPTY then BOX else BOX_ON_TARGET);
    MovePlayer(placed, from, np)
  }

  /** The number of boxes on targets after a push changes by exactly the
      push's on-target change. */
  lemma PushRoomCount(room: Room, from: Pos, np: Pos, far: Pos)
    requires Inside(room, from) && Inside(room, np) && Inside(room, far)
    requires from != np && from != far && np != far
    requires At(room, from) == PLAYER && IsBox(At(room, np)) && (At(room, far) == EMPTY || At(room, far) == TARGET)
    ensures Count(PushRoom(room, from, np, far), BOX_ON_TARGET)
         == Count(room, BOX_ON_TARGET) + OnTargetChange(At(room, np), At(room, far))
  {
    var v := At(room, np);
    var fv := At(room, far);
    var lifted := SetCell(room, np, if v == BOX then EMPTY else TARGET);
    var placed := SetCell(lifted, far, if fv == EMPTY then BOX else BOX_ON_TARGET);
    assert At(lifted, far) == fv;
    assert At(placed, from) == PLAYER;
    var vacated := SetCell(placed, from, EMPTY);
    assert PushRoom(room, from, np, far) == SetCell(vacated, np, PLAYER);
    assert At(vacated, np) == (if v == BOX then EMPTY else TARGET);
    CountSetCell(room, np, if v == BOX then EMPTY else TARGET, BOX_ON_TARGET);
    CountSetCell(lifted, far, if fv == EMPTY then BOX else BOX_ON_TARGET, BOX_ON_TARGET);
    CountSetCell(placed, from, EMPTY, BOX_ON_TARGET);
    CountSetCell(vacated, np, PLAYER, BOX_ON_TARGET);
  }

  /** Removing `x` from a list without repeats and appending a new `y` keeps
      it without repeats, and changes its elements by exactly those two. */
  lemma ReplaceDistinct(s: seq<Pos>, x: Pos, y: Pos)
    requires Distinct(s) && x in s && y !in s
    ensures Distinct(RemoveFirst(s, x) + [y])
    ensures forall p :: p in RemoveFirst(s, x) + [y] <==> (p in s && p != x) || p == y
  {
    var rest := RemoveFirst(s, x);
    var i := FirstIndex(s, x);
    assert rest == s[..i] + s[i + 1..];
    assert |rest| == |s| - 1;
    assert forall k :: 0 <= k < |rest| ==> rest[k] == s[if k < i then k else k + 1];
    forall p ensures p in rest <==> p in s && p != x {
      if p in rest {
        var k :| 0 <= k < |rest| && rest[k] == p;
        var l := if k < i then k else k + 1;
        assert s[l] == p && l != i;
      }
      if p in s && p != x {
        var l :| 0 <= l < |s| && s[l] == p;
        assert l != i;
        var k := if l < i then l else l - 1;
        assert rest[k] == p;
      }
    }
    var r := rest + [y];
    forall a, c | 0 <= a < c < |r| ensures r[a] != r[c] {
      if c < |rest| {
        var k := if a < i then a else a + 1;
        var l := if c < i then c else c + 1;
        assert rest[a] == s[k] && rest[c] == s[l];
      } else {
        assert rest[a] in rest;
      }
    }
  }

  // ---------------------------------------------------------------------------
  // Properties of one step

  /** A blocked action leaves the whole board as it was; every other action
      moves the player. */
  lemma BlockedLeavesBoard(b: Board, h: nat, w: nat, a: Action)
    requires Consistent(b, h, w)
    ensures Blocked(Resolve(b, h, w, a)) ==> Next(b, h, w, a) == b
    ensures Next(b, h, w, a).player == b.player <==> Blocked(Resolve(b, h, w, a))
  {
  }

  /** A walk moves the player one cell and nothing else but the two cells it
      leaves and enters. */
  lemma WalkMovesPlayer(b: Board, h: nat, w: nat, a: Action)
    requires Consistent(b, h, w) && Resolve(b, h, w, a) == Walked
    ensures var n := Next(b, h, w, a); var np := Add(b.player, Direction(a));
      && n.player == np
      && n.boxes == b.boxes && n.onTarget == b.onTarget
      && n.room[np.0][np.1] == PLAYER && n.room[b.player.0][b.player.1] == EMPTY
      && forall i, j :: 0 <= i < h && 0 <= j < w && (i, j) != np && (i, j) != b.player ==> n.room[i][j] == b.room[i][j]
  {
  }

  /** A push moves exactly one box one cell in the action's direction: the
      player takes the box's old cell, the box lands on the far cell (as a box
      on target if that cell was a target), the box list loses the old cell
      once and gains the new one, and the on-target count changes by -1, 0 or
      +1 accordingly. */
  lemma PushMovesOneBox(b: Board, h: nat, w: nat, a: Action)
    requires Consistent(b, h, w) && Resolve(b, h, w, a) == Pushed
    ensures var n := Next(b, h, w, a);
      var d := Direction(a); var np := Add(b.player, d); var far := Add(np, d);
      && InBounds(h, w, np) && InBounds(h, w, far)
      && IsBox(b.room[np.0][np.1])
      && (b.room[far.0][far.1] == EMPTY || b.room[far.0][far.1] == TARGET)
      && n.player == np
      && multiset(n.boxes) == multiset(b.boxes) - multiset{np} + multiset{far}
      && n.boxes == RemoveFirst(b.boxes, np) + [far]
      && n.room[far.0][far.1] == (if b.room[far.0][far.1] == TARGET then BOX_ON_TARGET else BOX)
      && n.room[np.0][np.1] == PLAYER
      && n.room[b.player.0][b.player.1] == EMPTY
      && (forall i, j :: 0 <= i < h && 0 <= j < w && (i, j) != b.player && (i, j) != np && (i, j) != far
            ==> n.room[i][j] == b.room[i][j])
      && n.onTarget - b.onTarget == OnTargetChange(b.room[np.0][np.1], b.room[far.0][far.1])
      && -1 <= n.onTarget - b.onTarget <= 1
  {
    var d := Direction(a);
    var np := Add(b.player, d);
    var far := Add(np, d);
  }

  /** The player's vacated cell always becomes empty: `_move_player` tests the
      vacated cell for the player code, which it always holds, so a target
      the player stood on is erased from the room. */
  lemma MovePlayerErasesTarget(b: Board, h: nat, w: nat, a: Action)
    requires Consistent(b, h, w) && !Blocked(Resolve(b, h, w, a))
    ensures Next(b, h, w, a).room[b.player.0][b.player.1] == EMPTY
  {
    if Resolve(b, h, w, a) == Pushed {
      PushMovesOneBox(b, h, w, a);
    }
  }

  /** A step keeps the bookkeeping consistent with the room. */
  lemma NextConsistent(b: Board, h: nat, w: nat, a: Action)
    requires Consistent(b, h, w)
    ensures Consistent(Next(b, h, w, a), h, w)
  {
    var o := Resolve(b, h, w, a);
    if o == Walked {
      WalkConsistent(b, h, w, a);
    } else if o == Pushed {
      PushConsistent(b, h, w, a);
    } else {
      assert Next(b, h, w, a) == b;
    }
  }

  lemma WalkConsistent(b: Board, h: nat, w: nat, a: Action)
    requires Consistent(b, h, w) && Resolve(b, h, w, a) == Walked
    ensures Consistent(Next(b, h, w, a), h, w)
  {
    var d := Direction(a);
    var np := Add(b.player, d);
    assert InBounds(h, w, np) && !IsBox(b.room[np.0][np.1]);
    var n := b.(room := MovePlayer(b.room, b.player, np), player := np);
    assert Next(b, h, w, a) == n;
    MovePlayerKeepsCount(b.room, b.player, np);
    MovePlayerKeepsBoxCells(b.room, h, w, b.boxes, b.player, np);
    assert Consistent(n, h, w);
  }

  /** Moving the player onto a cell without a box on target keeps the count
      of boxes on targets. */
  lemma MovePlayerKeepsCount(room: Room, from: Pos, to: Pos)
    requires Inside(room, from) && Inside(room, to) && from != to
    requires At(room, from) == PLAYER && At(room, to) != BOX_ON_TARGET
    ensures Count(MovePlayer(room, from, to), BOX_ON_TARGET) == Count(room, BOX_ON_TARGET)
  {
    var vacated := SetCell(room, from, EMPTY);
    CountSetCell(room, from, EMPTY, BOX_ON_TARGET);
    CountSetCell(vacated, to, PLAYER, BOX_ON_TARGET);
  }

  /** Moving the player between two cells without boxes keeps every box cell
      listed and every listed cell a box. */
  lemma MovePlayerKeepsBoxCells(room: Room, h: nat, w: nat, boxes: seq<Pos>, from: Pos, to: Pos)
    requires Shaped(room, h, w) && InBounds(h, w, from) && InBounds(h, w, to)
    requires !IsBox(room[from.0][from.1]) && !IsBox(room[to.0][to.1])
    requires forall p :: p in boxes ==> InBounds(h, w, p) && IsBox(room[p.0][p.1])
    requires forall i, j :: 0 <= i < h && 0 <= j < w && IsBox(room[i][j]) ==> (i, j) in boxes
    ensures var r := MovePlayer(room, from, to);
      && (forall p :: p in boxes ==> InBounds(h, w, p) && IsBox(r[p.0][p.1]))
      && (forall i, j :: 0 <= i < h && 0 <= j < w && IsBox(r[i][j]) ==> (i, j) in boxes)
  {
    var r := MovePlayer(room, from, to);
    forall p | p in boxes ensures InBounds(h, w, p) && IsBox(r[p.0][p.1]) {
      assert p != from && p != to;
    }
    forall i, j | 0 <= i < h && 0 <= j < w && IsBox(r[i][j]) ensures (i, j) in boxes {
      assert (i, j) != from && (i, j) != to;
    }
  }

  lemma PushConsistent(b: Board, h: nat, w: nat, a: Action)
    requires Consistent(b, h, w) && Resolve(b, h, w, a) == Pushed
    ensures Consistent(Next(b, h, w, a), h, w)
  {
    var np := Add(b.player, Direction(a));
    var far := Add(np, Direction(a));
    PushNext(b, h, w, a);
    var n := Next(b, h, w, a);
    var r := PushRoom(b.room, b.player, np, far);
    assert n.room == r && n.player == np && n.boxes == RemoveFirst(b.boxes, np) + [far];
    assert At(b.room, b.player) == PLAYER && IsBox(At(b.room, np));
    assert At(b.room, far) == EMPTY || At(b.room, far) == TARGET;
    PushRoomCells(b.room, b.player, np, far);
    assert Shaped(r, h, w);
    assert InBounds(h, w, np) && r[np.0][np.1] == PLAYER;
    assert n.onTarget == Count(r, BOX_ON_TARGET) by {
      PushRoomCount(b.room, b.player, np, far);
    }
    PushRoomBoxCells(b.room, h, w, b.boxes, b.player, np, far);
  }

  /** The cells a push writes: the far cell gains the box, the box's cell
      takes the player, the player's cell is vacated; nothing else changes. */
  lemma PushRoomCells(room: Room, from: Pos, np: Pos, far: Pos)
    requires Inside(room, from) && Inside(room, np) && Inside(room, far)
    requires from != np && from != far && np != far
    ensures var r := PushRoom(room, from, np, far);
      && |r| == |room| && (forall i :: 0 <= i < |room| ==> |r[i]| == |room[i]|)
      && r[far.0][far.1] == (if At(room, far) == EMPTY then BOX else BOX_ON_TARGET)
      && r[np.0][np.1] == PLAYER
      && r[from.0][from.1] == (if At(room, from) == PLAYER then EMPTY else TARGET)
      && (forall i, j :: 0 <= i < |room| && 0 <= j < |room[i]| && (i, j) != from && (i, j) != np && (i, j) != far
            ==> r[i][j] == room[i][j])
  {
    var lifted := SetCell(room, np, if At(room, np) == BOX then EMPTY else TARGET);
    var placed := SetCell(lifted, far, if At(room, far) == EMPTY then BOX else BOX_ON_TARGET);
    assert At(placed, from) == At(room, from);
  }

  /** After a push the box list, with the pushed box's old cell removed and
      the far cell appended, again lists every box cell exactly once. */
  lemma PushRoomBoxCells(room: Room, h: nat, w: nat, boxes: seq<Pos>, from: Pos, np: Pos, far: Pos)
    requires Shaped(room, h, w) && InBounds(h, w, from) && InBounds(h, w, np) && InBounds(h, w, far)
    requires from != np && from != far && np != far
    requires At(room, from) == PLAYER && IsBox(At(room, np)) && (At(room, far) == EMPTY || At(room, far) == TARGET)
    requires forall p :: p in boxes ==> InBounds(h, w, p) && IsBox(room[p.0][p.1])
    requires forall i, j :: 0 <= i < h && 0 <= j < w && IsBox(room[i][j]) ==> (i, j) in boxes
    requires Distinct(boxes)
    ensures var r := PushRoom(room, from, np, far); var nb := RemoveFirst(boxes, np) + [far];
      && Distinct(nb)
      && (forall p :: p in nb ==> InBounds(h, w, p) && IsBox(r[p.0][p.1]))
      && (forall i, j :: 0 <= i < h && 0 <= j < w && IsBox(r[i][j]) ==> (i, j) in nb)
  {
    var r := PushRoom(room, from, np, far);
    var nb := RemoveFirst(boxes, np) + [far];
    PushRoomCells(room, from, np, far);
    assert far !in boxes;
    ReplaceDistinct(boxes, np, far);
    forall p | p in nb ensures InBounds(h, w, p) && IsBox(r[p.0][p.1]) {
      if p != far {
        assert p in boxes && p != np && p != from;
      }
    }
    forall i, j | 0 <= i < h && 0 <= j < w && IsBox(r[i][j]) ensures (i, j) in nb {
      if (i, j) != far {
        assert (i, j) != np && (i, j) != from;
        assert (i, j) in boxes;
      }
    }
  }

  /** A step writes only valid cell codes. */
  lemma NextKeepsCodes(b: Board, h: nat, w: nat, a: Action)
    requires Consistent(b, h, w) && AllCodes(b.room)
    ensures AllCodes(Next(b, h, w, a).room)
  {
    var o := Resolve(b, h, w, a);
    var n := Next(b, h, w, a);
    if o == Walked {
      WalkMovesPlayer(b, h, w, a);
    } else if o == Pushed {
      PushMovesOneBox(b, h, w, a);
    }
    forall i, j | 0 <= i < |n.room| && 0 <= j < |n.room[i]| ensures IsCode(n.room[i][j]) {
      assert IsCode(b.room[i][j]);
    }
  }

  /** A concrete case of the erased target: in the one-row room
      player, target, empty, two steps to the right leave the target cell
      empty although the environment still lists it as a target. */
  lemma WalkedOverTargetIsLost()
    ensures var b := Board([[PLAYER, TARGET, EMPTY]], (0, 0), [], 0);
      && Consistent(b, 1, 3)
      && Consistent(Next(b, 1, 3, 3), 1, 3)
      && Next(Next(b, 1, 3, 3), 1, 3, 3).room == [[EMPTY, EMPTY, PLAYER]]
      && (0, 1) in ScanPositions(b.room, 3, {TARGET, BOX_ON_TARGET})
  {
    var b := Board([[PLAYER, TARGET, EMPTY]], (0, 0), [], 0);
    assert CountRow([EMPTY], BOX_ON_TARGET) == 0;
    assert CountRow([TARGET, EMPTY], BOX_ON_TARGET) == 0;
    assert Count(b.room, BOX_ON_TARGET) == 0;
    assert Consistent(b, 1, 3);
    assert Resolve(b, 1, 3, 3) == Walked;
    var b1 := Next(b, 1, 3, 3);
    assert b1.room == MovePlayer(b.room, (0, 0), (0, 1));
    assert b1.room[0] == [EMPTY, PLAYER, EMPTY];
    assert b1.room == [[EMPTY, PLAYER, EMPTY]];
    NextConsistent(b, 1, 3, 3);
    assert Resolve(b1, 1, 3, 3) == Walked;
    var b2 := Next(b1, 1, 3, 3);
    assert b2.room == MovePlayer(b1.room, (0, 1), (0, 2));
    assert b2.room[0] == [EMPTY, EMPTY, PLAYER];
    assert (0, 1) in ScanPositions(b.room, 3, {TARGET, BOX_ON_TARGET});
  }
}
