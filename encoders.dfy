/** The exchange formats of the training environment: the character level
    text, the grid of small integer codes (0 empty, 1 wall, 2 box, 3 target,
    4 box on target, 5 player) and the seven-channel one-hot observation. */
module Encoders {
  import opened Common
  import opened Grid
  import opened Text

  const EMPTY: int := 0
  const WALL: int := 1
  const BOX: int := 2
  const TARGET: int := 3
  const BOX_ON_TARGET: int := 4
  const PLAYER: int := 5

  type Room = seq<seq<int>>

  predicate IsCode(v: int)
  {
    0 <= v <= 5
  }

  /** A character `chars_to_numerical` knows. */
  predicate Known(c: char)
  {
    c == '#' || c == '@' || c == '+' || c == '$' || c == '*' || c == '.' || c == ' '
  }

  /** The code a level character is written as; an unknown character leaves
      the cell at its initial zero.  `+` (player on target) becomes a plain
      player: the target under it is not kept in the grid. */
  function NumOf(c: char): (v: int)
    ensures IsCode(v)
    ensures !Known(c) ==> v == EMPTY
  {
    match c
    case '#' => WALL
    case '@' => PLAYER
    case '+' => PLAYER
    case '$' => BOX
    case '*' => BOX_ON_TARGET
    case '.' => TARGET
    case _ => EMPTY
  }

  /** The character a code is printed as. */
  function CharOf(v: int): (c: char)
    requires IsCode(v)
    ensures Known(c) && c != '+'
    ensures NumOf(c) == v
  {
    [" ", "#", "$", ".", "*", "@"][v][0]
  }

  // ---------------------------------------------------------------------------
  // chars_to_numerical

  /** The text's lines after `char_map.strip().split('\n')`, each stripped. */
  function Lines(text: string): (ls: seq<string>)
    ensures |ls| >= 1
  {
    StripEach(Split(Strip(text), '\n'))
  }

  /** Every piece stripped. */
  function StripEach(pieces: seq<string>): (r: seq<string>)
    ensures |r| == |pieces|
  {
    seq(|pieces|, i requires 0 <= i < |pieces| => Strip(pieces[i]))
  }

  /** The code written at (i, j): the character's code where the line is long
      enough, zero past its end. */
  function CellCode(lines: seq<string>, i: nat, j: nat): (v: int)
    requires i < |lines|
    ensures IsCode(v)
  {
    if j < |lines[i]| then NumOf(lines[i][j]) else EMPTY
  }

  /** A known character stands past the width of the first line: writing it
      into the zero-filled grid raises an index error. */
  predicate Overflows(lines: seq<string>)
    requires |lines| >= 1
  {
    exists i, j :: 0 <= i < |lines| && |lines[0]| <= j < |lines[i]| && Known(lines[i][j])
  }

  /** `chars_to_numerical` as a value: the grid is height x width with the
      width of the first line, or None where the source raises. */
  function ParseNumeric(text: string): (r: Option<Room>)
    ensures r.None? <==> Overflows(Lines(text))
    ensures r.Some? ==> |r.value| == |Lines(text)| && IsRect(r.value, |Lines(text)[0]|)
    ensures r.Some? ==> forall i, j :: 0 <= i < |r.value| && 0 <= j < |r.value[i]| ==> IsCode(r.value[i][j])
  {
    var lines := Lines(text);
    if Overflows(lines) then None else Some(FilledGrid(lines))
  }

  /** The zero-based grid `chars_to_numerical` fills when no character overflows. */
  function FilledGrid(lines: seq<string>): (g: Room)
    requires |lines| >= 1
    ensures |g| == |lines| && IsRect(g, |lines[0]|)
    ensures forall i, j :: 0 <= i < |lines| && 0 <= j < |lines[0]| ==> g[i][j] == CellCode(lines, i, j)
  {
    var w := |lines[0]|;
    seq(|lines|, i requires 0 <= i < |lines| => seq(w, j requires 0 <= j < w => CellCode(lines, i, j)))
  }

  /** `chars_to_numerical`: split the text into stripped lines and fill a
      zero grid from them. */
  method CharsToNumerical(text: string) returns (ok: bool, num: array2<int>)
    ensures ok <==> ParseNumeric(text).Some?
    ensures ok ==> Snapshot(num) == ParseNumeric(text).value
  {
    var lines := Lines(text);
    ok, num := FillGrid(lines);
  }

  /** The loops of `chars_to_numerical`: fill a zero grid line by line,
      character by character, writing every known character's code, and stop
      at the first known character past the first line's width. */
  method FillGrid(lines: seq<string>) returns (ok: bool, num: array2<int>)
    requires |lines| >= 1
    ensures ok <==> !Overflows(lines)
    ensures ok ==> Snapshot(num) == FilledGrid(lines)
  {
    var h, w := |lines|, |lines[0]|;
    num := new int[h, w]((i, j) => EMPTY);
    var i := 0;
    while i < h
      invariant 0 <= i <= h && num.Length0 == h && num.Length1 == w
      invariant forall r, c :: 0 <= r < h && 0 <= c < w ==> num[r, c] == (if r < i then CellCode(lines, r, c) else EMPTY)
      invariant forall r, c :: 0 <= r < i && w <= c < |lines[r]| ==> !Known(lines[r][c])
    {
      ok := FillLine(num, i, lines, w);
      if !ok {
        return;
      }
      i := i + 1;
    }
    ok := true;
    GridExt(Snapshot(num), FilledGrid(lines), w);
  }

  /** A grid of the parsed shape holding every cell's code is the parse result
      when no line overflows the first line's width. */
  lemma ParseFilled(text: string, g: Room)
    requires |g| == |Lines(text)| && IsRect(g, |Lines(text)[0]|)
    requires forall r, c :: 0 <= r < |g| && 0 <= c < |Lines(text)[0]| ==> g[r][c] == CellCode(Lines(text), r, c)
    requires forall r, c :: 0 <= r < |g| && |Lines(text)[0]| <= c < |Lines(text)[r]| ==> !Known(Lines(text)[r][c])
    ensures ParseNumeric(text) == Some(g)
  {
    var lines := Lines(text);
    assert !Overflows(lines);
    GridExt(g, FilledGrid(lines), |lines[0]|);
  }

  /** The inner loop of `chars_to_numerical` over the characters of line i. */
  method FillLine(num: array2<int>, i: nat, lines: seq<string>, w: nat) returns (ok: bool)
    requires i < |lines| == num.Length0 && w == num.Length1 == |lines[0]|
    requires forall c :: 0 <= c < w ==> num[i, c] == EMPTY
    modifies num
    ensures forall r, c :: 0 <= r < num.Length0 && 0 <= c < w && r != i ==> num[r, c] == old(num[r, c])
    ensures ok <==> forall c :: w <= c < |lines[i]| ==> !Known(lines[i][c])
    ensures !ok ==> Overflows(lines)
    ensures ok ==> forall c :: 0 <= c < w ==> num[i, c] == CellCode(lines, i, c)
  {
    var line := lines[i];
    var j := 0;
    while j < |line|
      invariant 0 <= j <= |line|
      invariant forall r, c :: 0 <= r < num.Length0 && 0 <= c < w && r != i ==> num[r, c] == old(num[r, c])
      invariant forall c :: 0 <= c < w ==> num[i, c] == (if c < j then CellCode(lines, i, c) else EMPTY)
      invariant forall c :: w <= c < j ==> !Known(line[c])
    {
      if Known(line[j]) {
        if j >= w {
          return false;
        }
        num[i, j] := NumOf(line[j]);
      }
      j := j + 1;
    }
    return true;
  }

  // ---------------------------------------------------------------------------
  // numerical_to_chars

  /** The printed character of one cell: a player listed in `onTarget` is `+`. */
  function CellChar(v: int, p: Pos, onTarget: seq<Pos>): (c: char)
    requires IsCode(v)
    ensures NumOf(c) == v
    ensures c == '+' <==> v == PLAYER && p in onTarget
  {
    if v == PLAYER && p in onTarget then '+' else CharOf(v)
  }

  function RowChars(room: Room, i: nat, onTarget: seq<Pos>): (line: string)
    requires i < |room|
    requires forall j :: 0 <= j < |room[i]| ==> IsCode(room[i][j])
    ensures |line| == |room[i]|
    ensures forall j :: 0 <= j < |line| ==> line[j] == CellChar(room[i][j], (i, j), onTarget)
  {
    seq(|room[i]|, j requires 0 <= j < |room[i]| => CellChar(room[i][j], (i, j), onTarget))
  }

  predicate AllCodes(room: Room)
  {
    forall i, j :: 0 <= i < |room| && 0 <= j < |room[i]| ==> IsCode(room[i][j])
  }

  /** `numerical_to_chars`: one printed line per row, joined with newlines. */
  function NumericalToChars(room: Room, onTarget: seq<Pos>): string
    requires AllCodes(room)
  {
    Join(Rows(room, onTarget), '\n')
  }

  /** Newline-joined trimmed lines are read back as the same lines. */
  lemma LinesOfJoin(rows: seq<string>)
    requires |rows| >= 1
    requires forall i :: 0 <= i < |rows| ==> Trimmed(rows[i])
    ensures Lines(Join(rows, '\n')) == rows
  {
    var text := Join(rows, '\n');
    assert Strip(text) == text by {
      JoinTrimmed(rows, '\n');
      StripTrimmed(text);
    }
    assert Split(text, '\n') == rows by {
      SplitJoin(rows, '\n');
    }
    assert StripEach(rows) == rows by {
      StripRows(rows);
    }
  }

  lemma StripRows(rows: seq<string>)
    requires forall i :: 0 <= i < |rows| ==> Trimmed(rows[i])
    ensures forall i :: 0 <= i < |rows| ==> Strip(rows[i]) == rows[i]
  {
    forall i | 0 <= i < |rows| ensures Strip(rows[i]) == rows[i] {
      StripTrimmed(rows[i]);
    }
  }

  /** A non-empty line without a newline that starts and ends with a non-space. */
  predicate Trimmed(line: string)
  {
    Bare(line) && '\n' !in line
  }

  /** Joining non-empty, trimmed pieces gives a trimmed text. */
  lemma {:induction false} JoinTrimmed(parts: seq<string>, sep: char)
    requires |parts| >= 1
    requires forall i :: 0 <= i < |parts| ==> Bare(parts[i])
    ensures Bare(Join(parts, sep))
  {
    if |parts| > 1 {
      JoinTrimmed(parts[1..], sep);
    }
  }

  /** The printed rows of a room, one string per row. */
  function Rows(room: Room, onTarget: seq<Pos>): (rows: seq<string>)
    requires AllCodes(room)
    ensures |rows| == |room|
    ensures forall i :: 0 <= i < |room| ==> rows[i] == RowChars(room, i, onTarget)
  {
    seq(|room|, i requires 0 <= i < |room| => RowChars(room, i, onTarget))
  }

  /** A room whose rows all start and end with a non-empty cell (a walled
      room, say) survives printing and parsing back unchanged. */
  lemma NumericRoundTrip(room: Room, w: nat, onTarget: seq<Pos>)
    requires |room| >= 1 && w >= 1 && IsRect(room, w) && AllCodes(room)
    requires forall i :: 0 <= i < |room| ==> room[i][0] != EMPTY && room[i][w - 1] != EMPTY
    ensures ParseNumeric(NumericalToChars(room, onTarget)) == Some(room)
  {
    var rows := Rows(room, onTarget);
    forall i | 0 <= i < |rows| ensures Trimmed(rows[i]) {
      TrimmedRow(room, w, i, onTarget);
    }
    LinesOfJoin(rows);
    ParseFilled(Join(rows, '\n'), room);
  }

  lemma TrimmedRow(room: Room, w: nat, i: nat, onTarget: seq<Pos>)
    requires i < |room| && w >= 1 && IsRect(room, w) && AllCodes(room)
    requires room[i][0] != EMPTY && room[i][w - 1] != EMPTY
    ensures Trimmed(RowChars(room, i, onTarget))
  {
    var row := RowChars(room, i, onTarget);
    assert NumOf(row[0]) != EMPTY && NumOf(row[w - 1]) != EMPTY;
    forall k | 0 <= k < |row| ensures row[k] != '\n' {
      assert Known(row[k]);
    }
  }

  /** The level characters of a trimmed, rectangular text survive parsing and
      printing back, with the `+` cells carried in the side list. */
  lemma CharsRoundTrip(lines: seq<string>, w: nat)
    requires |lines| >= 1 && w >= 1 && IsRect(lines, w)
    requires forall i, j :: 0 <= i < |lines| && 0 <= j < w ==> Known(lines[i][j])
    requires forall i :: 0 <= i < |lines| ==> lines[i][0] != ' ' && lines[i][w - 1] != ' '
    ensures ParseNumeric(Join(lines, '\n')).Some?
    ensures NumericalToChars(ParseNumeric(Join(lines, '\n')).value, ScanPositions(lines, w, {'+'}))
         == Join(lines, '\n')
  {
    ParseKnownLines(lines, w);
    PrintFilled(lines, w, ScanPositions(lines, w, {'+'}));
  }

  lemma ParseKnownLines(lines: seq<string>, w: nat)
    requires |lines| >= 1 && w >= 1 && IsRect(lines, w)
    requires forall i, j :: 0 <= i < |lines| && 0 <= j < w ==> Known(lines[i][j])
    requires forall i :: 0 <= i < |lines| ==> lines[i][0] != ' ' && lines[i][w - 1] != ' '
    ensures ParseNumeric(Join(lines, '\n')) == Some(FilledGrid(lines))
  {
    KnownLinesTrimmed(lines, w);
    LinesOfJoin(lines);
    assert !Overflows(lines);
  }

  lemma KnownLinesTrimmed(lines: seq<string>, w: nat)
    requires w >= 1 && IsRect(lines, w)
    requires forall i, j :: 0 <= i < |lines| && 0 <= j < w ==> Known(lines[i][j])
    requires forall i :: 0 <= i < |lines| ==> lines[i][0] != ' ' && lines[i][w - 1] != ' '
    ensures forall i :: 0 <= i < |lines| ==> Trimmed(lines[i])
  {
    forall i | 0 <= i < |lines| ensures Trimmed(lines[i]) {
      forall k | 0 <= k < |lines[i]| ensures lines[i][k] != '\n' {
        assert Known(lines[i][k]);
      }
      assert Known(lines[i][0]) && Known(lines[i][w - 1]);
    }
  }

  /** Printing the parsed grid of known characters, with the `+` cells listed,
      gives the lines back. */
  lemma PrintFilled(lines: seq<string>, w: nat, plus: seq<Pos>)
    requires |lines| >= 1 && w >= 1 && IsRect(lines, w)
    requires forall i, j :: 0 <= i < |lines| && 0 <= j < w ==> Known(lines[i][j])
    requires forall p :: p in plus <==> 0 <= p.0 < |lines| && 0 <= p.1 < w && lines[p.0][p.1] == '+'
    ensures Rows(FilledGrid(lines), plus) == lines
  {
    var room := FilledGrid(lines);
    var rows := Rows(room, plus);
    forall i | 0 <= i < |lines| ensures rows[i] == lines[i] {
      forall j | 0 <= j < w ensures rows[i][j] == lines[i][j] {
        var c := lines[i][j];
        assert room[i][j] == NumOf(c);
        assert (i, j) in plus <==> c == '+';
      }
    }
  }

  // ---------------------------------------------------------------------------
  // The seven-channel observation

  const CHANNELS: int := 7

  /** The one channel a cell lights: 0 wall, 1 player off target, 2 player on
      target, 3 box, 4 box on target, 5 uncovered target, 6 empty; -1 for a
      value outside the code range. */
  function Channel(v: int, onTarget: bool): (c: int)
    ensures IsCode(v) <==> 0 <= c < CHANNELS
    ensures c == 2 <==> v == PLAYER && onTarget
  {
    if v == WALL then 0
    else if v == PLAYER then (if onTarget then 2 else 1)
    else if v == BOX then 3
    else if v == BOX_ON_TARGET then 4
    else if v == TARGET then 5
    else if v == EMPTY then 6
    else -1
  }

  /** The observation entry at channel `c` of a cell. */
  function ObsValue(v: int, onTarget: bool, c: int): (bit: int)
    ensures bit == 0 || bit == 1
    ensures bit == 1 <==> c == Channel(v, onTarget)
  {
    if c == Channel(v, onTarget) then 1 else 0
  }

  /** Reading a lit channel back: the code and whether a player stands on a target. */
  function DecodeChannel(c: int): (r: (int, bool))
    requires 0 <= c < CHANNELS
    ensures IsCode(r.0)
    ensures r.1 ==> r.0 == PLAYER
  {
    [(WALL, false), (PLAYER, false), (PLAYER, true), (BOX, false), (BOX_ON_TARGET, false), (TARGET, false), (EMPTY, false)][c]
  }

  /** Every code lights exactly one channel, and that channel gives back the
      code and the player-on-target flag. */
  lemma OneHotRoundTrip(v: int, onTarget: bool)
    requires IsCode(v)
    ensures exists c :: 0 <= c < CHANNELS && ObsValue(v, onTarget, c) == 1
    ensures forall c, c' :: 0 <= c < c' < CHANNELS ==> ObsValue(v, onTarget, c) == 0 || ObsValue(v, onTarget, c') == 0
    ensures DecodeChannel(Channel(v, onTarget)) == (v, v == PLAYER && onTarget)
  {
    assert ObsValue(v, onTarget, Channel(v, onTarget)) == 1;
  }
}
