/** The level-file handling of prepare_dataset.py: cutting a Boxoban level
    file into maps (`select_maps`), doing so for every file of a directory
    (`choose_all_maps`), and writing a played map with its recorded moves
    (`export_to_txt_file`). A directory is given as its file names, in the
    order the program lists them, each with the lines `readlines` yields. */
module Dataset {
  import opened Text
  import CharGame

  /** One file of a level directory: its name and its lines as `readlines`
      returns them (each keeps its '\n', none is empty). */
  datatype DataFile = DataFile(name: string, lines: seq<string>)

  predicate LinesOk(lines: seq<string>)
  {
    forall i :: 0 <= i < |lines| ==> lines[i] != []
  }

  predicate FilesOk(files: seq<DataFile>)
  {
    forall k :: 0 <= k < |files| ==> LinesOk(files[k].lines)
  }

  // ---------------------------------------------------------------------------
  // select_maps: one file

  /** The two locals of the scan: the maps closed so far and the map being
      collected. */
  datatype Scan = Scan(maps: seq<seq<string>>, current: seq<string>)

  /** One line of the scan: a line holding ';' closes a non-empty current
      map, and a line starting with '#' adds its stripped text to the
      current map (a line can do both). */
  function Step(st: Scan, line: string): Scan
    requires line != []
  {
    var closed := if ';' in line && st.current != [] then Scan(st.maps + [st.current], []) else st;
    if line[0] == '#' then Scan(closed.maps, closed.current + [Strip(line)]) else closed
  }

  /** The scan over `lines`, starting from `st`. */
  function ScanFrom(st: Scan, lines: seq<string>): Scan
    requires LinesOk(lines)
  {
    if lines == [] then st else Step(ScanFrom(st, lines[..|lines| - 1]), lines[|lines| - 1])
  }

  function ScanLines(lines: seq<string>): Scan
    requires LinesOk(lines)
  {
    ScanFrom(Scan([], []), lines)
  }

  /** The maps `select_maps` returns for the chosen file's lines: the
      closed maps, then whatever was being collected at the end. */
  function SelectMaps(lines: seq<string>): seq<seq<string>>
    requires LinesOk(lines)
  {
    var st := ScanLines(lines);
    st.maps + [st.current]
  }

  /** The stripped '#' lines of a file, in order. */
  function WallLines(lines: seq<string>): seq<string>
    requires LinesOk(lines)
  {
    if lines == [] then []
    else
      var last := lines[|lines| - 1];
      WallLines(lines[..|lines| - 1]) + (if last[0] == '#' then [Strip(last)] else [])
  }

  function Flatten(maps: seq<seq<string>>): seq<string>
  {
    if maps == [] then [] else Flatten(maps[..|maps| - 1]) + maps[|maps| - 1]
  }

  lemma {:induction false} FlattenAppend(a: seq<seq<string>>, b: seq<seq<string>>)
    ensures Flatten(a + b) == Flatten(a) + Flatten(b)
    decreases |b|
  {
    if b != [] {
      assert (a + b)[..|a + b| - 1] == a + b[..|b| - 1];
      FlattenAppend(a, b[..|b| - 1]);
    } else {
      assert a + b == a;
    }
  }

  lemma {:induction false} ScanKeepsLines(lines: seq<string>)
    requires LinesOk(lines)
    ensures Flatten(ScanLines(lines).maps) + ScanLines(lines).current == WallLines(lines)
    ensures forall i :: 0 <= i < |ScanLines(lines).maps| ==> ScanLines(lines).maps[i] != []
  {
    if lines != [] {
      var init := lines[..|lines| - 1];
      var st := ScanLines(init);
      ScanKeepsLines(init);
      var line := lines[|lines| - 1];
      if ';' in line && st.current != [] {
        assert (st.maps + [st.current])[..|st.maps|] == st.maps;
      }
    }
  }

  /** `select_maps` loses no '#' line and invents none: the maps, laid end
      to end, are exactly the file's stripped '#' lines; and only the last
      map can be empty. */
  lemma SelectMapsKeepsLines(lines: seq<string>)
    requires LinesOk(lines)
    ensures |SelectMaps(lines)| >= 1
    ensures Flatten(SelectMaps(lines)) == WallLines(lines)
    ensures forall i :: 0 <= i < |SelectMaps(lines)| - 1 ==> SelectMaps(lines)[i] != []
  {
    var st := ScanLines(lines);
    ScanKeepsLines(lines);
    assert (st.maps + [st.current])[..|st.maps|] == st.maps;
  }

  lemma {:induction false} ScanFromAppend(st: Scan, a: seq<string>, b: seq<string>)
    requires LinesOk(a) && LinesOk(b)
    ensures LinesOk(a + b)
    ensures ScanFrom(st, a + b) == ScanFrom(ScanFrom(st, a), b)
    decreases |b|
  {
    if b == [] {
      assert a + b == a;
    } else {
      assert (a + b)[..|a + b| - 1] == a + b[..|b| - 1];
      ScanFromAppend(st, a, b[..|b| - 1]);
    }
  }

  // The Boxoban file layout: each level is a "; <n>" line, the map rows,
  // then an empty line.

  /** A map row as Boxoban files hold it: starts with '#', no surrounding
      whitespace, no ';' and no line break. */
  predicate MapRow(row: string)
  {
    Bare(row) && row[0] == '#' && ';' !in row && '\n' !in row
  }

  function RowLines(rows: seq<string>): (r: seq<string>)
    ensures |r| == |rows| && LinesOk(r)
    ensures forall i :: 0 <= i < |r| ==> r[i] == rows[i] + "\n"
  {
    seq(|rows|, i requires 0 <= i < |rows| => rows[i] + "\n")
  }

  function Header(n: nat): (h: string)
    ensures h != [] && h[0] == ';'
  {
    "; " + NatToString(n) + "\n"
  }

  /** The lines of a Boxoban file holding `levels`, numbered from 0. */
  function Boxoban(levels: seq<seq<string>>): (r: seq<string>)
    ensures LinesOk(r)
  {
    if levels == [] then []
    else Boxoban(levels[..|levels| - 1]) + Block(|levels| - 1, levels[|levels| - 1])
  }

  /** The lines of level `n`: its header, its rows, an empty line. */
  function Block(n: nat, rows: seq<string>): (r: seq<string>)
    ensures LinesOk(r)
  {
    [Header(n)] + RowLines(rows) + ["\n"]
  }

  lemma StripLine(row: string)
    requires Bare(row)
    ensures Strip(row + "\n") == row
  {
    var s := row + "\n";
    assert s[0] == row[0];
    assert StripLeft(s) == s;
    assert s[..|s| - 1] == row;
    assert IsSpace(s[|s| - 1]);
    assert StripRight(s) == StripRight(row);
    assert StripRight(row) == row;
  }

  lemma {:induction false} ScanRows(st: Scan, rows: seq<string>)
    requires forall i :: 0 <= i < |rows| ==> MapRow(rows[i])
    ensures ScanFrom(st, RowLines(rows)) == Scan(st.maps, st.current + rows)
    decreases |rows|
  {
    if rows == [] {
      assert st.current + rows == st.current;
    } else {
      var n := |rows| - 1;
      var lines := RowLines(rows);
      assert lines[..n] == RowLines(rows[..n]);
      ScanRows(st, rows[..n]);
      WallScanStep(Scan(st.maps, st.current + rows[..n]), rows[n]);
      assert ScanFrom(st, lines) == Step(ScanFrom(st, lines[..n]), rows[n] + "\n");
      AppendLast(st.current, rows);
    }
  }

  /** Reading a file laid out the Boxoban way gives back its levels: the
      partner of `select_maps` on well-formed input. */
  lemma {:induction false} SelectMapsBoxoban(levels: seq<seq<string>>)
    requires forall k :: 0 <= k < |levels| ==> levels[k] != []
    requires forall k, i :: 0 <= k < |levels| && 0 <= i < |levels[k]| ==> MapRow(levels[k][i])
    ensures ScanLines(Boxoban(levels)) == if levels == [] then Scan([], []) else Scan(levels[..|levels| - 1], levels[|levels| - 1])
    ensures SelectMaps(Boxoban(levels)) == if levels == [] then [[]] else levels
  {
    if levels != [] {
      var n := |levels| - 1;
      var prev := Boxoban(levels[..n]);
      SelectMapsBoxoban(levels[..n]);
      var st0 := ScanLines(prev);
      ScanFromAppend(Scan([], []), prev, Block(n, levels[n]));
      ScanBlock(st0, n, levels[n]);
      if n > 0 {
        SplitLast(levels[..n]);
        assert levels[..n][..n - 1] == levels[..n - 1];
      }
      assert (if st0.current == [] then st0.maps else st0.maps + [st0.current]) == levels[..n];
      SplitLast(levels);
    }
  }

  /** Scanning one level's lines closes the map being collected, if any,
      and leaves the level's rows as the current map. */
  lemma ScanBlock(st: Scan, n: nat, rows: seq<string>)
    requires forall i :: 0 <= i < |rows| ==> MapRow(rows[i])
    ensures ScanFrom(st, Block(n, rows)) == Scan(if st.current == [] then st.maps else st.maps + [st.current], rows)
  {
    var h := [Header(n)];
    var lines := RowLines(rows);
    ScanFromAppend(st, h + lines, ["\n"]);
    ScanFromAppend(st, h, lines);
    var st1 := ScanFrom(st, h);
    HeaderStep(st, n);
    ScanRows(st1, rows);
    EmptyLineStep(ScanFrom(st1, lines));
  }

  lemma HeaderStep(st: Scan, n: nat)
    ensures ScanFrom(st, [Header(n)]) == Scan(if st.current == [] then st.maps else st.maps + [st.current], [])
  {
    var h := Header(n);
    var one: seq<string> := [h];
    assert one[..0] == [];
    assert h[0] == ';';
  }

  lemma EmptyLineStep(st: Scan)
    ensures ScanFrom(st, ["\n"]) == st
  {
    var nl: seq<string> := ["\n"];
    assert nl[..0] == [];
    assert ';' !in "\n";
  }

  lemma AppendLast<T>(a: seq<T>, b: seq<T>)
    requires b != []
    ensures a + b[..|b| - 1] + [b[|b| - 1]] == a + b
  {
  }

  lemma SplitLast<T>(s: seq<T>)
    requires s != []
    ensures s[..|s| - 1] + [s[|s| - 1]] == s
  {
  }

  /** os.path.join for two parts: an absolute second part wins, and a
      separator is put between the two unless the first already ends in
      one. */
  function PathJoin(dir: string, file: string): (r: string)
    ensures |r| >= |file| && r[|r| - |file|..] == file
    ensures file != [] && file[0] == '/' ==> r == file
    ensures (file == [] || file[0] != '/') ==>
      |r| >= |dir| + |file| && r[..|dir|] == dir && |r| <= |dir| + 1 + |file|
      && (dir != [] && |r| > |dir| + |file| ==> r[|dir|] == '/' && dir[|dir| - 1] != '/')
  {
    if file != [] && file[0] == '/' then file
    else if dir == [] || dir[|dir| - 1] == '/' then dir + file
    else dir + "/" + file
  }

  /** `select_maps`: the random choice of a file is the parameter `choice`;
      `random.choice` on an empty directory raises, hence the requires. */
  method SelectMapsIn(dir: string, files: seq<DataFile>, choice: nat) returns (maps: seq<seq<string>>, sourceFile: string)
    requires choice < |files| && FilesOk(files)
    ensures maps == SelectMaps(files[choice].lines)
    ensures sourceFile == PathJoin(dir, files[choice].name)
  {
    sourceFile := PathJoin(dir, files[choice].name);
    var lines := files[choice].lines;
    maps := [];
    var current := [];
    for i := 0 to |lines|
      invariant ScanLines(lines[..i]) == Scan(maps, current)
    {
      assert lines[..i + 1][..i] == lines[..i];
      var line := lines[i];
      if ';' in line && current != [] {
        maps := maps + [current];
        current := [];
      }
      if line[0] == '#' {
        current := current + [Strip(line)];
      }
    }
    assert lines[..|lines|] == lines;
    maps := maps + [current];
  }

  // ---------------------------------------------------------------------------
  // choose_all_maps: every file

  /** `file_name = dataset_file[:-4]`: the name without its last four
      characters, or nothing when it is that short. */
  function Stem(name: string): (r: string)
    ensures |name| >= 4 ==> name == r + name[|name| - 4..]
    ensures |name| <= 4 ==> r == []
  {
    if |name| >= 4 then name[..|name| - 4] else []
  }

  function MapName(stem: string, idx: nat): string
  {
    stem + "_" + NatToString(idx) + ".txt"
  }

  function Names(stem: string, n: nat): (r: seq<string>)
    ensures |r| == n && forall i :: 0 <= i < n ==> r[i] == MapName(stem, i)
  {
    seq(n, i requires 0 <= i < n => MapName(stem, i))
  }

  /** Within one file the stem is shared, so two maps get the same name only
      when they have the same index. */
  lemma MapNameInjective(stem: string, i: nat, j: nat)
    ensures MapName(stem, i) == MapName(stem, j) <==> i == j
  {
    if MapName(stem, i) == MapName(stem, j) {
      var a, b, p := NatToString(i), NatToString(j), stem + "_";
      assert MapName(stem, i) == p + a + ".txt";
      assert MapName(stem, j) == p + b + ".txt";
      assert |a| == |b|;
      assert a == MapName(stem, i)[|p|..|p| + |a|];
      assert b == MapName(stem, j)[|p|..|p| + |b|];
      NatToStringInjective(i, j);
    }
  }

  /** The names `choose_all_maps` gives the maps of one file are distinct. */
  lemma NamesDistinct(stem: string, n: nat)
    ensures forall i, j :: 0 <= i < j < n ==> Names(stem, n)[i] != Names(stem, n)[j]
  {
    forall i, j | 0 <= i < j < n
      ensures Names(stem, n)[i] != Names(stem, n)[j]
    {
      MapNameInjective(stem, i, j);
    }
  }

  /** The evidently intended `choose_all_maps`: each file cut into maps on
      its own, every map named after its file and its place in it. */
  function ChooseAllMaps(files: seq<DataFile>): (r: (seq<seq<string>>, seq<string>))
    requires FilesOk(files)
    ensures |r.0| == |r.1|
  {
    if files == [] then ([], [])
    else
      var f := files[|files| - 1];
      var prev := ChooseAllMaps(files[..|files| - 1]);
      var maps := SelectMaps(f.lines);
      (prev.0 + maps, prev.1 + Names(Stem(f.name), |maps|))
  }

  function AllWallLines(files: seq<DataFile>): seq<string>
    requires FilesOk(files)
  {
    if files == [] then [] else AllWallLines(files[..|files| - 1]) + WallLines(files[|files| - 1].lines)
  }

  /** The corrected `choose_all_maps` keeps every '#' line of every file,
      in order, exactly once. */
  lemma {:induction false} ChooseAllMapsKeepsLines(files: seq<DataFile>)
    requires FilesOk(files)
    ensures Flatten(ChooseAllMaps(files).0) == AllWallLines(files)
  {
    if files != [] {
      var f := files[|files| - 1];
      ChooseAllMapsKeepsLines(files[..|files| - 1]);
      SelectMapsKeepsLines(f.lines);
      FlattenAppend(ChooseAllMaps(files[..|files| - 1]).0, SelectMaps(f.lines));
    }
  }

  /** The state of the loop `choose_all_maps` runs as written. `aliases`
      counts the trailing entries of `maps` that are the very list object
      `current_map` still refers to: the end of a file appends
      `current_map` without replacing it, so the next file's '#' lines
      also land in maps already handed out. */
  datatype Pass = Pass(maps: seq<seq<string>>, names: seq<string>, current: seq<string>, aliases: nat, idx: nat)

  predicate PassOk(p: Pass)
  {
    p.aliases <= |p.maps| && |p.maps| == |p.names|
  }

  /** `maps` with its last `k` entries replaced by `cur`. */
  function Alias(maps: seq<seq<string>>, k: nat, cur: seq<string>): (r: seq<seq<string>>)
    requires k <= |maps|
    ensures |r| == |maps|
    ensures forall i :: 0 <= i < |maps| ==> r[i] == if i < |maps| - k then maps[i] else cur
  {
    maps[..|maps| - k] + seq(k, _ => cur)
  }

  /** A line holding ';' closes a non-empty current map under the next
      name and starts a new list. */
  function Close(p: Pass, stem: string, line: string): (r: Pass)
    requires PassOk(p)
    ensures PassOk(r)
  {
    if ';' in line && p.current != [] then Pass(p.maps + [p.current], p.names + [MapName(stem, p.idx)], [], 0, p.idx + 1) else p
  }

  /** A line starting with '#' is appended to the current list, which is
      seen through every entry of `maps` that is that list. */
  function AddRow(q: Pass, line: string): (r: Pass)
    requires PassOk(q) && line != []
    ensures PassOk(r)
  {
    if line[0] == '#' then
      var cur := q.current + [Strip(line)];
      Pass(Alias(q.maps, q.aliases, cur), q.names, cur, q.aliases, q.idx)
    else q
  }

  function PassLine(p: Pass, stem: string, line: string): (r: Pass)
    requires PassOk(p) && line != []
    ensures PassOk(r)
  {
    AddRow(Close(p, stem, line), line)
  }

  function PassLines(p: Pass, stem: string, lines: seq<string>): (r: Pass)
    requires PassOk(p) && LinesOk(lines)
    ensures PassOk(r)
  {
    if lines == [] then p else PassLine(PassLines(p, stem, lines[..|lines| - 1]), stem, lines[|lines| - 1])
  }

  /** One whole file: `idx_in_dataset` restarts at 0, and at the end the
      current list is appended once more and kept as `current_map`. */
  function PassFile(p: Pass, f: DataFile): (r: Pass)
    requires PassOk(p) && LinesOk(f.lines)
    ensures PassOk(r)
  {
    var stem := Stem(f.name);
    var q := PassLines(p.(idx := 0), stem, f.lines);
    Pass(q.maps + [q.current], q.names + [MapName(stem, q.idx)], q.current, q.aliases + 1, q.idx)
  }

  function PassFiles(files: seq<DataFile>): (r: Pass)
    requires FilesOk(files)
    ensures PassOk(r)
  {
    if files == [] then Pass([], [], [], 0, 0) else PassFile(PassFiles(files[..|files| - 1]), files[|files| - 1])
  }

  /** What `choose_all_maps` returns as written. */
  function ChooseAllMapsAsWritten(files: seq<DataFile>): (seq<seq<string>>, seq<string>)
    requires FilesOk(files)
  {
    var p := PassFiles(files);
    (p.maps, p.names)
  }

  /** The as-written state while nothing is shared: the scan of one file
      with its maps named in order. */
  function Unshared(st: Scan, stem: string): (p: Pass)
    ensures PassOk(p)
  {
    Pass(st.maps, Names(stem, |st.maps|), st.current, 0, |st.maps|)
  }

  lemma UnsharedStep(st: Scan, stem: string, line: string)
    requires line != []
    ensures PassLine(Unshared(st, stem), stem, line) == Unshared(Step(st, line), stem)
  {
    var p := Unshared(st, stem);
    if ';' in line && st.current != [] {
      assert Names(stem, |st.maps|) + [MapName(stem, |st.maps|)] == Names(stem, |st.maps| + 1);
    }
    var q := Close(p, stem, line);
    assert Alias(q.maps, 0, q.current + [Strip(line)]) == q.maps;
  }

  lemma {:induction false} PassLinesFresh(stem: string, lines: seq<string>)
    requires LinesOk(lines)
    ensures PassLines(Pass([], [], [], 0, 0), stem, lines) == Unshared(ScanLines(lines), stem)
  {
    if lines != [] {
      var n := |lines| - 1;
      PassLinesFresh(stem, lines[..n]);
      UnsharedStep(ScanLines(lines[..n]), stem, lines[n]);
    } else {
      assert Names(stem, 0) == [];
    }
  }

  /** On a directory of one file the defect cannot show: the loop as
      written agrees with the corrected one. */
  lemma SingleFileAgrees(f: DataFile)
    requires LinesOk(f.lines)
    ensures ChooseAllMapsAsWritten([f]) == ChooseAllMaps([f])
  {
    var stem := Stem(f.name);
    assert FilesOk([f]);
    assert [f][..0] == [];
    var empty := Pass([], [], [], 0, 0);
    assert PassFiles([f]) == PassFile(empty, f);
    assert empty.(idx := 0) == empty;
    PassLinesFresh(stem, f.lines);
    var st := ScanLines(f.lines);
    var maps := SelectMaps(f.lines);
    assert Names(stem, |st.maps|) + [MapName(stem, |st.maps|)] == Names(stem, |maps|);
    assert ChooseAllMapsAsWritten([f]) == (maps, Names(stem, |maps|));
    var none: (seq<seq<string>>, seq<string>) := ([], []);
    assert ChooseAllMaps([f]) == (none.0 + maps, none.1 + Names(stem, |maps|));
    assert none.0 + maps == maps && none.1 + Names(stem, |maps|) == Names(stem, |maps|);
  }

  /** A map row with its line break: a wall line that closes nothing. */
  lemma RowLineFacts(row: string)
    requires MapRow(row)
    ensures row + "\n" != [] && (row + "\n")[0] == '#' && ';' !in row + "\n" && Strip(row + "\n") == row
  {
    StripLine(row);
    NoSeparatorIn(row);
  }

  lemma NoSeparatorIn(row: string)
    requires ';' !in row
    ensures ';' !in row + "\n"
  {
    var line := row + "\n";
    forall k | 0 <= k < |line| ensures line[k] != ';' {
      if k < |row| { assert line[k] == row[k]; }
    }
  }

  /** A separator line: it holds ';' and is not a wall line. */
  predicate Separator(h: string)
  {
    h != [] && ';' in h && h[0] != '#'
  }

  lemma PassLinesSnoc(p: Pass, stem: string, lines: seq<string>, line: string)
    requires PassOk(p) && LinesOk(lines) && line != []
    ensures LinesOk(lines + [line])
    ensures PassLines(p, stem, lines + [line]) == PassLine(PassLines(p, stem, lines), stem, line)
  {
    assert (lines + [line])[..|lines|] == lines;
  }

  lemma ScanSnoc(lines: seq<string>, line: string)
    requires LinesOk(lines) && line != []
    ensures LinesOk(lines + [line])
    ensures ScanLines(lines + [line]) == Step(ScanLines(lines), line)
  {
    assert (lines + [line])[..|lines|] == lines;
  }

  lemma WallStep(p: Pass, stem: string, row: string)
    requires PassOk(p) && MapRow(row)
    ensures PassLine(p, stem, row + "\n") == Pass(Alias(p.maps, p.aliases, p.current + [row]), p.names, p.current + [row], p.aliases, p.idx)
  {
    RowLineFacts(row);
  }

  lemma SeparatorStep(p: Pass, stem: string, h: string)
    requires PassOk(p) && Separator(h)
    ensures PassLine(p, stem, h) == if p.current == [] then p else Pass(p.maps + [p.current], p.names + [MapName(stem, p.idx)], [], 0, p.idx + 1)
  {
  }

  lemma WallScanStep(st: Scan, row: string)
    requires MapRow(row)
    ensures Step(st, row + "\n") == Scan(st.maps, st.current + [row])
  {
    RowLineFacts(row);
  }

  /** The first file, the single line "row a", as written: one map, and
      the list stays `current_map`. */
  lemma StaleFirstFile(fa: DataFile, ra: string)
    requires MapRow(ra) && fa.lines == [ra + "\n"]
    ensures FilesOk([fa])
    ensures PassFiles([fa]) == Pass([[ra]], [MapName(Stem(fa.name), 0)], [ra], 1, 0)
  {
    var p0 := Pass([], [], [], 0, 0);
    var none: seq<string> := [];
    PassLinesSnoc(p0, Stem(fa.name), none, ra + "\n");
    assert none + [ra + "\n"] == fa.lines;
    assert PassLines(p0, Stem(fa.name), none) == p0;
    WallStep(p0, Stem(fa.name), ra);
    assert Alias([], 0, [] + [ra]) == [];
    assert [] + [ra] == [ra];
    var q := Pass([], [], [ra], 0, 0);
    assert PassLines(p0, Stem(fa.name), fa.lines) == q;
    assert [fa][..0] == [];
    assert PassFiles([fa]) == PassFile(p0, fa);
  }

  /** The second file, [row x, separator, row b], from the state the first
      left: row x lands in the first file's map, which is then returned a
      second time. */
  lemma StaleSecondFile(fb: DataFile, h: string, ra: string, rx: string, rb: string, a0: string)
    requires Separator(h) && MapRow(rx) && MapRow(rb) && fb.lines == [rx + "\n", h, rb + "\n"]
    ensures LinesOk(fb.lines)
    ensures var sb := Stem(fb.name);
      PassFile(Pass([[ra]], [a0], [ra], 1, 0), fb) == Pass([[ra, rx], [ra, rx], [rb]], [a0, MapName(sb, 0), MapName(sb, 1)], [rb], 1, 1)
  {
    var sb := Stem(fb.name);
    var p0 := Pass([[ra]], [a0], [ra], 1, 0);
    var x := rx + "\n";
    var b := rb + "\n";
    StaleSecondPrefix(sb, h, ra, rx, a0);
    var p2 := Pass([[ra, rx], [ra, rx]], [a0, MapName(sb, 0)], [], 0, 1);
    PassLinesSnoc(p0, sb, [x, h], b);
    assert [x, h] + [b] == fb.lines;
    WallStep(p2, sb, rb);
    assert Alias(p2.maps, 0, [] + [rb]) == p2.maps;
    assert PassLines(p0, sb, fb.lines) == Pass(p2.maps, p2.names, [rb], 0, 1);
  }

  /** Row x and the separator of the second file. */
  lemma StaleSecondPrefix(sb: string, h: string, ra: string, rx: string, a0: string)
    requires Separator(h) && MapRow(rx)
    ensures LinesOk([rx + "\n", h])
    ensures PassLines(Pass([[ra]], [a0], [ra], 1, 0), sb, [rx + "\n", h]) == Pass([[ra, rx], [ra, rx]], [a0, MapName(sb, 0)], [], 0, 1)
  {
    var p0 := Pass([[ra]], [a0], [ra], 1, 0);
    var x := rx + "\n";
    var none: seq<string> := [];
    PassLinesSnoc(p0, sb, none, x);
    assert none + [x] == [x];
    WallStep(p0, sb, rx);
    var al := Alias([[ra]], 1, [ra] + [rx]);
    assert |al| == 1 && al[0] == [ra, rx];
    assert al == [[ra, rx]];
    var p1 := Pass([[ra, rx]], [a0], [ra, rx], 1, 0);
    assert PassLines(p0, sb, [x]) == p1;
    PassLinesSnoc(p0, sb, [x], h);
    assert [x] + [h] == [x, h];
    SeparatorStep(p1, sb, h);
  }

  /** The corrected version on the same two files. */
  lemma StaleCorrected(fa: DataFile, fb: DataFile, h: string, ra: string, rx: string, rb: string)
    requires Separator(h) && MapRow(ra) && MapRow(rx) && MapRow(rb)
    requires fa.lines == [ra + "\n"] && fb.lines == [rx + "\n", h, rb + "\n"]
    ensures FilesOk([fa, fb])
    ensures ChooseAllMaps([fa, fb]) == ([[ra], [rx], [rb]], [MapName(Stem(fa.name), 0), MapName(Stem(fb.name), 0), MapName(Stem(fb.name), 1)])
  {
    StaleCorrectedFirst(fa, ra);
    StaleCorrectedSecond(fb, h, rx, rb);
    assert [fa, fb][..1] == [fa] && [fa][..0] == [];
    var none: (seq<seq<string>>, seq<string>) := ([], []);
    assert ChooseAllMaps([fa]) == (none.0 + [[ra]], none.1 + Names(Stem(fa.name), 1));
    assert none.0 + [[ra]] == [[ra]] && none.1 + Names(Stem(fa.name), 1) == [MapName(Stem(fa.name), 0)];
    var nb := Names(Stem(fb.name), 2);
    assert nb == [MapName(Stem(fb.name), 0), MapName(Stem(fb.name), 1)];
    assert ChooseAllMaps([fa, fb]) == ([[ra]] + [[rx], [rb]], [MapName(Stem(fa.name), 0)] + nb);
    assert [[ra]] + [[rx], [rb]] == [[ra], [rx], [rb]];
    assert [MapName(Stem(fa.name), 0)] + nb == [MapName(Stem(fa.name), 0), MapName(Stem(fb.name), 0), MapName(Stem(fb.name), 1)];
  }

  lemma StaleCorrectedFirst(fa: DataFile, ra: string)
    requires MapRow(ra) && fa.lines == [ra + "\n"]
    ensures LinesOk(fa.lines) && SelectMaps(fa.lines) == [[ra]]
  {
    var none: seq<string> := [];
    ScanSnoc(none, ra + "\n");
    assert none + [ra + "\n"] == fa.lines;
    WallScanStep(Scan([], []), ra);
    assert [] + [ra] == [ra];
    assert ScanLines(fa.lines) == Scan([], [ra]);
    assert SelectMaps(fa.lines) == [] + [[ra]];
  }

  lemma StaleCorrectedSecond(fb: DataFile, h: string, rx: string, rb: string)
    requires Separator(h) && MapRow(rx) && MapRow(rb) && fb.lines == [rx + "\n", h, rb + "\n"]
    ensures LinesOk(fb.lines) && SelectMaps(fb.lines) == [[rx], [rb]]
  {
    var x := rx + "\n";
    var b := rb + "\n";
    var none: seq<string> := [];
    ScanSnoc(none, x);
    assert none + [x] == [x];
    WallScanStep(Scan([], []), rx);
    assert [] + [rx] == [rx];
    assert ScanLines([x]) == Scan([], [rx]);
    ScanSnoc([x], h);
    assert [x] + [h] == [x, h];
    assert ScanLines([x, h]) == Scan([[rx]], []);
    ScanSnoc([x, h], b);
    assert [x, h] + [b] == fb.lines;
    WallScanStep(Scan([[rx]], []), rb);
    assert ScanLines(fb.lines) == Scan([[rx]], [rb]);
    assert SelectMaps(fb.lines) == [[rx]] + [[rb]];
  }

  /** Two files: the first holds the single row a; the second holds row x,
      a separator and row b, so its first wall line comes before its first
      separator. As written, that line is added to the map already
      returned for the first file, and the same list is returned again
      under the second file's first name; the corrected version returns
      the three maps the files hold, under the same names. */
  lemma StaleCurrentMap(fa: DataFile, fb: DataFile, h: string, ra: string, rx: string, rb: string)
    requires Separator(h) && MapRow(ra) && MapRow(rx) && MapRow(rb)
    requires fa.lines == [ra + "\n"] && fb.lines == [rx + "\n", h, rb + "\n"]
    ensures FilesOk([fa, fb])
    ensures ChooseAllMapsAsWritten([fa, fb]).0 == [[ra, rx], [ra, rx], [rb]]
    ensures ChooseAllMaps([fa, fb]).0 == [[ra], [rx], [rb]]
    ensures ChooseAllMapsAsWritten([fa, fb]).1 == ChooseAllMaps([fa, fb]).1
  {
    StaleFirstFile(fa, ra);
    StaleSecondFile(fb, h, ra, rx, rb, MapName(Stem(fa.name), 0));
    StaleCorrected(fa, fb, h, ra, rx, rb);
    assert [fa, fb][..1] == [fa];
  }

  /** A list object of the program: `current_map` and every entry of `maps`. */
  class MapLines {
    var rows: seq<string>

    constructor()
      ensures rows == []
    {
      rows := [];
    }
  }

  /** The list objects mirror the state of the as-written loop: entry `i`
      holds `p.maps[i]`, and exactly the last `p.aliases` entries are the
      object `current` refers to. */
  ghost predicate Mirrors(lists: seq<MapLines>, current: MapLines, p: Pass)
    reads lists, current
  {
    |lists| == |p.maps| && p.aliases <= |lists|
    && current.rows == p.current
    && (forall i :: 0 <= i < |lists| ==> lists[i].rows == p.maps[i])
    && (forall i :: 0 <= i < |lists| ==> (lists[i] == current <==> i >= |lists| - p.aliases))
  }

  /** `choose_all_maps` as written, with its list objects. The directory
      listing, natural sort and `isfile` filter are done by the caller:
      `files` is already that list. */
  method ChooseAllMapsIn(files: seq<DataFile>) returns (maps: seq<MapLines>, names: seq<string>)
    requires FilesOk(files)
    ensures |maps| == |ChooseAllMapsAsWritten(files).0|
    ensures forall i :: 0 <= i < |maps| ==> maps[i].rows == ChooseAllMapsAsWritten(files).0[i]
    ensures names == ChooseAllMapsAsWritten(files).1
  {
    maps := [];
    names := [];
    var current := new MapLines();
    ghost var p := Pass([], [], [], 0, 0);
    for f := 0 to |files|
      invariant p == PassFiles(files[..f])
      invariant Mirrors(maps, current, p) && names == p.names && fresh(current)
    {
      assert files[..f + 1][..f] == files[..f];
      var stem := Stem(files[f].name);
      var idx;
      maps, current, names, idx := TakeFile(maps, current, names, stem, files[f].lines, p);
      ghost var q := PassLines(p.(idx := 0), stem, files[f].lines);
      ghost var r := Pass(q.maps + [q.current], q.names + [MapName(stem, q.idx)], q.current, q.aliases + 1, q.idx);
      AppendCurrent(maps, current, q, r);
      maps := maps + [current];
      names := names + [MapName(stem, idx)];
      p := r;
    }
    assert files[..|files|] == files;
  }

  /** The inner loop of `choose_all_maps`: the lines of one file, with
      `idx_in_dataset` starting at 0. */
  method TakeFile(maps: seq<MapLines>, current: MapLines, names: seq<string>, stem: string, lines: seq<string>, ghost p: Pass)
    returns (maps': seq<MapLines>, current': MapLines, names': seq<string>, idx: nat)
    requires Mirrors(maps, current, p) && names == p.names && PassOk(p) && LinesOk(lines)
    modifies current
    ensures var q := PassLines(p.(idx := 0), stem, lines);
      Mirrors(maps', current', q) && names' == q.names && idx == q.idx
    ensures current' == current || fresh(current')
  {
    maps', current', names', idx := maps, current, names, 0;
    ghost var p0 := p.(idx := 0);
    ghost var pi := p0;
    for i := 0 to |lines|
      invariant pi == PassLines(p0, stem, lines[..i])
      invariant Mirrors(maps', current', pi) && names' == pi.names && idx == pi.idx
      invariant current' == current || fresh(current')
    {
      assert lines[..i + 1][..i] == lines[..i];
      maps', current', names', idx := TakeLine(maps', current', names', idx, stem, lines[i], pi);
      pi := PassLine(pi, stem, lines[i]);
    }
    assert lines[..|lines|] == lines;
  }

  /** The end of a file appends `current_map` itself to `maps`. */
  lemma AppendCurrent(maps: seq<MapLines>, current: MapLines, p: Pass, q: Pass)
    requires Mirrors(maps, current, p)
    requires q.maps == p.maps + [p.current] && q.current == p.current && q.aliases == p.aliases + 1
    ensures Mirrors(maps + [current], current, q)
  {
  }

  /** The body of the inner loop of `choose_all_maps`: one line of a file. */
  method TakeLine(maps: seq<MapLines>, current: MapLines, names: seq<string>, idx: nat, stem: string, line: string, ghost p: Pass)
    returns (maps': seq<MapLines>, current': MapLines, names': seq<string>, idx': nat)
    requires Mirrors(maps, current, p) && names == p.names && idx == p.idx && PassOk(p) && line != []
    modifies current
    ensures Mirrors(maps', current', PassLine(p, stem, line))
    ensures names' == PassLine(p, stem, line).names && idx' == PassLine(p, stem, line).idx
    ensures current' == current || fresh(current')
  {
    maps', current', names', idx' := CloseMap(maps, current, names, idx, stem, line, p);
    AddRowTo(maps', current', line, Close(p, stem, line));
  }

  /** The ';' test of the inner loop: append the current list and start
      a new one. */
  method CloseMap(maps: seq<MapLines>, current: MapLines, names: seq<string>, idx: nat, stem: string, line: string, ghost p: Pass)
    returns (maps': seq<MapLines>, current': MapLines, names': seq<string>, idx': nat)
    requires Mirrors(maps, current, p) && names == p.names && idx == p.idx && PassOk(p)
    ensures Mirrors(maps', current', Close(p, stem, line))
    ensures names' == Close(p, stem, line).names && idx' == Close(p, stem, line).idx
    ensures current' == current || fresh(current')
  {
    maps', current', names', idx' := maps, current, names, idx;
    if ';' in line && current.rows != [] {
      maps' := maps' + [current'];
      names' := names' + [MapName(stem, idx')];
      idx' := idx' + 1;
      current' := new MapLines();
    }
  }

  /** The '#' test of the inner loop: append the stripped line to the
      current list, which every entry sharing it sees. */
  method AddRowTo(maps: seq<MapLines>, current: MapLines, line: string, ghost q: Pass)
    requires Mirrors(maps, current, q) && PassOk(q) && line != []
    modifies current
    ensures Mirrors(maps, current, AddRow(q, line))
  {
    if line[0] == '#' {
      current.rows := current.rows + [Strip(line)];
    }
  }

  // ---------------------------------------------------------------------------
  // export_to_txt_file

  /** The text of one row per line. */
  function MapText(rows: seq<string>): string
  {
    if rows == [] then [] else rows[0] + "\n" + MapText(rows[1..])
  }

  /** What `export_to_txt_file` writes: each row on its own line, an empty
      line, then the recorded moves. */
  function Exported(rows: seq<string>, actions: string): string
  {
    MapText(rows) + "\n" + actions
  }

  /** `export_to_txt_file`, with the file's content as the result. */
  method ExportToTxt(rows: seq<string>, actions: string) returns (text: string)
    ensures text == Exported(rows, actions)
  {
    text := [];
    for i := 0 to |rows|
      invariant text + MapText(rows[i..]) == MapText(rows)
    {
      assert rows[i..][1..] == rows[i + 1..];
      text := text + rows[i] + "\n";
    }
    text := text + "\n" + actions;
  }

  lemma {:induction false} ExportedLines(rows: seq<string>, actions: string)
    requires forall i :: 0 <= i < |rows| ==> '\n' !in rows[i]
    ensures ReadLines(Exported(rows, actions)) == RowLines(rows) + ["\n"] + ReadLines(actions)
  {
    if rows == [] {
      ExportedEmpty(actions);
      assert RowLines(rows) + ["\n"] == ["\n"];
    } else {
      var tail := Exported(rows[1..], actions);
      ExportedLines(rows[1..], actions);
      ExportedCons(rows, actions);
      ReadLinesCons(rows[0], tail);
      RowLinesCons(rows);
    }
  }

  lemma ExportedEmpty(actions: string)
    ensures ReadLines(Exported([], actions)) == ["\n"] + ReadLines(actions)
  {
    var none: seq<string> := [];
    assert MapText(none) == [];
    assert Exported(none, actions) == "\n" + actions;
    assert "" + "\n" + actions == "\n" + actions;
    ReadLinesCons("", actions);
    assert ["" + "\n"] == ["\n"];
  }

  lemma ExportedCons(rows: seq<string>, actions: string)
    requires rows != []
    ensures Exported(rows, actions) == rows[0] + "\n" + Exported(rows[1..], actions)
  {
  }

  lemma RowLinesCons(rows: seq<string>)
    requires rows != []
    ensures RowLines(rows) == [rows[0] + "\n"] + RowLines(rows[1..])
  {
  }

  /** Reading an exported file back the way the replay program does
      (`read_map_from_file`) gives the map rows again, and the lines after
      the empty one are those of the recorded moves. */
  lemma ExportReadBack(rows: seq<string>, actions: string)
    requires forall i :: 0 <= i < |rows| ==> MapRow(rows[i])
    ensures var lines := ReadLines(Exported(rows, actions));
      |lines| > |rows| && CharGame.WallPrefix(lines) == rows && lines[|rows|] == "\n" && lines[|rows| + 1..] == ReadLines(actions)
  {
    var lines := ReadLines(Exported(rows, actions));
    ExportedLines(rows, actions);
    assert lines[|rows|] == "\n";
    WallPrefixRows(rows, lines);
    assert lines[|rows| + 1..] == ReadLines(actions);
  }

  /** The wall-line prefix of lines that start with the given rows, each
      with its line break, followed by a line that is not a wall line. */
  lemma WallPrefixRows(rows: seq<string>, lines: seq<string>)
    requires forall i :: 0 <= i < |rows| ==> MapRow(rows[i])
    requires LinesOk(lines) && |lines| > |rows| && lines[|rows|][0] != '#'
    requires forall i :: 0 <= i < |rows| ==> lines[i] == rows[i] + "\n"
    ensures CharGame.WallPrefix(lines) == rows
  {
    var r := CharGame.WallPrefix(lines);
    WallPrefixLength(rows, lines);
    forall i | 0 <= i < |rows| ensures r[i] == rows[i] {
      StripLine(rows[i]);
    }
  }

  lemma WallPrefixLength(rows: seq<string>, lines: seq<string>)
    requires forall i :: 0 <= i < |rows| ==> MapRow(rows[i])
    requires LinesOk(lines) && |lines| > |rows| && lines[|rows|][0] != '#'
    requires forall i :: 0 <= i < |rows| ==> lines[i] == rows[i] + "\n"
    ensures |CharGame.WallPrefix(lines)| == |rows|
  {
    forall i | 0 <= i < |rows| ensures lines[i][0] == '#' {
      assert lines[i][0] == rows[i][0];
    }
  }
}
