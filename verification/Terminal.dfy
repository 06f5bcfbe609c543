// The console of kernel/util.c: what the character grid holds.
module Terminal {
  import opened Bytes

  const FONT_WIDTH: int := 8
  const FONT_HEIGHT: int := 8
  const FONT_CODE_MAX: int := 128
  const MAX_LINES: int := 1920 / FONT_HEIGHT
  const MAX_CHARS_IN_LINE: int := 1080 / FONT_WIDTH
  const ROW_LEN: int := MAX_CHARS_IN_LINE + 1
  const NEWLINE: Byte := 10

  type Row = seq<Byte>

  // --- C strings in fixed rows ---

  function CLen(row: Row): (n: nat)
    ensures n <= |row|
    ensures forall k :: 0 <= k < n ==> row[k] != 0
    ensures n < |row| ==> row[n] == 0
  {
    if row == [] || row[0] == 0 then 0 else 1 + CLen(row[1..])
  }

  function CStr(row: Row): Row { row[..CLen(row)] }

  lemma CLenIs(row: Row, n: nat)
    requires n <= |row| && (forall k :: 0 <= k < n ==> row[k] != 0) && (n < |row| ==> row[n] == 0)
    ensures CLen(row) == n
  {}

  // my_strcpy(dst, src): the string and its terminator; the rest of dst stays.
  function Strcpy(dst: Row, src: Row): Row
    requires CLen(src) < |dst|
  {
    CStr(src) + [0] + dst[CLen(src) + 1..]
  }

  lemma StrcpyString(dst: Row, src: Row)
    requires CLen(src) < |dst|
    ensures CStr(Strcpy(dst, src)) == CStr(src)
  {
    CLenIs(Strcpy(dst, src), CLen(src));
  }

  // --- the grid ---

  // rows has MAX_LINES rows; lines and chars are the numbers in use.
  datatype Screen = Screen(rows: seq<Row>, line: nat, pos: nat)

  ghost predicate SizeOk(lines: nat, chars: nat) {
    1 <= lines <= MAX_LINES && 1 <= chars <= MAX_CHARS_IN_LINE
  }

  ghost predicate GridOk(rows: seq<Row>, chars: nat) {
    |rows| == MAX_LINES && forall i :: 0 <= i < MAX_LINES ==> RowOk(rows[i], chars)
  }

  // The columns that are not in use always hold NUL.
  ghost predicate RowOk(row: Row, chars: nat) {
    |row| == ROW_LEN && forall j :: chars <= j < ROW_LEN ==> row[j] == 0
  }

  ghost predicate ScreenOk(sc: Screen, lines: nat, chars: nat) {
    SizeOk(lines, chars) && GridOk(sc.rows, chars) && sc.line < lines && sc.pos <= chars
  }

  lemma RowLength(row: Row, chars: nat)
    requires RowOk(row, chars) && chars <= MAX_CHARS_IN_LINE
    ensures CLen(row) <= chars
  {
    assert row[chars] == 0;
  }

  // The first k of the copies that shift the lines up by one.
  function Shifted(rows: seq<Row>, k: nat): seq<Row>
    requires k < |rows|
    requires forall i :: 0 <= i < |rows| ==> CLen(rows[i]) < ROW_LEN == |rows[i]|
  {
    seq(|rows|, i requires 0 <= i < |rows| => if i < k then Strcpy(rows[i], rows[i + 1]) else rows[i])
  }

  lemma ShiftedStep(rows: seq<Row>, k: nat)
    requires k + 1 < |rows|
    requires forall i :: 0 <= i < |rows| ==> CLen(rows[i]) < ROW_LEN == |rows[i]|
    ensures Shifted(rows, 0) == rows
    ensures Shifted(rows, k)[k] == rows[k] && Shifted(rows, k)[k + 1] == rows[k + 1]
    ensures Shifted(rows, k)[k := Strcpy(rows[k], rows[k + 1])] == Shifted(rows, k + 1)
  {
    hide CLen;
    hide Strcpy;
  }

  function Scrolled(rows: seq<Row>, lines: nat, chars: nat): seq<Row>
    requires SizeOk(lines, chars) && GridOk(rows, chars)
  {
    RowsShort(rows, chars);
    var up := Shifted(rows, lines - 1);
    up[lines - 1 := SetChar(up[lines - 1], 0, 0)]
  }

  lemma RowsShort(rows: seq<Row>, chars: nat)
    requires GridOk(rows, chars) && chars <= MAX_CHARS_IN_LINE
    ensures forall i :: 0 <= i < |rows| ==> CLen(rows[i]) < ROW_LEN == |rows[i]|
  {
    forall i | 0 <= i < |rows| ensures CLen(rows[i]) < ROW_LEN { RowLength(rows[i], chars); }
  }

  function SetChar(row: Row, j: nat, c: Byte): Row
    requires j < |row|
  {
    row[j := c]
  }

  predicate Breaks(sc: Screen, chars: nat, c: Byte) { c == NEWLINE || sc.pos == chars }

  predicate Scrolls(sc: Screen, lines: nat, chars: nat, c: Byte) { Breaks(sc, chars, c) && sc.line + 1 == lines }

  // What putc(c) does to the grid and the cursor.
  function Put(sc: Screen, lines: nat, chars: nat, c: Byte): Screen
    requires ScreenOk(sc, lines, chars)
  {
    if Breaks(sc, chars, c) then
      var rows := if sc.line + 1 == lines then Scrolled(sc.rows, lines, chars) else sc.rows;
      var line := if sc.line + 1 == lines then sc.line else sc.line + 1;
      if c == NEWLINE then Screen(rows, line, 0)
      else Screen(rows[line := SetChar(rows[line], 0, c)], line, 1)
    else
      Screen(sc.rows[sc.line := SetChar(sc.rows[sc.line], sc.pos, c)], sc.line, sc.pos + 1)
  }

  lemma StrcpyOk(dst: Row, src: Row, chars: nat)
    requires RowOk(dst, chars) && RowOk(src, chars) && chars <= MAX_CHARS_IN_LINE
    ensures CLen(src) < |dst| && RowOk(Strcpy(dst, src), chars)
  {
    RowLength(src, chars);
  }

  lemma ScrolledRow(rows: seq<Row>, lines: nat, chars: nat, k: nat)
    requires SizeOk(lines, chars) && GridOk(rows, chars) && k < MAX_LINES
    ensures |Scrolled(rows, lines, chars)| == MAX_LINES
    ensures k + 1 < lines ==>
              CLen(rows[k + 1]) < |rows[k]| && Scrolled(rows, lines, chars)[k] == Strcpy(rows[k], rows[k + 1])
    ensures k + 1 == lines ==> Scrolled(rows, lines, chars)[k] == SetChar(rows[k], 0, 0)
    ensures k + 1 > lines ==> Scrolled(rows, lines, chars)[k] == rows[k]
  {
    hide CLen;
    hide Strcpy;
    hide RowOk;
    RowsShort(rows, chars);
  }

  lemma ScrolledOk(rows: seq<Row>, lines: nat, chars: nat)
    requires SizeOk(lines, chars) && GridOk(rows, chars)
    ensures GridOk(Scrolled(rows, lines, chars), chars)
  {
    hide Scrolled;
    hide CLen;
    hide Strcpy;
    ScrolledRow(rows, lines, chars, 0);
    forall i | 0 <= i < MAX_LINES ensures RowOk(Scrolled(rows, lines, chars)[i], chars) {
      ScrolledRow(rows, lines, chars, i);
      assert RowOk(rows[i], chars);
      if i < lines - 1 { StrcpyOk(rows[i], rows[i + 1], chars); }
    }
  }

  lemma PutOk(sc: Screen, lines: nat, chars: nat, c: Byte)
    requires ScreenOk(sc, lines, chars)
    ensures ScreenOk(Put(sc, lines, chars, c), lines, chars)
  {
    ScrolledOk(sc.rows, lines, chars);
  }

  // --- the lines of the whole input ---

  // A full line breaks only when the next character arrives.
  function Lines(cs: seq<Byte>, chars: nat): (ls: seq<Row>)
    ensures |ls| >= 1
  {
    if cs == [] then [[]] else
    var ls := Lines(cs[..|cs| - 1], chars);
    var last, c := ls[|ls| - 1], cs[|cs| - 1];
    if c == NEWLINE then ls + [[]]
    else if |last| == chars then ls + [[c]]
    else ls[..|ls| - 1] + [last + [c]]
  }

  // Lines put together again; nl[k] says whether a newline ended line k.
  function Join(ls: seq<Row>, nl: seq<bool>): seq<Byte>
    requires |ls| == |nl| + 1
  {
    var n := |nl|;
    if n == 0 then ls[0] else Join(ls[..n], nl[..n - 1]) + (if nl[n - 1] then [NEWLINE] else []) + ls[n]
  }

  // A splitting into lines of at most `chars` characters that breaks only at
  // newlines and where one more character follows a full line.
  ghost predicate Splits(ls: seq<Row>, nl: seq<bool>, chars: nat) {
    && |ls| == |nl| + 1
    && (forall k :: 0 <= k < |ls| ==> |ls[k]| <= chars && 10 !in ls[k])
    && (forall k :: 0 <= k < |nl| && !nl[k] ==> |ls[k]| == chars && |ls[k + 1]| > 0)
  }

  // Lines is such a splitting of the input.
  lemma {:induction false} LinesAre(cs: seq<Byte>, chars: nat) returns (nl: seq<bool>)
    requires chars >= 1
    ensures Splits(Lines(cs, chars), nl, chars) && Join(Lines(cs, chars), nl) == cs
    decreases |cs|
  {
    hide Splits;
    hide Join;
    if cs == [] {
      nl := [];
      NoLineSplits(chars);
    } else {
      var n, c := |cs| - 1, cs[|cs| - 1];
      var ls := Lines(cs[..n], chars);
      nl := LinesAre(cs[..n], chars);
      SplitsLengths(ls, nl, chars);
      assert cs == cs[..n] + [c];
      if c == NEWLINE {
        JoinMore(ls, nl, [], true);
        SplitsMore(ls, nl, chars, [], true);
        assert Join(ls, nl) + [NEWLINE] + [] == cs;
        nl := nl + [true];
      } else if |ls[|ls| - 1]| == chars {
        JoinMore(ls, nl, [c], false);
        SplitsMore(ls, nl, chars, [c], false);
        assert Join(ls, nl) + [] + [c] == cs;
        nl := nl + [false];
      } else {
        JoinLonger(ls, nl, c);
        SplitsLonger(ls, nl, chars, c);
      }
    }
  }

  // And it is the only one.
  lemma {:induction false} OnlySplitting(ls: seq<Row>, nl: seq<bool>, chars: nat)
    requires chars >= 1 && Splits(ls, nl, chars)
    ensures Lines(Join(ls, nl), chars) == ls
    decreases |Join(ls, nl)|
  {
    hide Splits;
    hide Lines;
    hide Join;
    LastFacts(ls, nl, chars);
    var n := |nl|;
    var last := ls[n];
    if last == [] && n == 0 {
      assert ls == [[]];
      NoLines(chars);
    } else if n > 0 && (last == [] || (|last| == 1 && !nl[n - 1])) {
      Shorter(ls, nl, chars);
      JoinLast(ls, nl);
      var c := if last == [] then NEWLINE else last[0];
      assert Join(ls, nl) == Join(ls[..n], nl[..n - 1]) + [c];
      OnlySplitting(ls[..n], nl[..n - 1], chars);
      LinesMore(Join(ls[..n], nl[..n - 1]), c, chars);
      assert ls[..n] + [last] == ls && last == NewLine(c);
    } else {
      var c, rest := last[|last| - 1], last[..|last| - 1];
      var ls0 := ls[..n] + [rest];
      assert rest + [c] == last && c in last;
      LastShorter(ls, nl, chars);
      JoinLonger(ls0, nl, c);
      assert ls0[..n] + [ls0[n] + [c]] == ls;
      OnlySplitting(ls0, nl, chars);
      LinesMore(Join(ls0, nl), c, chars);
    }
  }

  lemma LastFacts(ls: seq<Row>, nl: seq<bool>, chars: nat)
    requires Splits(ls, nl, chars)
    ensures |ls| == |nl| + 1 && |ls[|nl|]| <= chars && NEWLINE !in ls[|nl|]
    ensures |nl| > 0 && !nl[|nl| - 1] ==> |ls[|nl| - 1]| == chars && ls[|nl|] != []
    ensures |nl| == 0 ==> Join(ls, nl) == ls[0]
  {}

  lemma JoinLast(ls: seq<Row>, nl: seq<bool>)
    requires |ls| == |nl| + 1 && |nl| > 0
    ensures Join(ls, nl) ==
            Join(ls[..|nl|], nl[..|nl| - 1]) + (if nl[|nl| - 1] then [NEWLINE] else []) + ls[|nl|]
  {}

  lemma Shorter(ls: seq<Row>, nl: seq<bool>, chars: nat)
    requires Splits(ls, nl, chars) && |nl| > 0
    ensures Splits(ls[..|nl|], nl[..|nl| - 1], chars)
  {
    var n := |nl|;
    var ls0, nl0 := ls[..n], nl[..n - 1];
    forall k | 0 <= k < |nl0| && !nl0[k] ensures |ls0[k]| == chars && |ls0[k + 1]| > 0 { assert !nl[k]; }
  }

  lemma LastShorter(ls: seq<Row>, nl: seq<bool>, chars: nat)
    requires Splits(ls, nl, chars) && ls[|nl|] != []
    requires |ls[|nl|]| > 1 || |nl| == 0 || nl[|nl| - 1]
    ensures var last := ls[|nl|]; Splits(ls[..|nl|] + [last[..|last| - 1]], nl, chars)
  {
    var n, last := |nl|, ls[|nl|];
    var ls0 := ls[..n] + [last[..|last| - 1]];
    forall k | 0 <= k < |ls0| ensures |ls0[k]| <= chars && 10 !in ls0[k] {
      assert 10 !in ls[k];
      assert ls0[k] == if k < n then ls[k] else last[..|last| - 1];
    }
    forall k | 0 <= k < |nl| && !nl[k] ensures |ls0[k]| == chars && |ls0[k + 1]| > 0 {
      assert ls0[k] == ls[k] && |ls[k]| == chars;
    }
  }

  lemma NoLineSplits(chars: nat)
    ensures Splits([[]], [], chars) && Join([[]], []) == []
  {}

  lemma SplitsLengths(ls: seq<Row>, nl: seq<bool>, chars: nat)
    requires Splits(ls, nl, chars)
    ensures |ls| == |nl| + 1 && |ls[|nl|]| <= chars
  {}

  lemma SplitsMore(ls: seq<Row>, nl: seq<bool>, chars: nat, line: Row, newline: bool)
    requires Splits(ls, nl, chars) && |line| <= chars && NEWLINE !in line
    requires !newline ==> |ls[|nl|]| == chars && |line| > 0
    ensures Splits(ls + [line], nl + [newline], chars)
  {
    var ls', nl' := ls + [line], nl + [newline];
    forall k | 0 <= k < |ls'| ensures |ls'[k]| <= chars && 10 !in ls'[k] {
      assert ls'[k] == if k < |ls| then ls[k] else line;
    }
    forall k | 0 <= k < |nl'| && !nl'[k] ensures |ls'[k]| == chars && |ls'[k + 1]| > 0 {
      if k < |nl| { assert !nl[k] && ls'[k] == ls[k] && ls'[k + 1] == ls[k + 1]; }
    }
  }

  lemma SplitsLonger(ls: seq<Row>, nl: seq<bool>, chars: nat, c: Byte)
    requires Splits(ls, nl, chars) && |ls[|nl|]| < chars && c != NEWLINE
    ensures Splits(ls[..|nl|] + [ls[|nl|] + [c]], nl, chars)
  {
    var n := |nl|;
    var ls' := ls[..n] + [ls[n] + [c]];
    forall k | 0 <= k < |ls'| ensures |ls'[k]| <= chars && 10 !in ls'[k] {
      assert ls'[k] == if k < n then ls[k] else ls[n] + [c];
      assert |ls[k]| <= chars && 10 !in ls[k];
    }
    forall k | 0 <= k < |nl| && !nl[k] ensures |ls'[k]| == chars && |ls'[k + 1]| > 0 {
      assert ls'[k] == ls[k] && |ls'[k + 1]| >= |ls[k + 1]|;
    }
  }

  lemma JoinMore(ls: seq<Row>, nl: seq<bool>, line: Row, newline: bool)
    requires |ls| == |nl| + 1
    ensures Join(ls + [line], nl + [newline]) == Join(ls, nl) + (if newline then [NEWLINE] else []) + line
  {
    assert (ls + [line])[..|ls|] == ls && (nl + [newline])[..|nl|] == nl;
  }

  lemma JoinLonger(ls: seq<Row>, nl: seq<bool>, c: Byte)
    requires |ls| == |nl| + 1
    ensures Join(ls[..|nl|] + [ls[|nl|] + [c]], nl) == Join(ls, nl) + [c]
  {
    var n := |nl|;
    var ls' := ls[..n] + [ls[n] + [c]];
    assert ls'[..n] == ls[..n];
  }

  predicate NonNul(cs: seq<Byte>) { forall k :: 0 <= k < |cs| ==> cs[k] != 0 }

  // s written over t, from the left.
  function Over(s: Row, t: Row): Row { s + if |s| < |t| then t[|s|..] else [] }

  // What the row that line j is written in holds once it is written. Before the
  // first scroll every line has a row of its own; after it the lines share the
  // last row, one over the other, because a scroll clears its first column only.
  function Raw(ls: seq<Row>, lines: nat, j: nat): Row
    requires j < |ls| && lines >= 1
  {
    if j < lines then ls[j] else Over(ls[j], Raw(ls, lines, j - 1))
  }

  // The string that shows line j.
  function Visible(ls: seq<Row>, lines: nat, j: nat): Row
    requires j < |ls| && lines >= 1
  {
    if ls[j] == [] then [] else Raw(ls, lines, j)
  }

  lemma {:induction false} RawSame(ls: seq<Row>, ls': seq<Row>, lines: nat, j: nat)
    requires lines >= 1 && j < |ls| && j < |ls'| && forall i :: 0 <= i <= j ==> ls[i] == ls'[i]
    ensures Raw(ls, lines, j) == Raw(ls', lines, j) && Visible(ls, lines, j) == Visible(ls', lines, j)
  {
    if j < lines {
    } else {
      RawSame(ls, ls', lines, j - 1);
    }
  }

  predicate LinesOk(ls: seq<Row>, chars: nat) { forall k :: 0 <= k < |ls| ==> NonNul(ls[k]) && |ls[k]| <= chars }

  lemma {:induction false} RawOk(ls: seq<Row>, lines: nat, chars: nat, j: nat)
    requires LinesOk(ls, chars) && lines >= 1 && j < |ls|
    ensures NonNul(Raw(ls, lines, j)) && |ls[j]| <= |Raw(ls, lines, j)| <= chars && ls[j] <= Raw(ls, lines, j)
  {
    if j < lines {
    } else {
      RawOk(ls, lines, chars, j - 1);
    }
  }

  // The overlay is as long as the longest line in it.
  lemma {:induction false} RawLength(ls: seq<Row>, lines: nat, j: nat)
    requires 1 <= lines && lines - 1 <= j < |ls|
    ensures forall i :: lines - 1 <= i <= j ==> |ls[i]| <= |Raw(ls, lines, j)|
    ensures exists i :: lines - 1 <= i <= j && |ls[i]| == |Raw(ls, lines, j)|
  {
    if j < lines {
      assert j == lines - 1 && |ls[j]| == |Raw(ls, lines, j)|;
    } else {
      RawLength(ls, lines, j - 1);
      var i :| lines - 1 <= i <= j - 1 && |ls[i]| == |Raw(ls, lines, j - 1)|;
      assert |ls[if |ls[j]| < |ls[i]| then i else j]| == |Raw(ls, lines, j)|;
    }
  }

  // No line since the first scroll, nor the one before it, was longer.
  predicate LongestSinceScroll(ls: seq<Row>, lines: nat, j: nat)
    requires j < |ls|
  {
    forall i :: 0 <= i < |ls| && lines - 1 <= i < j ==> |ls[i]| <= |ls[j]|
  }

  lemma VisibleExact(ls: seq<Row>, lines: nat, chars: nat, j: nat)
    requires LinesOk(ls, chars) && lines >= 1 && j < |ls|
    ensures Visible(ls, lines, j) == ls[j] <==> j < lines || ls[j] == [] || LongestSinceScroll(ls, lines, j)
  {
    RawOk(ls, lines, chars, j);
    if j >= lines {
      RawLength(ls, lines, j);
      if |Raw(ls, lines, j)| == |ls[j]| { assert Raw(ls, lines, j) == ls[j]; }
    }
  }

  // Grid row k shows line `FirstLine + k`.
  function FirstLine(sc: Screen, ls: seq<Row>): int { |ls| - 1 - sc.line }

  ghost predicate Blank(row: Row) { forall j :: 0 <= j < |row| ==> row[j] == 0 }

  ghost predicate Shape(sc: Screen, lines: nat, chars: nat, ls: seq<Row>) {
    && ScreenOk(sc, lines, chars) && LinesOk(ls, chars)
    && sc.line == (if |ls| <= lines then |ls| - 1 else lines - 1)
    && |ls| > 0 && sc.pos == |ls[|ls| - 1]|
    && (forall k :: sc.line < k < lines ==> Blank(sc.rows[k]))
  }

  ghost predicate RowShows(sc: Screen, lines: nat, ls: seq<Row>, k: nat)
    requires k < |sc.rows| && 0 <= FirstLine(sc, ls) + k < |ls| && lines >= 1
  {
    CStr(sc.rows[k]) == Visible(ls, lines, FirstLine(sc, ls) + k)
  }

  // Every byte of a row that `line` is being written in, over `raw`.
  ghost predicate Keeps(row: Row, line: Row, raw: Row) {
    forall c :: 0 <= c < |row| ==> row[c] == if c < |raw| && (c > 0 || line != []) then raw[c] else 0
  }

  ghost predicate LastKeeps(sc: Screen, lines: nat, ls: seq<Row>)
    requires sc.line < |sc.rows| && |ls| > 0 && lines >= 1
  {
    Keeps(sc.rows[sc.line], ls[|ls| - 1], Raw(ls, lines, |ls| - 1))
  }

  ghost predicate History(sc: Screen, lines: nat, chars: nat, ls: seq<Row>) {
    Shape(sc, lines, chars, ls) && LastKeeps(sc, lines, ls) && forall k: nat | k <= sc.line :: RowShows(sc, lines, ls, k)
  }

  lemma KeepsString(row: Row, line: Row, raw: Row)
    requires Keeps(row, line, raw) && NonNul(raw) && line <= raw && |raw| < |row|
    ensures CStr(row) == if line == [] then [] else raw
  {
    CLenIs(row, if line == [] then 0 else |raw|);
  }

  lemma LastShows(sc: Screen, lines: nat, chars: nat, ls: seq<Row>)
    requires Shape(sc, lines, chars, ls) && LastKeeps(sc, lines, ls)
    ensures RowShows(sc, lines, ls, sc.line)
  {
    hide CLen;
    hide Raw;
    hide Keeps;
    hide NonNul;
    RawOk(ls, lines, chars, |ls| - 1);
    KeepsString(sc.rows[sc.line], ls[|ls| - 1], Raw(ls, lines, |ls| - 1));
  }

  // One more character of the line that is being written.
  lemma KeepsMore(row: Row, line: Row, raw: Row, below: Row, c: Byte)
    requires Keeps(row, line, raw) && raw == Over(line, below) && |line| < |row|
    ensures Keeps(row[|line| := c], line + [c], Over(line + [c], below))
  {}

  lemma PutChar(sc: Screen, lines: nat, chars: nat, ls: seq<Row>, c: Byte)
    requires History(sc, lines, chars, ls) && !Breaks(sc, chars, c) && c != 0
    ensures var last := ls[|ls| - 1];
            History(Put(sc, lines, chars, c), lines, chars, ls[..|ls| - 1] + [last + [c]])
  {
    hide CLen;
    hide Keeps;
    hide Over;
    hide Blank;
    hide LinesOk;
    hide Raw;
    var n := |ls| - 1;
    var ls' := ls[..n] + [ls[n] + [c]];
    var sc' := Put(sc, lines, chars, c);
    CharShape(sc, lines, chars, ls, c);
    CharKeeps(sc, lines, ls, c);
    LastShows(sc', lines, chars, ls');
    forall k: nat | k <= sc'.line ensures RowShows(sc', lines, ls', k) {
      if k < sc.line {
        assert RowShows(sc, lines, ls, k);
        RawSame(ls, ls', lines, FirstLine(sc, ls) + k);
      }
    }
  }

  lemma CharShape(sc: Screen, lines: nat, chars: nat, ls: seq<Row>, c: Byte)
    requires Shape(sc, lines, chars, ls) && !Breaks(sc, chars, c) && c != 0
    ensures Shape(Put(sc, lines, chars, c), lines, chars, ls[..|ls| - 1] + [ls[|ls| - 1] + [c]])
  {
    hide CLen;
    PutOk(sc, lines, chars, c);
  }

  lemma CharKeeps(sc: Screen, lines: nat, ls: seq<Row>, c: Byte)
    requires |ls| > 0 && lines >= 1 && sc.line < |sc.rows| && sc.pos == |ls[|ls| - 1]| < |sc.rows[sc.line]|
    requires LastKeeps(sc, lines, ls)
    ensures var ls' := ls[..|ls| - 1] + [ls[|ls| - 1] + [c]];
            Keeps(sc.rows[sc.line][sc.pos := c], ls'[|ls| - 1], Raw(ls', lines, |ls| - 1))
  {
    hide Keeps;
    hide Over;
    var n := |ls| - 1;
    var ls' := ls[..n] + [ls[n] + [c]];
    if n >= lines { RawSame(ls, ls', lines, n - 1); }
    var below := if n < lines then [] else Raw(ls, lines, n - 1);
    OverNothing(ls[n]);
    OverNothing(ls[n] + [c]);
    KeepsMore(sc.rows[sc.line], ls[n], Raw(ls, lines, n), below, c);
  }

  lemma OverNothing(s: Row)
    ensures Over(s, []) == s
  {}

  function NewLine(c: Byte): Row { if c == NEWLINE then [] else [c] }

  // A new line begun in a row whose string is empty.
  lemma KeepsNew(row: Row, line: Row, raw: Row, c: Byte)
    requires Keeps(row, line, raw) && |row| > 0
    ensures var row' := SetChar(row, 0, 0);
            Keeps(if c == NEWLINE then row' else SetChar(row', 0, c), NewLine(c), Over(NewLine(c), raw))
  {}

  // The counters and the blank rows after a break.
  lemma BreakShape(sc: Screen, lines: nat, chars: nat, ls: seq<Row>, c: Byte)
    requires Shape(sc, lines, chars, ls) && Breaks(sc, chars, c) && c != 0
    ensures Shape(Put(sc, lines, chars, c), lines, chars, ls + [NewLine(c)])
  {
    hide CLen;
    hide Scrolled;
    PutOk(sc, lines, chars, c);
    var ls' := ls + [NewLine(c)];
    forall k | 0 <= k < |ls'| ensures NonNul(ls'[k]) && |ls'[k]| <= chars {
      if k < |ls| { assert ls'[k] == ls[k]; }
    }
  }

  // A break above the last row: the next row is blank.
  lemma PutBreak(sc: Screen, lines: nat, chars: nat, ls: seq<Row>, c: Byte)
    requires History(sc, lines, chars, ls) && Breaks(sc, chars, c) && sc.line + 1 < lines && c != 0
    ensures History(Put(sc, lines, chars, c), lines, chars, ls + [NewLine(c)])
  {
    hide CLen;
    hide Scrolled;
    var sc', ls' := Put(sc, lines, chars, c), ls + [NewLine(c)];
    BreakShape(sc, lines, chars, ls, c);
    assert Blank(sc.rows[sc.line + 1]);
    assert LastKeeps(sc', lines, ls');
    LastShows(sc', lines, chars, ls');
    forall k: nat | k <= sc'.line ensures RowShows(sc', lines, ls', k) {
      if k <= sc.line {
        assert RowShows(sc, lines, ls, k);
        RawSame(ls, ls', lines, FirstLine(sc, ls) + k);
      }
    }
  }

  lemma ScrollShows(sc: Screen, lines: nat, chars: nat, ls: seq<Row>, c: Byte, k: nat)
    requires History(sc, lines, chars, ls) && Scrolls(sc, lines, chars, c) && c != 0 && k < sc.line
    ensures RowShows(Put(sc, lines, chars, c), lines, ls + [NewLine(c)], k)
  {
    hide CLen;
    hide Scrolled;
    hide Strcpy;
    hide Raw;
    ScrolledRow(sc.rows, lines, chars, k);
    assert RowShows(sc, lines, ls, k + 1);
    StrcpyString(sc.rows[k], sc.rows[k + 1]);
    RawSame(ls, ls + [NewLine(c)], lines, FirstLine(sc, ls) + 1 + k);
  }

  // A break on the last row: every line moves up by one, and the new line is
  // written over what the last row held.
  lemma PutScroll(sc: Screen, lines: nat, chars: nat, ls: seq<Row>, c: Byte)
    requires History(sc, lines, chars, ls) && Scrolls(sc, lines, chars, c) && c != 0
    ensures History(Put(sc, lines, chars, c), lines, chars, ls + [NewLine(c)])
  {
    hide CLen;
    hide Keeps;
    hide Over;
    hide Blank;
    hide NonNul;
    hide Scrolled;
    hide Strcpy;
    var sc', ls' := Put(sc, lines, chars, c), ls + [NewLine(c)];
    BreakShape(sc, lines, chars, ls, c);
    ScrolledRow(sc.rows, lines, chars, sc.line);
    KeepsNew(sc.rows[sc.line], ls[|ls| - 1], Raw(ls, lines, |ls| - 1), c);
    RawSame(ls, ls', lines, |ls| - 1);
    assert LastKeeps(sc', lines, ls');
    LastShows(sc', lines, chars, ls');
    forall k: nat | k <= sc'.line ensures RowShows(sc', lines, ls', k) {
      if k < sc.line { ScrollShows(sc, lines, chars, ls, c, k); }
    }
  }

  function PutAll(sc: Screen, lines: nat, chars: nat, cs: seq<Byte>): (sc': Screen)
    requires ScreenOk(sc, lines, chars)
    ensures ScreenOk(sc', lines, chars)
  {
    if cs == [] then sc else
    var before := PutAll(sc, lines, chars, cs[..|cs| - 1]);
    PutOk(before, lines, chars, cs[|cs| - 1]);
    Put(before, lines, chars, cs[|cs| - 1])
  }

  function BlankScreen(): Screen {
    Screen(seq(MAX_LINES, _ => seq(ROW_LEN, _ => 0)), 0, 0)
  }

  // Whatever has been written, the grid shows the last lines of it.
  lemma {:induction false} TerminalHistory(lines: nat, chars: nat, cs: seq<Byte>)
    requires SizeOk(lines, chars) && NonNul(cs)
    ensures ScreenOk(BlankScreen(), lines, chars)
    ensures History(PutAll(BlankScreen(), lines, chars, cs), lines, chars, Lines(cs, chars))
    decreases |cs|
  {
    if cs == [] {
      assert forall k :: 0 <= k < MAX_LINES ==> Blank(BlankScreen().rows[k]);
      LastShows(BlankScreen(), lines, chars, [[]]);
    } else {
      var before, c := cs[..|cs| - 1], cs[|cs| - 1];
      TerminalHistory(lines, chars, before);
      OneMoreChar(lines, chars, cs);
    }
  }

  lemma OneMoreChar(lines: nat, chars: nat, cs: seq<Byte>)
    requires SizeOk(lines, chars) && NonNul(cs) && cs != [] && ScreenOk(BlankScreen(), lines, chars)
    requires var before := cs[..|cs| - 1];
             History(PutAll(BlankScreen(), lines, chars, before), lines, chars, Lines(before, chars))
    ensures History(PutAll(BlankScreen(), lines, chars, cs), lines, chars, Lines(cs, chars))
  {
    hide Put;
    hide History;
    hide BlankScreen;
    var before, c := cs[..|cs| - 1], cs[|cs| - 1];
    var sc, ls := PutAll(BlankScreen(), lines, chars, before), Lines(before, chars);
    HistoryPos(sc, lines, chars, ls);
    if !Breaks(sc, chars, c) {
      PutChar(sc, lines, chars, ls, c);
    } else if sc.line + 1 < lines {
      PutBreak(sc, lines, chars, ls, c);
    } else {
      PutScroll(sc, lines, chars, ls, c);
    }
  }

  lemma HistoryPos(sc: Screen, lines: nat, chars: nat, ls: seq<Row>)
    requires History(sc, lines, chars, ls)
    ensures |ls| > 0 && sc.pos == |ls[|ls| - 1]| && sc.line < lines && sc.pos <= chars
  {}

  // The text of every row after every history: it begins with its line; it is
  // exactly that line if and only if the line began before the first scroll, is
  // empty, or is at least as long as every line from number lines - 1 on;
  // otherwise the tail of a longer one is still there.
  lemma StaleTail(lines: nat, chars: nat, cs: seq<Byte>, k: nat)
    requires SizeOk(lines, chars) && NonNul(cs) && ScreenOk(BlankScreen(), lines, chars)
    requires k <= PutAll(BlankScreen(), lines, chars, cs).line
    ensures var sc, ls := PutAll(BlankScreen(), lines, chars, cs), Lines(cs, chars);
            var j := FirstLine(sc, ls) + k;
            && 0 <= j < |ls| && CStr(sc.rows[k]) == Visible(ls, lines, j)
            && (ls[j] != [] ==> ls[j] <= CStr(sc.rows[k]))
            && (CStr(sc.rows[k]) == ls[j] <==> j < lines || ls[j] == [] || LongestSinceScroll(ls, lines, j))
  {
    hide PutAll;
    hide Lines;
    hide CLen;
    TerminalHistory(lines, chars, cs);
    var sc, ls := PutAll(BlankScreen(), lines, chars, cs), Lines(cs, chars);
    assert RowShows(sc, lines, ls, k);
    RawOk(ls, lines, chars, FirstLine(sc, ls) + k);
    VisibleExact(ls, lines, chars, FirstLine(sc, ls) + k);
  }

  lemma LinesMore(cs: seq<Byte>, c: Byte, chars: nat)
    ensures var ls := Lines(cs, chars);
            var last := ls[|ls| - 1];
            Lines(cs + [c], chars) ==
            if c == NEWLINE || |last| == chars then ls + [NewLine(c)] else ls[..|ls| - 1] + [last + [c]]
  {
    assert (cs + [c])[..|cs|] == cs;
  }

  lemma NoLines(chars: nat)
    ensures Lines([], chars) == [[]]
  {}

  lemma LineMore(cs: seq<Byte>, before: seq<Row>, last: Row, c: Byte, chars: nat)
    requires Lines(cs, chars) == before + [last] && c != NEWLINE && |last| < chars
    ensures Lines(cs + [c], chars) == before + [last + [c]]
  {
    LinesMore(cs, c, chars);
  }

  // On a screen of one line: "ab", a newline and "c" leave "cb".
  lemma StaleExample()
    ensures var sc := PutAll(BlankScreen(), 1, 3, [97, 98, NEWLINE, 99]);
            CStr(sc.rows[0]) == [99, 98] && Lines([97, 98, NEWLINE, 99], 3) == [[97, 98], [99]]
  {
    hide Lines;
    hide CLen;
    hide PutAll;
    hide BlankScreen;
    ExampleLines();
    var cs: seq<Byte> := [97, 98, NEWLINE, 99];
    var ls := Lines(cs, 3);
    assert Raw(ls, 1, 1) == Over([99], [97, 98]) == [99] + [98];
    TerminalHistory(1, 3, cs);
    StaleTail(1, 3, cs, 0);
  }

  lemma ExampleLines()
    ensures Lines([97, 98, NEWLINE, 99], 3) == [[97, 98], [99]]
  {
    hide Lines;
    var cs: seq<Byte> := [97, 98, NEWLINE, 99];
    var none: seq<Row>, empty: Row := [], [];
    assert [97] + [98] == [97, 98] && [97, 98] + [NEWLINE] == [97, 98, NEWLINE] && [97, 98, NEWLINE] + [99] == cs;
    assert empty + [97] == [97] && empty + [99] == [99] && none + [empty] == [empty];
    assert none + [[97]] == [[97]] && none + [[97, 98]] == [[97, 98]];
    assert [[97, 98]] + [empty] == [[97, 98], empty] && [[97, 98]] + [[99]] == [[97, 98], [99]];
    NoLines(3);
    LineMore([], none, empty, 97, 3);
    LineMore([97], none, [97], 98, 3);
    LinesMore([97, 98], NEWLINE, 3);
    LineMore([97, 98, NEWLINE], [[97, 98]], empty, 99, 3);
  }

  // Where the next character goes, when there is one to write.
  function CellLine(sc: Screen, chars: nat, c: Byte): nat { if Breaks(sc, chars, c) then sc.line + 1 else sc.line }
  function CellPos(sc: Screen, chars: nat, c: Byte): nat { if Breaks(sc, chars, c) then 0 else sc.pos }

  // Until the first scroll that cell is the end of its row's string.
  lemma CellIsEnd(sc: Screen, lines: nat, chars: nat, cs: seq<Byte>, c: Byte)
    requires SizeOk(lines, chars) && NonNul(cs) && ScreenOk(BlankScreen(), lines, chars)
    requires sc == PutAll(BlankScreen(), lines, chars, cs) && |Lines(cs + [c], chars)| <= lines
    ensures |Lines(cs, chars)| <= lines && !Scrolls(sc, lines, chars, c)
    ensures var i, j := CellLine(sc, chars, c), CellPos(sc, chars, c);
            i < lines && j < chars && |sc.rows[i]| == ROW_LEN && CLen(sc.rows[i]) == j && sc.rows[i][j + 1] == 0
  {
    hide PutAll;
    TerminalHistory(lines, chars, cs);
    assert (cs + [c])[..|cs|] == cs;
    var ls := Lines(cs, chars);
    if Breaks(sc, chars, c) {
      assert sc.line + 1 < lines;
      assert Blank(sc.rows[sc.line + 1]);
      CLenIs(sc.rows[sc.line + 1], 0);
    } else {
      assert RowShows(sc, lines, ls, sc.line);
    }
  }
}
