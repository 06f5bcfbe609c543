// kernel/util.c: the console object, its grid and its pixels.
module Util {
  import opened Bits
  import opened Bytes
  import opened Terminal
  import opened Hex
  import Paging

  datatype Color = Color(r: Byte, g: Byte, b: Byte)
  datatype Pixel = Pixel(color: Color, reserved: Byte)

  const WHITE: Color := Color(255, 255, 255)
  const BLACK: Color := Color(0, 0, 0)

  lemma IndexInjective(width: nat, x: nat, y: nat, x': nat, y': nat)
    requires y < width && y' < width && width * x + y == width * x' + y'
    ensures x == x' && y == y'
  {
    if x < x' { Paging.PixelIndex(width, x', x, y); }
    if x' < x { Paging.PixelIndex(width, x, x', y'); }
  }

  class Display {
    const width: nat
    const height: nat
    const base: array<Pixel>

    constructor (width: nat, height: nat, base: array<Pixel>)
      requires base.Length == width * height
      ensures this.width == width && this.height == height && this.base == base && Valid()
    {
      this.width, this.height, this.base := width, height, base;
    }

    ghost predicate Valid() { base.Length == width * height }

    predicate In(x: int, y: int) { 0 <= x < height && 0 <= y < width }

    function Index(x: nat, y: nat): nat { width * x + y }

    lemma IndexIn(x: nat, y: nat)
      requires Valid() && In(x, y)
      ensures Index(x, y) < base.Length
    {
      Paging.PixelIndex(width, height, x, y);
    }

    function Px(x: int, y: int): Pixel
      requires Valid() && In(x, y)
      reads base
    {
      IndexIn(x, y);
      base[Index(x, y)]
    }

    // Where a pixel is: rows of `width` pixels.
    lemma PixelAt(x: nat, y: nat)
      requires Valid() && In(x, y)
      ensures width * x + y < base.Length && Px(x, y) == base[width * x + y]
    {
      IndexIn(x, y);
    }

    // The three assignments to a pixel.
    method SetPixel(x: nat, y: nat, color: Color)
      requires Valid() && In(x, y)
      modifies base
      ensures forall x', y' | In(x', y') :: Px(x', y') ==
                if (x', y') == (x, y) then old(Px(x, y)).(color := color) else old(Px(x', y'))
      ensures width * x + y < base.Length && base[..] == old(base[..])[width * x + y := old(Px(x, y)).(color := color)]
    {
      IndexIn(x, y);
      var i := Index(x, y);
      base[i] := base[i].(color := color);
      forall x', y' | In(x', y') && (x', y') != (x, y) ensures Px(x', y') == old(Px(x', y')) {
        IndexIn(x', y');
        if Index(x', y') == i { IndexInjective(width, x, y, x', y'); }
      }
    }

    method Fill(color: Color)
      requires Valid()
      modifies base
      ensures forall x, y | In(x, y) :: Px(x, y) == old(Px(x, y)).(color := color)
    {
      for i := 0 to height
        invariant forall x, y | In(x, y) :: Px(x, y) == if x < i then old(Px(x, y)).(color := color) else old(Px(x, y))
      {
        for j := 0 to width
          invariant forall x, y | In(x, y) ::
                      Px(x, y) == if x < i || (x == i && y < j) then old(Px(x, y)).(color := color) else old(Px(x, y))
        {
          SetPixel(i, j, color);
        }
      }
    }
  }

  // The rows of the glyphs, a byte each: font[c][i].
  type Font = (Byte, int) -> Byte

  // (row >> (FONT_WIDTH - 1 - j)) & 1
  predicate Bit(row: Byte, j: int)
    requires 0 <= j < FONT_WIDTH
  {
    row as int / Pow2(FONT_WIDTH - 1 - j) % 2 == 1
  }

  // Which pixels a glyph covers, for codes below 128.

  predicate GlyphAt(font: Font, c: Byte, offsetX: int, offsetY: int, x: int, y: int) {
    && c < FONT_CODE_MAX
    && offsetX <= x < offsetX + FONT_HEIGHT && offsetY <= y < offsetY + FONT_WIDTH
    && Bit(font(c, x - offsetX), y - offsetY)
  }

  // The ink of a whole grid: cell (x / 8, y / 8), if its row's string reaches it.
  predicate Inked(font: Font, rows: seq<Row>, lines: int, chars: int, x: int, y: int)
    requires 0 <= lines <= |rows| && forall i :: 0 <= i < |rows| ==> |rows[i]| == ROW_LEN
  {
    var i, j := x / FONT_HEIGHT, y / FONT_WIDTH;
    0 <= i < lines && 0 <= j < chars && j < CLen(rows[i]) && GlyphAt(font, rows[i][j], i * FONT_HEIGHT, j * FONT_WIDTH, x, y)
  }

  // Writing one character at the end of a row's string adds its glyph.
  lemma InkOneMore(font: Font, rows: seq<Row>, lines: int, chars: int, line: nat, pos: nat, c: Byte, x: int, y: int)
    requires 0 <= lines <= |rows| && forall i :: 0 <= i < |rows| ==> |rows[i]| == ROW_LEN
    requires line < lines && pos < chars < ROW_LEN && c != 0
    requires CLen(rows[line]) == pos && rows[line][pos + 1] == 0
    ensures Inked(font, rows[line := SetChar(rows[line], pos, c)], lines, chars, x, y) <==>
            Inked(font, rows, lines, chars, x, y) || GlyphAt(font, c, line * FONT_HEIGHT, pos * FONT_WIDTH, x, y)
  {
    var row' := SetChar(rows[line], pos, c);
    CLenIs(row', pos + 1);
  }

  lemma PutAllMore(lines: nat, chars: nat, cs: seq<Byte>, c: Byte)
    requires ScreenOk(BlankScreen(), lines, chars)
    ensures ScreenOk(PutAll(BlankScreen(), lines, chars, cs), lines, chars)
    ensures PutAll(BlankScreen(), lines, chars, cs + [c]) == Put(PutAll(BlankScreen(), lines, chars, cs), lines, chars, c)
  {
    assert (cs + [c])[..|cs|] == cs;
  }

  class Console {
    const display: Display
    const font: Font
    const buf: array2<Byte>
    var nLines: nat
    var nChars: nat
    var curLine: nat
    var curPos: nat
    ghost var written: seq<Byte> // everything written since init_draw

    // The zeroed statics and init_draw, for a screen with room for a character.
    constructor (display: Display, font: Font)
      requires display.Valid() && FONT_HEIGHT <= display.height && FONT_WIDTH <= display.width
      modifies display.base
      ensures this.display == display && this.font == font && fresh(buf) && Valid() && written == [] && Displayed()
      ensures nLines == (if display.height / 8 > 240 then 240 else display.height / 8)
      ensures nChars == (if display.width / 8 > 135 then 135 else display.width / 8)
    {
      this.display, this.font := display, font;
      buf := new Byte[MAX_LINES, ROW_LEN]((i, j) => 0);
      nLines := if display.height / FONT_HEIGHT > MAX_LINES then MAX_LINES else display.height / FONT_HEIGHT;
      nChars := if display.width / FONT_WIDTH > MAX_CHARS_IN_LINE then MAX_CHARS_IN_LINE else display.width / FONT_WIDTH;
      curLine, curPos, written := 0, 0, [];
      new;
      display.Fill(BLACK);
      forall i | 0 <= i < MAX_LINES
        ensures RowOf(i) == BlankScreen().rows[i] && CLen(RowOf(i)) == 0
      {
        CLenIs(RowOf(i), 0);
      }
      assert Rows() == BlankScreen().rows;
      TerminalHistory(nLines, nChars, []);
    }

    function RowOf(i: nat): Row
      requires i < buf.Length0
      reads buf
    {
      seq(buf.Length1, j requires 0 <= j < buf.Length1 reads buf => buf[i, j])
    }

    function Rows(): seq<Row>
      reads buf
    {
      seq(buf.Length0, i requires 0 <= i < buf.Length0 reads buf => RowOf(i))
    }

    function Sc(): Screen
      reads this, buf
    {
      Screen(Rows(), curLine, curPos)
    }

    ghost predicate Shape()
      reads this, buf
    {
      && display.Valid() && buf.Length0 == MAX_LINES && buf.Length1 == ROW_LEN
      && SizeOk(nLines, nChars)
    }

    // Every pixel is what a full redraw of the grid would make it.
    ghost predicate Displayed()
      requires Shape()
      reads this, buf, display.base
    {
      forall x, y | display.In(x, y) :: display.Px(x, y).color == if Inked(font, Rows(), nLines, nChars, x, y) then WHITE else BLACK
    }

    // The grid holds the history of what was written; until the first scroll
    // the pixels, too, are those of a full redraw.
    ghost predicate Valid()
      reads this, buf, display.base
    {
      && Shape() && NonNul(written) && ScreenOk(BlankScreen(), nLines, nChars)
      && Sc() == PutAll(BlankScreen(), nLines, nChars, written)
      && (|Lines(written, nChars)| <= nLines ==> Displayed())
    }

    // A full redraw, pixel by pixel: white in the bits of the glyph of each
    // character of each row's string, black everywhere else.
    lemma CellPixel(r: nat, k: nat, i: nat, j: nat)
      requires Shape() && Displayed() && r < nLines && k < nChars && i < 8 && j < 8 && display.In(8 * r + i, 8 * k + j)
      ensures var row := RowOf(r);
              display.Px(8 * r + i, 8 * k + j).color ==
              if k < CLen(row) && row[k] < 128 && font(row[k], i) as int / Pow2(7 - j) % 2 == 1 then Color(255, 255, 255)
              else Color(0, 0, 0)
    {
      hide CLen;
      var x, y := 8 * r + i, 8 * k + j;
      DivMod(x, 8, r, i);
      DivMod(y, 8, k, j);
      assert Rows()[r] == RowOf(r);
      assert display.Px(x, y).color == if Inked(font, Rows(), nLines, nChars, x, y) then WHITE else BLACK;
    }

    lemma MarginPixel(x: nat, y: nat)
      requires Shape() && Displayed() && display.In(x, y) && (x >= 8 * nLines || y >= 8 * nChars)
      ensures display.Px(x, y).color == Color(0, 0, 0)
    {
      hide CLen;
      assert display.Px(x, y).color == if Inked(font, Rows(), nLines, nChars, x, y) then WHITE else BLACK;
    }

    // Until the first scroll: the pixels of everything that has been written.
    lemma TextPixel(r: nat, k: nat, i: nat, j: nat)
      requires Valid() && r < nLines && k < nChars && i < 8 && j < 8 && display.In(8 * r + i, 8 * k + j)
      requires |Lines(written, nChars)| <= nLines
      ensures var ls := Lines(written, nChars);
              display.Px(8 * r + i, 8 * k + j).color ==
              if r < |ls| && k < |ls[r]| && ls[r][k] < 128 && font(ls[r][k], i) as int / Pow2(7 - j) % 2 == 1
              then Color(255, 255, 255) else Color(0, 0, 0)
    {
      hide CLen;
      hide PutAll;
      hide Pow2;
      CellPixel(r, k, i, j);
      TextRow(r);
    }

    lemma TextRow(r: nat)
      requires Valid() && r < nLines && |Lines(written, nChars)| <= nLines
      ensures CStr(RowOf(r)) == if r < |Lines(written, nChars)| then Lines(written, nChars)[r] else []
    {
      hide PutAll;
      TerminalHistory(nLines, nChars, written);
      assert Rows()[r] == RowOf(r);
      if r < |Lines(written, nChars)| {
        assert RowShows(Sc(), nLines, Lines(written, nChars), r);
      } else {
        assert Blank(Rows()[r]);
        CLenIs(RowOf(r), 0);
      }
    }

    method DrawChar(c: Byte, offsetX: nat, offsetY: nat, color: Color)
      requires display.Valid()
      modifies display.base
      ensures forall x, y | display.In(x, y) :: display.Px(x, y) ==
                if GlyphAt(font, c, offsetX, offsetY, x, y) then old(display.Px(x, y)).(color := color) else old(display.Px(x, y))
      // the glyph's pixels, row by row, the leftmost in the highest bit
      ensures c < 128 ==>
                forall x, y | display.In(x, y) && offsetX <= x < offsetX + 8 && offsetY <= y < offsetY + 8 ::
                  display.Px(x, y) ==
                  if font(c, x - offsetX) as int / Pow2(7 - (y - offsetY)) % 2 == 1
                  then old(display.Px(x, y)).(color := color) else old(display.Px(x, y))
      // and nothing else
      ensures forall x, y | display.In(x, y) && (c >= 128 || !(offsetX <= x < offsetX + 8 && offsetY <= y < offsetY + 8)) ::
                display.Px(x, y) == old(display.Px(x, y))
    {
      if c >= FONT_CODE_MAX {
        return;
      }
      for i := 0 to FONT_HEIGHT
        invariant forall x, y | display.In(x, y) :: display.Px(x, y) ==
                    if GlyphAt(font, c, offsetX, offsetY, x, y) && x < offsetX + i
                    then old(display.Px(x, y)).(color := color) else old(display.Px(x, y))
      {
        for j := 0 to FONT_WIDTH
          invariant forall x, y | display.In(x, y) :: display.Px(x, y) ==
                      if GlyphAt(font, c, offsetX, offsetY, x, y) && (x < offsetX + i || (x == offsetX + i && y < offsetY + j))
                      then old(display.Px(x, y)).(color := color) else old(display.Px(x, y))
        {
          var x, y := offsetX + i, offsetY + j;
          if x < display.height && y < display.width && Bit(font(c, i), j) {
            display.SetPixel(x, y, color);
          }
        }
      }
    }

    method MyStrcpy(dst: nat, src: nat)
      requires dst < buf.Length0 && src < buf.Length0 && dst != src && CLen(RowOf(src)) < buf.Length1
      modifies buf
      ensures Rows() == old(Rows())[dst := Strcpy(old(RowOf(dst)), old(RowOf(src)))]
    {
      ghost var s, d := RowOf(src), RowOf(dst);
      var k := 0;
      while buf[src, k] != 0
        invariant k <= CLen(s)
        invariant forall i, j | 0 <= i < buf.Length0 && 0 <= j < buf.Length1 ::
                    buf[i, j] == if i == dst && j < k then s[j] else old(buf[i, j])
        decreases CLen(s) - k
      {
        assert s[k] != 0;
        buf[dst, k] := buf[src, k];
        k := k + 1;
      }
      assert s[k] == 0;
      buf[dst, k] := 0;
      assert RowOf(dst) == Strcpy(d, s);
      forall i | 0 <= i < buf.Length0 && i != dst ensures RowOf(i) == old(RowOf(i)) {}
    }

    // One cell of a redraw.
    method DrawCell(i: nat, j: nat)
      requires Shape() && i < nLines && j < nChars && j < CLen(Rows()[i]) && DrawnUpTo(i, j)
      modifies display.base
      ensures DrawnUpTo(i, j + 1)
    {
      hide CLen;
      assert Rows()[i][j] == buf[i, j];
      DrawChar(buf[i, j], i * FONT_HEIGHT, j * FONT_WIDTH, WHITE);
      assert forall x: int | i * FONT_HEIGHT <= x < i * FONT_HEIGHT + FONT_HEIGHT :: x / FONT_HEIGHT == i;
      assert forall y: int | j * FONT_WIDTH <= y < j * FONT_WIDTH + FONT_WIDTH :: y / FONT_WIDTH == j;
    }

    lemma RowDrawn(i: nat, j: nat)
      requires Shape() && i < nLines && DrawnUpTo(i, j) && (j == nChars || j == CLen(Rows()[i]))
      ensures DrawnUpTo(i + 1, 0)
    {
      hide CLen;
    }

    // redraw_terminal(): black, then each row's string.
    method RedrawTerminal()
      requires Shape()
      modifies display.base
      ensures Displayed()
    {
      hide GlyphAt;
      hide CLen;
      display.Fill(BLACK);
      for i := 0 to nLines
        invariant DrawnUpTo(i, 0)
      {
        var j := 0;
        while j < nChars
          invariant j <= nChars && j <= CLen(Rows()[i])
          invariant DrawnUpTo(i, j)
        {
          assert Rows()[i][j] == buf[i, j];
          if buf[i, j] == 0 {
            break;
          }
          DrawCell(i, j);
          j := j + 1;
        }
        RowDrawn(i, j);
      }
    }

    // The cells before (line, pos) have been drawn.
    ghost predicate DrawnUpTo(line: int, pos: int)
      requires Shape()
      reads this, buf, display.base
    {
      forall x, y | display.In(x, y) :: display.Px(x, y).color ==
        if Inked(font, Rows(), nLines, nChars, x, y) && (x / FONT_HEIGHT < line || (x / FONT_HEIGHT == line && y / FONT_WIDTH < pos))
        then WHITE else BLACK
    }

    // Shift every line up by one; the last row's string becomes empty.
    method ShiftLines()
      requires Shape() && GridOk(Rows(), nChars)
      modifies buf
      ensures Rows() == Scrolled(old(Rows()), nLines, nChars)
    {
      hide CLen;
      hide Strcpy;
      hide GridOk;
      hide Shifted;
      ghost var rows := Rows();
      RowsShort(rows, nChars);
      ShiftedStep(rows, 0);
      for i := 0 to nLines - 1
        invariant Rows() == Shifted(rows, i)
      {
        ShiftedStep(rows, i);
        assert RowOf(i) == Rows()[i] && RowOf(i + 1) == Rows()[i + 1];
        MyStrcpy(i, i + 1);
      }
      WriteCell(nLines - 1, 0, 0);
    }

    method WriteCell(i: nat, j: nat, c: Byte)
      requires i < buf.Length0 && j < buf.Length1
      modifies buf
      ensures Rows() == old(Rows())[i := SetChar(old(Rows())[i], j, c)]
    {
      ghost var rows := Rows();
      buf[i, j] := c;
      forall k | 0 <= k < buf.Length0 ensures Rows()[k] == rows[i := SetChar(rows[i], j, c)][k] {}
    }

    // A character drawn and stored without a scroll.
    method DrawAndWrite(c: Byte)
      requires Shape() && curLine < nLines && curPos < nChars
      modifies this`curPos, buf, display.base
      ensures curPos == old(curPos) + 1
               && Rows() == old(Rows())[curLine := SetChar(old(Rows())[curLine], old(curPos), c)]
      ensures old(Displayed()) && c != 0 && CLen(old(Rows())[curLine]) == old(curPos)
               && old(Rows())[curLine][old(curPos) + 1] == 0
              ==> Displayed()
    {
      ghost var rows, pos := Rows(), curPos;
      DrawChar(c, curLine * FONT_HEIGHT, curPos * FONT_WIDTH, WHITE);
      WriteCell(curLine, curPos, c);
      curPos := curPos + 1;
      if old(Displayed()) && c != 0 && CLen(rows[curLine]) == pos && rows[curLine][pos + 1] == 0 {
        forall x, y | display.In(x, y)
          ensures display.Px(x, y).color == if Inked(font, Rows(), nLines, nChars, x, y) then WHITE else BLACK
        {
          InkOneMore(font, rows, nLines, nChars, curLine, pos, c, x, y);
        }
      }
    }

    // The cell that c goes to ends its row's string.
    ghost predicate AtEnd(sc: Screen, c: Byte)
      requires Shape() && ScreenOk(sc, nLines, nChars)
      reads this, buf
    {
      var i, j := CellLine(sc, nChars, c), CellPos(sc, nChars, c);
      i < nLines && j < nChars && CLen(sc.rows[i]) == j && sc.rows[i][j + 1] == 0
    }

    // The first branch of putc: a line break, then c if it is a character.
    method PutAfterBreak(c: Byte)
      requires Shape() && ScreenOk(Sc(), nLines, nChars) && Breaks(Sc(), nChars, c) && c != 0
      modifies this`curLine, this`curPos, buf, display.base
      ensures Sc() == Put(old(Sc()), nLines, nChars, c)
      ensures Scrolls(old(Sc()), nLines, nChars, c) || (old(Displayed()) && old(AtEnd(Sc(), c))) ==> Displayed()
    {
      hide CLen;
      hide Scrolled;
      hide Inked;
      var redraw := false;
      if curLine + 1 == nLines {
        ShiftLines();
        redraw := true;
      } else {
        curLine := curLine + 1;
      }
      curPos := 0;
      if c != NEWLINE {
        if redraw {
          WriteCell(curLine, curPos, c);
          curPos := curPos + 1;
        } else {
          DrawAndWrite(c);
        }
      }
      if redraw {
        RedrawTerminal();
      }
    }

    // putc without the record of what was written.
    method PutBody(c: Byte)
      requires Shape() && ScreenOk(Sc(), nLines, nChars) && c != 0
      modifies this`curLine, this`curPos, buf, display.base
      ensures Sc() == Put(old(Sc()), nLines, nChars, c)
      ensures Scrolls(old(Sc()), nLines, nChars, c) || (old(Displayed()) && old(AtEnd(Sc(), c))) ==> Displayed()
    {
      hide CLen;
      hide Scrolled;
      hide Inked;
      if c == NEWLINE || curPos == nChars {
        PutAfterBreak(c);
      } else {
        DrawAndWrite(c);
      }
    }

    method Putc(c: Byte)
      requires Valid() && c != 0
      modifies this`curLine, this`curPos, this`written, buf, display.base
      ensures Valid() && written == old(written) + [c]
      ensures Sc() == Put(old(Sc()), nLines, nChars, c)
      ensures Scrolls(old(Sc()), nLines, nChars, c) ==> Displayed()
    {
      hide CLen;
      hide Put;
      hide Inked;
      hide Lines;
      hide ScreenOk;
      hide BlankScreen;
      hide Scrolls;
      ghost var sc, before := Sc(), written;
      PutAllMore(nLines, nChars, before, c);
      if |Lines(before + [c], nChars)| <= nLines {
        CellIsEnd(sc, nLines, nChars, before, c);
      }
      PutBody(c);
      written := written + [c];
    }

    // str is the string before its terminating NUL.
    method Puts(str: seq<Byte>)
      requires Valid() && NonNul(str)
      modifies this`curLine, this`curPos, this`written, buf, display.base
      ensures Valid() && written == old(written) + str
      ensures History(Sc(), nLines, nChars, Lines(written, nChars))
    {
      for i := 0 to |str|
        invariant Valid() && written == old(written) + str[..i]
      {
        assert str[..i + 1] == str[..i] + [str[i]];
        Putc(str[i]);
      }
      assert str[..|str|] == str;
      TerminalHistory(nLines, nChars, written);
    }

    // The first half of puth(): the digits, written backwards into a 17-byte
    // buffer that ends in NUL.
    method FillDigits(value: Word) returns (digits: array<Byte>, ptr: nat)
      ensures fresh(digits) && digits.Length == MAX_LEN + 1 && ptr <= MAX_LEN
      ensures digits[MAX_LEN] == 0 && digits[ptr..MAX_LEN] == Numeral(value)
    {
      hide Digits;
      hide Pow16;
      NoDigits();
      digits := new Byte[MAX_LEN + 1];
      digits[MAX_LEN] := 0;
      ptr := MAX_LEN;
      if value == 0 {
        ptr := ptr - 1;
        digits[ptr] := 48;
      }
      var v := value;
      FitsBuffer(value);
      while v != 0
        invariant 0 <= ptr <= MAX_LEN && 0 <= v && digits[MAX_LEN] == 0 && (value != 0 ==> v < Pow16(ptr))
        invariant value == 0 ==> v == 0 && ptr == MAX_LEN - 1 && digits[ptr] == 48
        invariant value != 0 ==> Digits(value) == Digits(v) + digits[ptr..MAX_LEN]
        decreases v
      {
        ghost var tail := digits[ptr..MAX_LEN];
        FitsStep(v, ptr);
        DigitStep(value, v, tail);
        ptr := ptr - 1;
        digits[ptr] := HexChar(v % 16);
        assert digits[ptr..MAX_LEN] == [HexChar(v % 16)] + tail;
        v := v / 16;
      }
    }

    lemma NoDigits()
      ensures Digits(0) == [] && Pow16(0) == 1
    {}

    lemma FitsStep(v: nat, n: nat)
      requires 0 < v < Pow16(n)
      ensures n > 0 && v / 16 < Pow16(n - 1)
    {}

    lemma DigitStep(value: nat, v: nat, tail: seq<Byte>)
      requires v > 0 && Digits(value) == Digits(v) + tail
      ensures Digits(value) == Digits(v / 16) + ([HexChar(v % 16)] + tail)
    {}

    lemma FitsBuffer(value: Word)
      ensures value < Pow16(MAX_LEN)
    {
      assert Pow16(8) == 0x1_0000_0000;
    }

    // The last loop of puth(): the digits up to the NUL.
    method PutDigits(digits: array<Byte>, ptr: nat, ghost value: Word)
      requires Valid() && digits.Length == MAX_LEN + 1 && ptr <= MAX_LEN && digits != display.base as object
      requires digits[MAX_LEN] == 0 && digits[ptr..MAX_LEN] == Numeral(value)
      modifies this`curLine, this`curPos, this`written, buf, display.base
      ensures Valid() && written == old(written) + Numeral(value)
    {
      hide Valid;
      hide Numeral;
      ghost var text := digits[..];
      forall j | ptr <= j < MAX_LEN ensures text[j] != 0 {
        NumeralNonNul(value, j - ptr);
        assert text[ptr..MAX_LEN][j - ptr] == text[j];
      }
      var k := ptr;
      while digits[k] != 0
        invariant ptr <= k <= MAX_LEN && Valid() && written == old(written) + text[ptr..k]
        invariant digits[..] == text
        decreases MAX_LEN - k
      {
        Putc(digits[k]);
        assert text[ptr..k + 1] == text[ptr..k] + [text[k]];
        k := k + 1;
      }
    }

    method Puth(value: Word, digitsLen: Byte)
      requires Valid()
      modifies this`curLine, this`curPos, this`written, buf, display.base
      ensures Valid() && written == old(written) + Padded(value, digitsLen)
    {
      hide Valid;
      hide Numeral;
      var digits, ptr := FillDigits(value);
      ghost var n := |Numeral(value)|;
      assert n == MAX_LEN - ptr;
      var remaining := digitsLen - (MAX_LEN - ptr);
      if remaining < 0 {
        remaining := 0;
      }
      for i := 0 to remaining
        invariant Valid() && written == old(written) + Zeros(i)
        invariant digits[MAX_LEN] == 0 && digits[ptr..MAX_LEN] == Numeral(value)
      {
        Putc(48);
        assert Zeros(i) + [48] == Zeros(i + 1);
      }
      PutDigits(digits, ptr, value);
    }
  }

  lemma {:induction false} NumeralNonNul(v: nat, k: nat)
    requires k < |Numeral(v)|
    ensures Numeral(v)[k] != 0
    decreases v
  {
    if v == 0 {
    } else {
      assert Digits(v) == Digits(v / 16) + [HexChar(v % 16)];
      if k < |Digits(v / 16)| { NumeralNonNul(v / 16, k); }
    }
  }
}
