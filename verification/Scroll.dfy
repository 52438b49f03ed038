/**
  Writing to a terminal: how the screen is scrolled to make room for the text, where the text is
  drawn, and how the line at which the terminal stands is kept.
 */
module Scroll {
  import opened Bytes
  import opened KernelState
  import opened Paging

  const MAX_INPUT := 1024
  const ROW_BYTES := 2 * NUM_COLS
  const SCREEN_BYTES := ROW_BYTES * NUM_ROWS
  const BOTTOM := NUM_ROWS - 1

  // ---------------------------------------------------------------- shift_video_mem_up

  /** The bytes of a row that shift_video_mem_up empties: the attribute in every other byte. */
  function Blank(k: nat): byte { if k % 2 == 1 then ATTRIB else NUL }

  /** Rows start to end - 1 take the contents of the rows below them, and row end is emptied. */
  function RowsShifted(v: Page, start: nat, end: nat): Page
    requires end < NUM_ROWS
  {
    seq(|v|, k requires 0 <= k < |v| =>
      if ROW_BYTES * start <= k < ROW_BYTES * end then v[k + ROW_BYTES]
      else if ROW_BYTES * end <= k < ROW_BYTES * (end + 1) then Blank(k)
      else v[k])
  }

  /** The same, row by row: a row has 80 cells of a character and an attribute. */
  lemma RowsShiftedAt(v: Page, start: nat, end: nat, row: nat, k: nat)
    requires start <= end < NUM_ROWS && row < 25 && k < 160
    ensures RowsShifted(v, start, end)[160 * row + k] ==
            if start <= row < end then v[160 * (row + 1) + k]
            else if row == end then (if k % 2 == 0 then 0 else 7)
            else v[160 * row + k]
    ensures RowsShifted(v, start, end)[4000..] == v[4000..]
  {
  }

  /** The screen after it has been scrolled up n times by one line. */
  function Scrolled(v: Page, n: nat): Page {
    if n == 0 then v else RowsShifted(Scrolled(v, n - 1), 0, BOTTOM)
  }

  /** Every row moves up by the number of shifts; the rows that come in at the bottom are empty. */
  lemma {:induction false} RowsMoveUp(v: Page, n: nat, k: nat)
    requires k < |v|
    ensures Scrolled(v, n)[k] ==
            if k >= 4000 then v[k]
            else if k + 160 * n < 4000 then v[k + 160 * n]
            else if k % 2 == 0 then 0 else 7
  {
    if n > 0 {
      RowsMoveUp(v, n - 1, k);
      if k + ROW_BYTES < SCREEN_BYTES {
        RowsMoveUp(v, n - 1, k + ROW_BYTES);
      }
    }
  }

  /** One row is copied from the row below it, byte by byte. */
  method CopyRow(video: array<byte>, row: nat)
    requires row < BOTTOM && SCREEN_BYTES <= video.Length
    modifies video
    ensures forall k :: 0 <= k < video.Length ==>
              video[k] == old(video[..])[if ROW_BYTES * row <= k < ROW_BYTES * (row + 1) then k + ROW_BYTES else k]
  {
    ghost var was := video[..];
    var target, source := ROW_BYTES * row, ROW_BYTES * (row + 1);
    assert source + ROW_BYTES <= video.Length;
    var i := 0;
    while i < ROW_BYTES
      invariant 0 <= i <= ROW_BYTES
      invariant forall k :: 0 <= k < video.Length ==>
                  video[k] == was[if target <= k < target + i then k + ROW_BYTES else k]
    {
      video[target + i] := video[source + i];
      i := i + 1;
    }
  }

  method BlankRow(video: array<byte>, row: nat)
    requires row < NUM_ROWS && SCREEN_BYTES <= video.Length
    modifies video
    ensures forall k :: 0 <= k < video.Length ==>
              video[k] == if ROW_BYTES * row <= k < ROW_BYTES * (row + 1) then Blank(k) else old(video[k])
  {
    var blankRow := ROW_BYTES * row;
    var i := 0;
    while i < ROW_BYTES
      invariant 0 <= i <= ROW_BYTES
      invariant forall k :: 0 <= k < video.Length ==>
                  video[k] == if blankRow <= k < blankRow + i then Blank(k) else old(video[k])
    {
      if i % 2 != 0 {
        video[blankRow + i] := ATTRIB;
      } else {
        video[blankRow + i] := NUL;
      }
      i := i + 1;
    }
  }

  /** Rows start to end - 1, from the top down. */
  method CopyRows(video: array<byte>, start: nat, end: nat)
    requires end <= BOTTOM && SCREEN_BYTES <= video.Length
    modifies video
    ensures forall k :: 0 <= k < video.Length ==>
              video[k] == old(video[..])[if ROW_BYTES * start <= k < ROW_BYTES * end then k + ROW_BYTES else k]
  {
    ghost var was := video[..];
    var currentRow := start;
    while currentRow < end
      invariant start <= currentRow && (currentRow <= end || currentRow == start)
      invariant forall k :: 0 <= k < video.Length ==>
                  video[k] == was[if ROW_BYTES * start <= k < ROW_BYTES * currentRow then k + ROW_BYTES else k]
    {
      CopyRow(video, currentRow);
      currentRow := currentRow + 1;
    }
  }

  /** shift_video_mem_up. An end beyond the screen is taken as the last row. */
  method ShiftVideoMemUp(video: array<byte>, startRow: byte, endRow: byte) returns (r: int)
    requires video.Length == ALIGN_4KB
    modifies video
    ensures r == if endRow < startRow then -1 else 0
    ensures video[..] == if endRow < startRow then old(video[..])
                         else RowsShifted(old(video[..]), startRow, if endRow > BOTTOM then BOTTOM else endRow)
  {
    if endRow < startRow {
      return -1;
    }
    var end: nat := if endRow > BOTTOM then BOTTOM else endRow;
    CopyRows(video, startRow, end);
    BlankRow(video, end);
    return 0;
  }

  /** A byte of the screen after n more shifts, found n rows higher up. */
  lemma ByteMovesUp(v: Page, n: nat, from: nat, to: nat)
    requires to + ROW_BYTES * n == from < SCREEN_BYTES
    ensures Scrolled(v, n)[to] == v[from]
  {
    RowsMoveUp(v, n, to);
  }

  /** What was on the screen before a write, and is not drawn over, moves up by all the shifts together. */
  lemma TextMovesWithTheScreen(v: Page, drawn: Page, above: nat, below: nat, from: nat, between: nat, to: nat)
    requires to + ROW_BYTES * below == between && between + ROW_BYTES * above == from < SCREEN_BYTES
    requires drawn[between] == Scrolled(v, above)[between]
    ensures Scrolled(drawn, below)[to] == v[from]
  {
    ByteMovesUp(v, above, from, between);
    ByteMovesUp(drawn, below, between, to);
  }

  // ---------------------------------------------------------------- puts

  /** The cursor after a string has been printed. */
  function CursorAfter(cur: Cursor, s: seq<byte>): Cursor {
    if s == [] then cur else Moved(CursorAfter(cur, s[..|s| - 1]), s[|s| - 1])
  }

  /** Every character of a string can be printed: none lies beyond the video page. */
  ghost predicate CanPrint(cur: Cursor, s: seq<byte>) {
    forall k :: 0 <= k < |s| ==> CanPut(CursorAfter(cur, s[..k]), s[k])
  }

  /** The page after one character. */
  function PutOn(v: Page, cur: Cursor, c: byte): Page {
    if IsNewline(c) || !CellInPage(cur) then v else Drawn(v, cur, c)
  }

  /** The page after a string. */
  function Printed(v: Page, cur: Cursor, s: seq<byte>): Page {
    if s == [] then v
    else PutOn(Printed(v, cur, s[..|s| - 1]), CursorAfter(cur, s[..|s| - 1]), s[|s| - 1])
  }

  lemma OneMorePrinted(v: Page, cur: Cursor, s: seq<byte>, k: nat)
    requires k < |s|
    ensures CursorAfter(cur, s[..k + 1]) == Moved(CursorAfter(cur, s[..k]), s[k])
    ensures Printed(v, cur, s[..k + 1]) == PutOn(Printed(v, cur, s[..k]), CursorAfter(cur, s[..k]), s[k])
  {
    assert s[..k + 1][..k] == s[..k];
  }

  /**
    Where the next character goes, counting cells row by row and without an end of the screen. The
    text starts in column x of line at; the column may lie to the right of the screen.
   */
  function PlaceAfter(at: nat, x: nat, s: seq<byte>): nat {
    if s == [] then NUM_COLS * at + x
    else if |s| == 1 && IsNewline(s[0]) then NUM_COLS * (at + 1)
    else NextPlace(PlaceAfter(at, x, s[..|s| - 1]), s[|s| - 1])
  }

  function NextPlace(p: nat, c: byte): (q: nat)
    ensures q > p
  {
    if IsNewline(c) then NUM_COLS * (p / NUM_COLS + 1) else p + 1
  }

  const CELLS := NUM_COLS * NUM_ROWS

  /** What follows a character that is not a newline has its place behind it. */
  lemma {:induction false} PlacesGrow(at: nat, x: nat, s: seq<byte>, k: nat)
    requires k < |s| && !IsNewline(s[k])
    ensures PlaceAfter(at, x, s[..k]) < PlaceAfter(at, x, s)
    decreases |s|
  {
    var t := s[..|s| - 1];
    if k < |t| {
      PlacesGrow(at, x, t, k);
      assert t[..k] == s[..k];
    } else {
      assert s[..k] == t;
    }
  }

  /** The cursor stands on a place; once something has been printed, it is within the columns. */
  ghost predicate StandsOn(c: Cursor, q: nat, started: bool) {
    0 <= c.x && 0 <= c.y && NUM_COLS * c.y + c.x == q && (started ==> c.x < NUM_COLS)
  }

  /** As long as the place is on the screen, it is where the cursor is. */
  lemma {:induction false} CursorIsPlace(at: nat, x: nat, s: seq<byte>)
    requires PlaceAfter(at, x, s) < CELLS
    ensures StandsOn(CursorAfter(Cursor(x, at), s), PlaceAfter(at, x, s), s != [])
    decreases |s|
  {
    if s != [] && !(|s| == 1 && IsNewline(s[0])) {
      var t := s[..|s| - 1];
      CursorIsPlace(at, x, t);
      NextOnScreen(CursorAfter(Cursor(x, at), t), PlaceAfter(at, x, t), s[|s| - 1], t != []);
    }
  }

  lemma NextOnScreen(c: Cursor, q: nat, ch: byte, started: bool)
    requires StandsOn(c, q, started) && (started || !IsNewline(ch)) && NextPlace(q, ch) < CELLS
    ensures StandsOn(Moved(c, ch), NextPlace(q, ch), true)
  {
  }

  /**
    The cursor goes round the 2000 cells of the screen, from the last one to the first; a newline or
    carriage return takes it to the start of the next row, even below the last one.
   */
  lemma CursorMoves(x: nat, y: nat, c: byte)
    requires x < 80 && y < 25
    ensures var r := Moved(Cursor(x, y), c);
            if c == 10 || c == 13 then r == Cursor(0, y + 1)
            else 0 <= r.x < 80 && 80 * r.y + r.x == (80 * y + x + 1) % 2000
  {
    if x < 79 {
      assert (x + 1) / 80 == 0 && (x + 1) % 80 == x + 1;
    } else {
      assert (x + 1) / 80 == 1 && (x + 1) % 80 == 0;
    }
    assert 80 * y + x + 1 <= 2000;
  }

  /** Every character of a string that is drawn has its place on the screen. */
  ghost predicate FitsScreen(at: nat, x: nat, s: seq<byte>) {
    forall k :: 0 <= k < |s| && !IsNewline(s[k]) ==> PlaceAfter(at, x, s[..k]) < CELLS
  }

  lemma FitsPrefix(at: nat, x: nat, s: seq<byte>, n: nat)
    requires n <= |s| && FitsScreen(at, x, s)
    ensures FitsScreen(at, x, s[..n])
  {
    forall k | 0 <= k < n && !IsNewline(s[..n][k]) ensures PlaceAfter(at, x, s[..n][..k]) < CELLS {
      assert s[..n][..k] == s[..k];
    }
  }

  /** A string that fits is drawn character by character at the places of its characters, in light grey on black. */
  lemma {:induction false} CharIsDrawn(v: Page, at: nat, x: nat, s: seq<byte>, k: nat)
    requires FitsScreen(at, x, s) && k < |s| && !IsNewline(s[k])
    ensures PlaceAfter(at, x, s[..k]) < CELLS
    ensures Printed(v, Cursor(x, at), s)[2 * PlaceAfter(at, x, s[..k])] == s[k]
    ensures Printed(v, Cursor(x, at), s)[2 * PlaceAfter(at, x, s[..k]) + 1] == 7
    decreases |s|
  {
    var t, q := s[..|s| - 1], PlaceAfter(at, x, s[..k]);
    var page, cur := Printed(v, Cursor(x, at), t), CursorAfter(Cursor(x, at), t);
    if k == |s| - 1 {
      CursorIsPlace(at, x, t);
      DrawnAt(page, cur, q, s[k]);
    } else {
      assert t[..k] == s[..k];
      FitsPrefix(at, x, s, |s| - 1);
      CharIsDrawn(v, at, x, t, k);
      if !IsNewline(s[|s| - 1]) {
        PlacesGrow(at, x, t, k);
        CursorIsPlace(at, x, t);
        DrawnElsewhere(page, cur, PlaceAfter(at, x, t), s[|s| - 1], q);
      }
    }
  }

  lemma DrawnAt(v: Page, cur: Cursor, q: nat, c: byte)
    requires q < CELLS && StandsOn(cur, q, false) && !IsNewline(c)
    ensures PutOn(v, cur, c)[2 * q] == c && PutOn(v, cur, c)[2 * q + 1] == 7
  {
  }

  lemma DrawnElsewhere(v: Page, cur: Cursor, q: nat, c: byte, r: nat)
    requires r < q < CELLS && StandsOn(cur, q, false) && !IsNewline(c)
    ensures PutOn(v, cur, c)[2 * r] == v[2 * r] && PutOn(v, cur, c)[2 * r + 1] == v[2 * r + 1]
  {
  }

  // ---------------------------------------------------------------- what is shown of a text

  /**
    Every character of a text that has not been scrolled off the top stands on the page, after the
    shifts that followed, that many rows above its place.
   */
  ghost predicate AllShown(page: Page, at: nat, x: nat, s: seq<byte>, below: nat) {
    forall k :: 0 <= k < |s| && !IsNewline(s[k]) && NUM_COLS * below <= PlaceAfter(at, x, s[..k]) ==>
      ShownAt(page, PlaceAfter(at, x, s[..k]) - NUM_COLS * below, s[k])
  }

  ghost predicate ShownAt(page: Page, q: nat, c: byte) { q < CELLS && page[2 * q] == c }

  /** A character of a text that fits moves up with the shifts that follow. */
  lemma CharMovesUp(v: Page, at: nat, x: nat, s: seq<byte>, k: nat, below: nat)
    requires FitsScreen(at, x, s) && k < |s| && !IsNewline(s[k]) && NUM_COLS * below <= PlaceAfter(at, x, s[..k])
    ensures ShownAt(Scrolled(Printed(v, Cursor(x, at), s), below), PlaceAfter(at, x, s[..k]) - NUM_COLS * below, s[k])
  {
    CharIsDrawn(v, at, x, s, k);
    var q := PlaceAfter(at, x, s[..k]);
    ByteMovesUp(Printed(v, Cursor(x, at), s), below, 2 * q, 2 * (q - NUM_COLS * below));
  }

  /** The cell of a character whose place was below the screen is one of those scrolled in, and empty. */
  lemma TailIsLost(drawn: Page, q: nat, below: nat)
    requires CELLS <= q < CELLS + NUM_COLS * below && NUM_COLS * below <= q
    ensures Scrolled(drawn, below)[2 * (q - NUM_COLS * below)] == NUL
  {
    RowsMoveUp(drawn, below, 2 * (q - NUM_COLS * below));
  }

  /** A text is shown completely exactly if each of its characters had its place on the screen when it was drawn. */
  lemma TextIsShown(v: Page, at: nat, x: nat, s: seq<byte>, below: nat)
    requires NUL !in s && below <= NUM_ROWS
    ensures AllShown(Scrolled(Printed(v, Cursor(x, at), s), below), at, x, s, below) <==> FitsScreen(at, x, s)
  {
    var page := Scrolled(Printed(v, Cursor(x, at), s), below);
    if FitsScreen(at, x, s) {
      forall k | 0 <= k < |s| && !IsNewline(s[k]) && NUM_COLS * below <= PlaceAfter(at, x, s[..k])
        ensures ShownAt(page, PlaceAfter(at, x, s[..k]) - NUM_COLS * below, s[k])
      {
        CharMovesUp(v, at, x, s, k, below);
      }
    } else {
      var k :| 0 <= k < |s| && !IsNewline(s[k]) && PlaceAfter(at, x, s[..k]) >= CELLS;
      var q := PlaceAfter(at, x, s[..k]);
      assert s[k] in s;
      if q < CELLS + NUM_COLS * below {
        TailIsLost(Printed(v, Cursor(x, at), s), q, below);
      }
      assert !ShownAt(page, q - NUM_COLS * below, s[k]);
    }
  }

  // ---------------------------------------------------------------- terminal_write

  /** How much of a text is looked at: up to and including the first NUL. */
  function Seen(text: seq<byte>): (n: nat)
    ensures n <= |text|
  {
    if text == [] then 0 else if text[0] == NUL then 1 else 1 + Seen(text[1..])
  }

  /** The newlines before the first NUL. */
  function Newlines(text: seq<byte>): (n: nat)
    ensures n <= |text|
  {
    if text == [] || text[0] == NUL then 0 else Newlines(text[1..]) + if text[0] == NEWLINE then 1 else 0
  }

  function Min(a: int, b: int): int { if a < b then a else b }

  function Decremented(line: byte): byte { if line == 0 then 255 else line - 1 }

  /** The line to start from: the next one if something has been typed on this one. */
  function StartLine(line: byte, typed: nat): byte { (line + if typed > 0 then 1 else 0) % 0x100 }

  /** The line at which a terminal that stands on a line prints: far enough up for the whole text. */
  function PrintLine(line: byte, charInLine: byte, nbytes: int, newlines: nat): int {
    var onScreen := Min(line, BOTTOM);
    Min(if onScreen == BOTTOM && nbytes >= NUM_COLS - charInLine then BOTTOM - 1 else onScreen, NUM_ROWS - newlines)
  }

  /** The column that terminal_write remembers; it is kept in eight bits. */
  function ColumnAfter(charInLine: byte, nbytes: int, last: byte): byte {
    if nbytes != NUM_COLS && last != NEWLINE then (charInLine + nbytes) % 0x100 else charInLine
  }

  /** Whether the text is counted as taking one line more than it has newlines. */
  function Overflow(charInLine: byte, nbytes: int, last: byte, newlines: nat): nat {
    var n := if nbytes != NUM_COLS && last != NEWLINE then nbytes else nbytes - 1;
    if newlines > 0 && n >= NUM_COLS - ColumnAfter(charInLine, nbytes, last) then 1 else 0
  }

  /** A page that has been shifted, printed on from a cursor, and shifted again. */
  function Written(v: Page, above: nat, x: nat, at: nat, str: seq<byte>, below: nat): Page {
    Scrolled(Printed(Scrolled(v, above), Cursor(x, at), str), below)
  }

  /** How often the screen is shifted after a text has been drawn at a line. */
  function ShiftsAfter(at: nat, charInLine: byte, nbytes: int, last: byte, newlines: nat): nat {
    var line := at + newlines + Overflow(charInLine, nbytes, last, newlines);
    line - Min(line, BOTTOM)
  }

  /** The cursor that a write leaves, from the line at which the text was drawn. */
  function CursorLeft(at: nat, charInLine: byte, nbytes: int, last: byte, newlines: nat): Cursor {
    Cursor(if newlines > 0 then 0 else ColumnAfter(charInLine, nbytes, last),
           Min(at + newlines + Overflow(charInLine, nbytes, last, newlines), BOTTOM))
  }

  /** What puts finds at the start of the text: a string that ends at the first NUL, in the text or behind it. */
  ghost predicate IsStringOf(text: seq<byte>, str: seq<byte>) {
    NUL !in str && if NUL in text then |str| < |text| && text[..|str|] == str && text[|str|] == NUL else text <= str
  }

  const LOWER_A: byte := 97
  const LOWER_B: byte := 98

  /** "a", a newline and "b". */
  const TWO_LINES: seq<byte> := [LOWER_A, NEWLINE, LOWER_B]

  lemma PlacesOfTwoLines(at: nat)
    ensures TWO_LINES[..0] == [] && TWO_LINES[..1] == [LOWER_A] && TWO_LINES[..2] == [LOWER_A, NEWLINE]
    ensures PlaceAfter(at, 0, TWO_LINES[..2]) == NUM_COLS * (at + 1)
              && PlaceAfter(at, 0, TWO_LINES) == NUM_COLS * (at + 1) + 1
    ensures Newlines(TWO_LINES) == 1
  {
    assert [LOWER_A, NEWLINE][..1] == [LOWER_A] && [LOWER_A][..0] == [];
    assert PlaceAfter(at, 0, []) == NUM_COLS * at;
    assert PlaceAfter(at, 0, [LOWER_A]) == NUM_COLS * at + 1;
    assert PlaceAfter(at, 0, [LOWER_A, NEWLINE]) == NUM_COLS * (at + 1);
    assert TWO_LINES[1..] == [NEWLINE, LOWER_B] && [NEWLINE, LOWER_B][1..] == [LOWER_B] && [LOWER_B][1..] == [];
    assert Newlines([LOWER_B]) == 0;
    assert Newlines([NEWLINE, LOWER_B]) == 1;
  }

  /** A text that is not shown completely: in the last line, "a" and a newline and "b" lose the "b". */
  lemma LastLineIsLost(v: Page)
    ensures IsStringOf(TWO_LINES, TWO_LINES) && Newlines(TWO_LINES) == 1
    ensures PrintLine(BOTTOM, 0, 3, 1) == BOTTOM && ShiftsAfter(BOTTOM, 0, 3, LOWER_B, 1) == 1
    ensures !FitsScreen(BOTTOM, 0, TWO_LINES)
    ensures Scrolled(Printed(v, Cursor(0, BOTTOM), TWO_LINES), 1)[2 * NUM_COLS * BOTTOM] == NUL
  {
    PlacesOfTwoLines(BOTTOM);
    TailIsLost(Printed(v, Cursor(0, BOTTOM), TWO_LINES), CELLS, 1);
  }

  // ---------------------------------------------------------------- where the next text continues

  /** The characters that end a line of a string. */
  function Breaks(s: seq<byte>): nat {
    if s == [] then 0 else Breaks(s[..|s| - 1]) + if IsNewline(s[|s| - 1]) then 1 else 0
  }

  /** The length of the last line of a string. */
  function LastLine(s: seq<byte>): nat {
    if s == [] || IsNewline(s[|s| - 1]) then 0 else LastLine(s[..|s| - 1]) + 1
  }

  /** The rows that are filled by a line of a given length, from a given column on. */
  function Filled(column: nat, length: nat): nat { if length == 0 then 0 else (column + length) / NUM_COLS }

  function FirstColumn(x: nat, s: seq<byte>): nat { if Breaks(s) == 0 then x else 0 }

  /** The rows filled by the lines of a string before its last line; the first one starts in column x. */
  function Wraps(x: nat, s: seq<byte>): nat {
    if s == [] then 0
    else
      var t := s[..|s| - 1];
      Wraps(x, t) + if IsNewline(s[|s| - 1]) then Filled(FirstColumn(x, t), LastLine(t)) else 0
  }

  /** Where a string ends: so many rows further down, and so many columns from where its last line began. */
  lemma {:induction false} PlaceByLines(at: nat, x: nat, s: seq<byte>)
    ensures PlaceAfter(at, x, s) == NUM_COLS * (at + Breaks(s) + Wraps(x, s)) + FirstColumn(x, s) + LastLine(s)
  {
    if s != [] {
      var t, c := s[..|s| - 1], s[|s| - 1];
      PlaceByLines(at, x, t);
      if IsNewline(c) {
        if t == [] {
          assert Breaks(s) == 1 && Wraps(x, s) == 0;
        } else {
          NextRow(at + Breaks(t) + Wraps(x, t), FirstColumn(x, t), LastLine(t));
        }
      }
    }
  }

  lemma NextRow(row: nat, column: nat, length: nat)
    ensures NextPlace(NUM_COLS * row + column + length, NEWLINE)
            == NUM_COLS * (row + (column + length) / NUM_COLS + 1)
  {
  }

  // ---------------------------------------------------------------- whether the line chosen is high enough

  /** A string without the line ends at its end. */
  function Trimmed(s: seq<byte>): (t: seq<byte>)
    ensures |t| <= |s| && t == s[..|t|] && (t != [] ==> !IsNewline(t[|t| - 1]))
  {
    if s != [] && IsNewline(s[|s| - 1]) then Trimmed(s[..|s| - 1]) else s
  }

  /** A string fits exactly if what is drawn of it ends on the screen. */
  lemma {:induction false} FitsIfEndFits(at: nat, x: nat, s: seq<byte>)
    ensures FitsScreen(at, x, s) <==> Trimmed(s) == [] || PlaceAfter(at, x, Trimmed(s)) <= CELLS
    decreases |s|
  {
    if s != [] {
      var t, c := s[..|s| - 1], s[|s| - 1];
      if IsNewline(c) {
        FitsIfEndFits(at, x, t);
        FitsWithBreak(at, x, s);
      } else if PlaceAfter(at, x, s) <= CELLS {
        forall k | 0 <= k < |s| && !IsNewline(s[k]) ensures PlaceAfter(at, x, s[..k]) < CELLS {
          PlacesGrow(at, x, s, k);
        }
      } else {
        assert s[..|s| - 1] == t && PlaceAfter(at, x, t) >= CELLS;
      }
    }
  }

  lemma FitsWithBreak(at: nat, x: nat, s: seq<byte>)
    requires s != [] && IsNewline(s[|s| - 1])
    ensures FitsScreen(at, x, s) <==> FitsScreen(at, x, s[..|s| - 1])
  {
    var t := s[..|s| - 1];
    if FitsScreen(at, x, t) {
      forall k | 0 <= k < |s| && !IsNewline(s[k]) ensures PlaceAfter(at, x, s[..k]) < CELLS {
        assert s[..k] == t[..k] && s[k] == t[k];
      }
    } else {
      var k :| 0 <= k < |t| && !IsNewline(t[k]) && PlaceAfter(at, x, t[..k]) >= CELLS;
      assert s[..k] == t[..k] && s[k] == t[k];
    }
  }

  /**
    The line chosen for a text without line breaks, written on a terminal that stands at a line and
    column, is high enough exactly if the text fits from there, or from line 23 if the terminal stands
    below it.
   */
  lemma OneLineFits(line: byte, x: byte, text: seq<byte>)
    requires text != [] && Breaks(text) == 0
    ensures FitsScreen(PrintLine(line, x, |text|, 0), x, text)
            <==> 80 * (if line < 23 then line else 23) + x + |text| <= 2000
  {
    LineOfText(x, text);
    FitsIfEndFits(PrintLine(line, x, |text|, 0), x, text);
    PlaceByLines(PrintLine(line, x, |text|, 0), x, text);
  }

  lemma {:induction false} LineOfText(x: nat, text: seq<byte>)
    requires Breaks(text) == 0
    ensures LastLine(text) == |text| && Wraps(x, text) == 0 && Trimmed(text) == text
    decreases |text|
  {
    if text != [] {
      LineOfText(x, text[..|text| - 1]);
    }
  }

  /** What trimming does to the lines of a text of which none fills a row. */
  lemma {:induction false} TrimmedLines(x: nat, s: seq<byte>)
    requires Wraps(x, s) == 0
    ensures var t := Trimmed(s);
      && Wraps(x, t) == 0 && Breaks(t) <= Breaks(s)
      && (s != [] && IsNewline(s[|s| - 1]) && t != [] ==>
            Breaks(t) < Breaks(s) && FirstColumn(x, t) + LastLine(t) < NUM_COLS)
    decreases |s|
  {
    if s != [] && IsNewline(s[|s| - 1]) {
      var t := s[..|s| - 1];
      TrimmedLines(x, t);
      if t != [] && !IsNewline(t[|t| - 1]) {
        assert LastLine(t) > 0 && Filled(FirstColumn(x, t), LastLine(t)) == 0;
      }
    }
  }

  /**
    Where any text is drawn, and when it fits from there: at the line the terminal stands at, or at line
    23 or 24 if that is below the screen, but far enough up for all of its newlines.
   */
  lemma TextFits(line: byte, x: byte, nbytes: int, newlines: nat, str: seq<byte>)
    requires newlines <= NUM_ROWS
    ensures var low := if line < 24 then line else if x + nbytes >= 80 then 23 else 24;
            var at := if low + newlines <= 25 then low else 25 - newlines;
            var t := Trimmed(str);
            && PrintLine(line, x, nbytes, newlines) == at
            && (FitsScreen(at, x, str)
                <==> t == [] || 80 * (at + Breaks(t) + Wraps(x, t)) + FirstColumn(x, t) + LastLine(t) <= 2000)
  {
    var at := PrintLine(line, x, nbytes, newlines);
    FitsIfEndFits(at, x, str);
    PlaceByLines(at, x, Trimmed(str));
  }

  /**
    The line chosen for a text with newlines, none of whose lines fills a row, is high enough exactly
    if the text ends in a newline, or the terminal stands so far up that all of its lines have room
    below; or else if the text has two lines and more characters than the last row.
   */
  lemma LinesFit(line: byte, x: byte, text: seq<byte>, last: byte)
    requires IsPlain(text) && text != [] && last == text[|text| - 1] && 0 < Newlines(text) <= NUM_ROWS
    requires Wraps(x, text) == 0 && LastLine(text) <= NUM_COLS
    ensures FitsScreen(PrintLine(line, x, |text|, Newlines(text)), x, text)
            <==> last == NEWLINE || line + Newlines(text) <= 24
                 || (line >= 24 && Newlines(text) == 1 && x + |text| >= 80)
  {
    var nl := Newlines(text);
    var at := PrintLine(line, x, |text|, nl);
    BreaksOfPlain(x, text);
    TrimmedLines(x, text);
    FitsIfEndFits(at, x, text);
    PlaceByLines(at, x, Trimmed(text));
    assert last in text;
    if last != NEWLINE {
      assert Trimmed(text) == text;
    }
  }

  /** The place at which the cursor stands, before the shifts that bring it onto the screen. */
  function PlaceLeft(at: nat, x: byte, nbytes: int, last: byte, newlines: nat): nat {
    var c := CursorLeft(at, x, nbytes, last, newlines);
    NUM_COLS * (c.y + ShiftsAfter(at, x, nbytes, last, newlines)) + c.x
  }

  /** A text of the given size, with a NUL behind it and none inside, and no carriage return. */
  ghost predicate IsPlain(text: seq<byte>) { NUL !in text && 13 !in text && |text| <= MAX_INPUT }

  /** Whether, by its line and column, the terminal stands right behind a plain text it has written. */
  predicate KeepsPlace(x: byte, text: seq<byte>, last: byte) {
    if Newlines(text) == 0 then text == [] || (|text| != NUM_COLS && x + |text| < 0x100)
    else if last == NEWLINE then Wraps(x, text) == if x + |text| > NUM_COLS then 1 else 0
    else Wraps(x, text) == 0 && LastLine(text) == NUM_COLS
  }

  lemma {:induction false} BreaksOfPlain(x: nat, text: seq<byte>)
    requires NUL !in text && 13 !in text
    ensures Newlines(text) == Breaks(text)
    ensures Breaks(text) == 0 ==> LastLine(text) == |text| && Wraps(x, text) == 0
    ensures LastLine(text) + Breaks(text) <= |text|
    decreases |text|
  {
    if text != [] {
      var t, c := text[..|text| - 1], text[|text| - 1];
      assert c in text;
      BreaksOfPlain(x, t);
      assert text == t + [c];
      NewlinesOfMore(t, c);
    }
  }

  lemma {:induction false} NewlinesOfMore(t: seq<byte>, c: byte)
    requires NUL !in t && c != NUL
    ensures Newlines(t + [c]) == Newlines(t) + if c == NEWLINE then 1 else 0
  {
    if t == [] {
      assert [c][1..] == [];
      assert t + [c] == [c];
    } else {
      assert (t + [c])[1..] == t[1..] + [c];
      NewlinesOfMore(t[1..], c);
    }
  }

  /**
    Where the next write continues. The line and the column are counted, not taken from the cursor
    that puts has left: they are those of the place behind the text exactly under these conditions.
    In particular, a text without newlines must not be of exactly 80 characters, and one with
    newlines, none of whose lines fills a row, must end in one and have at most 80 characters with
    what is before it.
   */
  lemma NextWriteContinues(at: nat, x: byte, text: seq<byte>, last: byte)
    requires IsPlain(text) && (text != [] ==> last == text[|text| - 1])
    ensures PlaceLeft(at, x, |text|, last, Newlines(text)) == PlaceAfter(at, x, text) <==> KeepsPlace(x, text, last)
  {
    PlaceByLines(at, x, text);
    BreaksOfPlain(x, text);
    if Newlines(text) > 0 {
      RowsLeft(at, x, text, last);
    } else {
      assert text != [] ==> last != NEWLINE;
      assert PlaceAfter(at, x, text) == NUM_COLS * at + x + |text|;
      assert PlaceLeft(at, x, |text|, last, 0) == NUM_COLS * at + ColumnAfter(x, |text|, last);
    }
  }

  lemma RowsLeft(at: nat, x: byte, text: seq<byte>, last: byte)
    requires text != [] && last == text[|text| - 1] && Newlines(text) > 0 && Breaks(text) == Newlines(text)
              && last != 13
    requires LastLine(text) + Breaks(text) <= |text| <= MAX_INPUT
    requires PlaceAfter(at, x, text) == NUM_COLS * (at + Breaks(text) + Wraps(x, text)) + LastLine(text)
    ensures PlaceLeft(at, x, |text|, last, Newlines(text)) == PlaceAfter(at, x, text) <==> KeepsPlace(x, text, last)
  {
    var w, l, ov := Wraps(x, text), LastLine(text), Overflow(x, |text|, last, Newlines(text));
    assert last == NEWLINE <==> l == 0;
    assert PlaceLeft(at, x, |text|, last, Newlines(text)) == NUM_COLS * (at + Newlines(text) + ov);
    assert PlaceLeft(at, x, |text|, last, Newlines(text)) == PlaceAfter(at, x, text)
        <==> NUM_COLS * ov == NUM_COLS * w + l;
    if last == NEWLINE {
      assert ov == if x + |text| > NUM_COLS then 1 else 0;
    } else {
      assert l == NUM_COLS ==> ov == 1;
      assert ov <= 1;
    }
  }

  /** Inputs for which it does not continue: two short lines, and 80 characters. */
  lemma NextWriteDrawsOver(text: seq<byte>)
    requires IsPlain(text) && Newlines(text) == 0 && |text| == NUM_COLS
    ensures CursorLeft(0, 0, 3, LOWER_B, 1) == Cursor(0, 1) && PlaceAfter(0, 0, TWO_LINES[..2]) == NUM_COLS
    ensures CursorLeft(0, 0, NUM_COLS, text[NUM_COLS - 1], 0) == Cursor(0, 0)
  {
    PlacesOfTwoLines(0);
  }

  /** How much of a text is counted: all of it, or up to its first NUL, the newlines before which are counted. */
  lemma {:induction false} CountsToNul(text: seq<byte>, str: seq<byte>)
    requires IsStringOf(text, str)
    ensures NUL in text ==> Seen(text) == |str| + 1 && Newlines(text) == Newlines(str)
    ensures NUL !in text ==> Seen(text) == |text|
    decreases |text|
  {
    if text != [] && text[0] != NUL {
      assert NUL in text <==> NUL in text[1..];
      assert NUL !in text ==> text[1..] <= str[1..];
      if NUL in text {
        assert str != [] && str[0] == text[0] && text[1..][..|str| - 1] == str[1..];
      }
      CountsToNul(text[1..], str[1..]);
    }
  }

  /** The line and column that a write leaves, and the shifts that keep the line on the screen. */
  lemma CursorLeftIs(at: nat, x: byte, nbytes: int, last: byte, newlines: nat)
    ensures var typed := nbytes != 80 && last != 10;
            var column := if typed then (x + nbytes) % 0x100 else x;
            var more := if newlines > 0 && (if typed then nbytes else nbytes - 1) + column >= 80 then 1 else 0;
            var c := CursorLeft(at, x, nbytes, last, newlines);
            && c.x == (if newlines > 0 then 0 else column)
            && c.y == (if at + newlines + more <= 24 then at + newlines + more else 24)
            && c.y + ShiftsAfter(at, x, nbytes, last, newlines) == at + newlines + more
  {
  }

  /** The line after the loop that makes room has gone round n times. */
  function LineAfter(line: byte, n: nat): byte { if n == 0 then line else Decremented(LineAfter(line, n - 1)) }

  /** The loop that makes room for a text ends, wherever it starts, exactly if there are at most 25 newlines. */
  lemma RoomIsFound(line: byte, newlines: nat)
    ensures (exists n: nat :: newlines <= NUM_ROWS - LineAfter(line, n)) <==> newlines <= NUM_ROWS
  {
    LineCountsDown(line, line);
    assert newlines <= NUM_ROWS ==> newlines <= NUM_ROWS - LineAfter(line, line);
  }

  lemma {:induction false} LineCountsDown(line: byte, n: nat)
    requires n <= line
    ensures LineAfter(line, n) == line - n
  {
    if n > 0 {
      LineCountsDown(line, n - 1);
    }
  }

  /** scroll(n) is a screen after n shifts. */
  ghost predicate IsScroll(scroll: nat -> Page) {
    forall n: nat {:trigger RowsShifted(scroll(n), 0, BOTTOM)} :: scroll(n + 1) == RowsShifted(scroll(n), 0, BOTTOM)
  }

  lemma NextShift(scroll: nat -> Page, n: nat, v: Page)
    requires IsScroll(scroll) && v == scroll(n)
    ensures RowsShifted(v, 0, BOTTOM) == scroll(n + 1)
  {
  }

  ghost function ScrollOf(v: Page): (scroll: nat -> Page)
    ensures IsScroll(scroll) && forall n: nat :: scroll(n) == Scrolled(v, n)
  {
    n => Scrolled(v, n)
  }

  class Terminal {
    var currentChar: nat
    var currentLine: byte
    var charInLine: byte
    var cursor: Cursor
    const video: array<byte>

    ghost predicate Valid() { video.Length == ALIGN_4KB }

    constructor (video: array<byte>)
      requires video.Length == ALIGN_4KB
      ensures Valid() && this.video == video
      ensures currentChar == 0 && currentLine == 0 && charInLine == 0
    {
      currentChar, currentLine, charInLine, cursor := 0, 0, 0, Cursor(0, 0);
      this.video := video;
    }

    /** One shift of the screen, and the line that goes with it. */
    method ShiftUp(ghost scroll: nat -> Page, ghost shifts: nat)
      requires Valid() && IsScroll(scroll) && video[..] == scroll(shifts)
      modifies this`currentLine, video
      ensures video[..] == scroll(shifts + 1) && currentLine == Decremented(old(currentLine))
    {
      NextShift(scroll, shifts, video[..]);
      var r := ShiftVideoMemUp(video, 0, NUM_ROWS);
      currentLine := Decremented(currentLine);
    }

    /** The loop that brings the line back onto the screen. */
    method ShiftOntoScreen(ghost scroll: nat -> Page, ghost before: nat) returns (ghost shifts: nat)
      requires Valid() && IsScroll(scroll) && video[..] == scroll(before)
      modifies this`currentLine, video
      ensures video[..] == scroll(shifts) && shifts >= before
      ensures currentLine == Min(old(currentLine), BOTTOM) && currentLine + shifts == old(currentLine) + before
    {
      shifts := before;
      while currentLine > BOTTOM
        invariant video[..] == scroll(shifts) && shifts >= before
        invariant currentLine + shifts == old(currentLine) + before && currentLine >= Min(old(currentLine), BOTTOM)
        decreases currentLine
      {
        ShiftUp(scroll, shifts);
        shifts := shifts + 1;
      }
    }

    /** The loop that makes room for the lines of the text. */
    method MakeRoom(newlines: nat, ghost scroll: nat -> Page, ghost before: nat) returns (ghost shifts: nat)
      requires Valid() && IsScroll(scroll) && video[..] == scroll(before) && newlines <= NUM_ROWS
      modifies this`currentLine, video
      ensures video[..] == scroll(shifts) && shifts >= before
      ensures currentLine == Min(old(currentLine), NUM_ROWS - newlines)
      ensures currentLine + shifts == old(currentLine) + before
    {
      shifts := before;
      var linesLeft := NUM_ROWS - currentLine;
      while newlines > linesLeft
        invariant linesLeft == NUM_ROWS - currentLine
        invariant video[..] == scroll(shifts) && shifts >= before
        invariant currentLine + shifts == old(currentLine) + before
        invariant currentLine >= Min(old(currentLine), NUM_ROWS - newlines)
        decreases currentLine
      {
        ShiftUp(scroll, shifts);
        shifts := shifts + 1;
        linesLeft := NUM_ROWS - currentLine;
      }
    }

    method CountLines(text: seq<byte>) returns (strLen: nat, newlineCount: nat)
      ensures strLen == Seen(text) && newlineCount == Newlines(text)
    {
      strLen, newlineCount := 0, 0;
      ghost var rest := text;
      for i := 0 to |text|
        invariant strLen == i && rest == text[i..]
        invariant Seen(text) == strLen + Seen(rest) && Newlines(text) == newlineCount + Newlines(rest)
      {
        strLen := strLen + 1;
        if text[i] == NUL {
          return;
        } else if text[i] == NEWLINE {
          newlineCount := newlineCount + 1;
        }
        rest := rest[1..];
      }
    }

    /** putc, on the screen the terminal is scheduled on. */
    method Putc(c: byte)
      requires Valid() && CanPut(cursor, c)
      modifies this`cursor, video
      ensures video[..] == PutOn(old(video[..]), old(cursor), c) && cursor == Moved(old(cursor), c)
    {
      if IsNewline(c) {
        cursor := Cursor(0, cursor.y + 1);
      } else {
        var at := CellAt(cursor);
        video[at], video[at + 1] := c, ATTRIB;
        var x := cursor.x + 1;
        cursor := Cursor(x % NUM_COLS, (cursor.y + x / NUM_COLS) % NUM_ROWS);
      }
    }

    /** puts: the characters one after the other. */
    method Puts(s: seq<byte>)
      requires Valid() && CanPrint(cursor, s)
      modifies this`cursor, video
      ensures video[..] == Printed(old(video[..]), old(cursor), s) && cursor == CursorAfter(old(cursor), s)
    {
      ghost var v: Page, cur := video[..], cursor;
      var i := 0;
      while i < |s|
        invariant 0 <= i <= |s| && video[..] == Printed(v, cur, s[..i]) && cursor == CursorAfter(cur, s[..i])
      {
        OneMorePrinted(v, cur, s, i);
        Putc(s[i]);
        i := i + 1;
      }
      assert s[..i] == s;
    }

    /** The part of terminal_write before the text is drawn. */
    method FindLine(nbytes: int, newlineCount: nat, ghost scroll: nat -> Page) returns (ghost above: nat)
      requires Valid() && IsScroll(scroll) && video[..] == scroll(0) && newlineCount <= NUM_ROWS
      modifies this, video
      ensures charInLine == old(charInLine) && currentChar == 0
      ensures var start := StartLine(old(currentLine), old(currentChar));
        currentLine == PrintLine(start, charInLine, nbytes, newlineCount) && currentLine + above == start
      ensures video[..] == scroll(above) && cursor == Cursor(charInLine, currentLine)
    {
      if currentChar > 0 {
        currentLine := (currentLine + 1) % 0x100;
        currentChar := 0;
      }
      above := ShiftOntoScreen(scroll, 0);
      if currentLine == BOTTOM && nbytes >= NUM_COLS - charInLine {
        ShiftUp(scroll, above);
        above := above + 1;
      }
      above := MakeRoom(newlineCount, scroll, above);
      cursor := Cursor(charInLine, currentLine);
    }

    /** The part of terminal_write after the text has been drawn. */
    method Advance(size: int, last: byte, newlineCount: nat, ghost scroll: nat -> Page) returns (ghost below: nat)
      requires Valid() && IsScroll(scroll) && video[..] == scroll(0)
      requires currentLine + newlineCount <= NUM_ROWS && currentLine <= BOTTOM
      modifies this, video
      ensures currentChar == old(currentChar)
      ensures currentLine
                == Min(old(currentLine) + newlineCount + Overflow(old(charInLine), size, last, newlineCount), BOTTOM)
      ensures currentLine + below
                == old(currentLine) + newlineCount + Overflow(old(charInLine), size, last, newlineCount)
      ensures charInLine == (if newlineCount > 0 then 0 else ColumnAfter(old(charInLine), size, last))
      ensures video[..] == scroll(below) && cursor == Cursor(charInLine, currentLine)
    {
      var nbytes := size;
      below := 0;
      if nbytes != NUM_COLS && last != NEWLINE {
        charInLine := (charInLine + nbytes) % 0x100;
      } else {
        nbytes := nbytes - 1;
      }
      if newlineCount != 0 {
        currentLine := currentLine + newlineCount;
        if nbytes >= NUM_COLS - charInLine {
          currentLine := currentLine + 1;
        }
        below := ShiftOntoScreen(scroll, 0);
        charInLine := 0;
      }
      cursor := Cursor(charInLine, currentLine);
    }

    /** The line at which the text is drawn. */
    ghost function DrawingLine(nbytes: int, text: seq<byte>): int
      reads this
    {
      PrintLine(StartLine(currentLine, currentChar), charInLine, nbytes, Newlines(text))
    }

    /**
      terminal_write, for a text with at most 25 newlines, none of whose characters lies beyond the
      video page. str is the string that puts prints; last is the byte before the end of the text,
      which is looked at even if the text is empty. A negative size stands for an empty text. The
      screen is scrolled above times before the text is drawn and below times after it, and the line
      changes with it, so that it still stands at the same line of the text. The text is shown
      completely exactly if it fits on the screen from the line where it is drawn.
     */
    method Write(nbytes: int, text: seq<byte>, last: byte, str: seq<byte>)
      returns (strLen: nat, ghost above: nat, ghost at: byte, ghost below: nat)
      requires Valid() && |text| == (if nbytes > 0 then nbytes else 0)
      requires (text != [] ==> last == text[|text| - 1]) && IsStringOf(text, str)
      requires nbytes <= 1024 ==> Newlines(text) <= 25
      requires nbytes <= 1024 ==> CanPrint(Cursor(charInLine, DrawingLine(nbytes, text)), str)
      modifies this, video
      ensures nbytes > 1024 ==> strLen == 0 && video[..] == old(video[..]) && unchanged(this)
      ensures nbytes <= 1024 ==>
                var x, newlines := old(charInLine), Newlines(text);
                && strLen == Seen(text) && currentChar == 0
                && at == old(DrawingLine(nbytes, text))
                   && at + above == (old(currentLine) + if old(currentChar) > 0 then 1 else 0) % 0x100
                && below == ShiftsAfter(at, x, nbytes, last, newlines)
                && cursor == CursorLeft(at, x, nbytes, last, newlines) == Cursor(charInLine, currentLine)
                && video[..] == Written(old(video[..]), above, x, at, str, below)
                && (AllShown(video[..], at, x, str, below) <==> FitsScreen(at, x, str))
    {
      above, at, below := 0, 0, 0;
      if nbytes > MAX_INPUT {
        return 0, 0, 0, 0;
      }
      ghost var x := charInLine;
      var newlineCount;
      strLen, newlineCount := CountLines(text);
      above := FindLine(nbytes, newlineCount, ScrollOf(video[..]));
      at := currentLine;
      ghost var v: Page := video[..];
      Puts(str);
      below := Advance(nbytes, last, newlineCount, ScrollOf(video[..]));
      TextIsShown(v, at, x, str, below);
    }
  }
}
