/**
  fish: reading two text files side by side, character by character, and adding a blinking element
  for every cell in which one of them has something to show.
 */
module Frames {
  import opened Bytes
  import opened Text

  const COLUMNS := 80
  const OFFSET := 40
  const ZERO_CHAR: byte := 48

  /** The arguments of one call to add an element. */
  datatype Call = Call(onChar: byte, offChar: byte, location: word)

  // ---------------------------------------------------------------- the two files as grids

  /** Where row r of a file starts, if it has that many rows. */
  function RowStart(f: seq<byte>, r: nat): (s: Option<nat>)
    ensures s.Some? ==> s.value <= |f|
  {
    if r == 0 then Some(0)
    else
      match RowStart(f, r - 1)
      case None => None
      case Some(s) => if LineEnd(f, s) < |f| then Some(LineEnd(f, s) + 1) else None
  }

  /** The length of row r; rows beyond the end of the file are empty. */
  function RowLength(f: seq<byte>, r: nat): nat {
    match RowStart(f, r)
    case None => 0
    case Some(s) => LineEnd(f, s) - s
  }

  /** The character of a file in row r and column c, padded with blanks in both directions. */
  function Cell(f: seq<byte>, r: nat, c: nat): byte {
    if c < RowLength(f, r) then
      var s := RowStart(f, r).value;
      f[s + c]
    else SPACE
  }

  /** The text of row r. */
  function RowText(f: seq<byte>, r: nat): (t: seq<byte>)
    ensures |t| == RowLength(f, r)
  {
    match RowStart(f, r)
    case None => []
    case Some(s) => f[s..LineEnd(f, s)]
  }

  /** How many newlines there are before a position. */
  function Newlines(f: seq<byte>, at: nat): nat
    requires at <= |f|
  {
    if at == 0 then 0 else Newlines(f, at - 1) + if f[at - 1] == 10 then 1 else 0
  }

  lemma {:induction false} NewlinesBetween(f: seq<byte>, lo: nat, hi: nat)
    requires lo <= hi <= |f|
    ensures Newlines(f, lo) <= Newlines(f, hi)
    ensures (forall k :: lo <= k < hi ==> f[k] != 10) ==> Newlines(f, hi) == Newlines(f, lo)
    decreases hi
  {
    if lo < hi {
      NewlinesBetween(f, lo, hi - 1);
    }
  }

  /** A position at which a row starts: that of the file, or one behind a newline. */
  ghost predicate StartsRow(f: seq<byte>, at: int) {
    0 <= at <= |f| && (at > 0 ==> f[at - 1] == 10)
  }

  lemma {:induction false} RowStartCounts(f: seq<byte>, r: nat)
    ensures match RowStart(f, r)
            case Some(s) => StartsRow(f, s) && Newlines(f, s) == r
            case None => Newlines(f, |f|) < r
  {
    if r > 0 {
      RowStartCounts(f, r - 1);
      if RowStart(f, r - 1).Some? {
        var s := RowStart(f, r - 1).value;
        NewlinesBetween(f, s, LineEnd(f, s));
      }
    }
  }

  lemma MoreNewlines(f: seq<byte>, s: nat, t: nat)
    requires s < t && StartsRow(f, t)
    ensures Newlines(f, s) < Newlines(f, t)
  {
    NewlinesBetween(f, s, t - 1);
  }

  lemma SameCount(f: seq<byte>, s: nat, t: nat)
    requires StartsRow(f, s) && StartsRow(f, t) && Newlines(f, s) == Newlines(f, t)
    ensures s == t
  {
    if s < t {
      MoreNewlines(f, s, t);
    } else if t < s {
      MoreNewlines(f, t, s);
    }
  }

  /** Row r starts where r newlines lie behind, at the start of the file or right behind the last of them. */
  lemma RowStartIs(f: seq<byte>, r: nat, s: nat)
    ensures RowStart(f, r) == Some(s)
            <==> s <= |f| && (s > 0 ==> f[s - 1] == 10) && Newlines(f, s) == r
  {
    RowStartCounts(f, r);
    if StartsRow(f, s) && Newlines(f, s) == r {
      NewlinesBetween(f, s, |f|);
      SameCount(f, s, RowStart(f, r).value);
    }
  }

  /**
    Every character of a file other than a newline is found in the cell whose row is the number of
    newlines before it and whose column is its distance from the start of that row.
   */
  lemma CharIsInItsCell(f: seq<byte>, r: nat, s: nat, k: nat)
    requires RowStart(f, r) == Some(s) && s <= k < |f| && (forall i :: s <= i <= k ==> f[i] != 10)
    ensures Newlines(f, k) == r && Cell(f, r, k - s) == f[k]
  {
    RowStartCounts(f, r);
    NewlinesBetween(f, s, k);
  }

  /** The text of a row runs from its start to the next newline or the end of the file. */
  lemma RowTextIs(f: seq<byte>, r: nat)
    ensures RowStart(f, r).None? ==> RowText(f, r) == []
    ensures RowStart(f, r).Some? ==>
              var s, t := RowStart(f, r).value, RowText(f, r);
              && s + |t| <= |f| && t == f[s..s + |t|] && 10 !in t
              && (s + |t| < |f| ==> f[s + |t|] == 10)
  {
  }

  /** The character of a cell is that of its row, or a blank beyond its end. */
  lemma CellOfRow(f: seq<byte>, r: nat, c: nat)
    ensures Cell(f, r, c) == if c < |RowText(f, r)| then RowText(f, r)[c] else 32
  {
  }

  predicate HasElement(f0: seq<byte>, f1: seq<byte>, r: nat, c: nat) {
    Cell(f0, r, c) != SPACE || Cell(f1, r, c) != SPACE
  }

  /** The call for a cell; the location is computed in int and stored in an unsigned short. */
  function CallFor(f0: seq<byte>, f1: seq<byte>, r: nat, c: nat): Call {
    Call(Cell(f0, r, c), Cell(f1, r, c), (r * COLUMNS + c + OFFSET) % 0x1_0000)
  }

  /** A cell and the call made for it. */
  datatype Placed = Placed(row: nat, col: nat, call: Call)

  /** The elements in the first n columns of row r, from left to right. */
  function RowElements(f0: seq<byte>, f1: seq<byte>, r: nat, n: nat): seq<Placed> {
    if n == 0 then []
    else RowElements(f0, f1, r, n - 1)
         + if HasElement(f0, f1, r, n - 1) then [Placed(r, n - 1, CallFor(f0, f1, r, n - 1))] else []
  }

  function Width(f0: seq<byte>, f1: seq<byte>, r: nat): nat {
    if RowLength(f0, r) < RowLength(f1, r) then RowLength(f1, r) else RowLength(f0, r)
  }

  /** The elements in the first n rows, row by row. */
  function Elements(f0: seq<byte>, f1: seq<byte>, n: nat): seq<Placed> {
    if n == 0 then [] else Elements(f0, f1, n - 1) + RowElements(f0, f1, n - 1, Width(f0, f1, n - 1))
  }

  /** n is at least the number of rows of both files. */
  ghost predicate CoversRows(f0: seq<byte>, f1: seq<byte>, n: nat) {
    RowStart(f0, n).None? && RowStart(f1, n).None?
  }

  ghost predicate Before(a: Placed, b: Placed) { a.row < b.row || (a.row == b.row && a.col < b.col) }

  /** In reading order, and without repetition. */
  ghost predicate InOrder(ps: seq<Placed>) { forall i, j :: 0 <= i < j < |ps| ==> Before(ps[i], ps[j]) }

  ghost predicate RowsBelow(ps: seq<Placed>, n: nat) { forall i :: 0 <= i < |ps| ==> ps[i].row < n }

  ghost predicate InRowOnly(ps: seq<Placed>, r: nat, n: nat) {
    forall i :: 0 <= i < |ps| ==> ps[i].row == r && ps[i].col < n
  }

  lemma {:induction false} RowIsInOrder(f0: seq<byte>, f1: seq<byte>, r: nat, n: nat)
    ensures InOrder(RowElements(f0, f1, r, n)) && InRowOnly(RowElements(f0, f1, r, n), r, n)
  {
    if n > 0 {
      RowIsInOrder(f0, f1, r, n - 1);
    }
  }

  lemma JoinInOrder(a: seq<Placed>, b: seq<Placed>, r: nat, n: nat)
    requires InOrder(a) && InOrder(b) && RowsBelow(a, r) && InRowOnly(b, r, n)
    ensures InOrder(a + b) && RowsBelow(a + b, r + 1)
  {
  }

  lemma {:induction false} RowsAreInOrder(f0: seq<byte>, f1: seq<byte>, n: nat)
    ensures InOrder(Elements(f0, f1, n)) && RowsBelow(Elements(f0, f1, n), n)
  {
    if n > 0 {
      RowsAreInOrder(f0, f1, n - 1);
      RowIsInOrder(f0, f1, n - 1, Width(f0, f1, n - 1));
      JoinInOrder(Elements(f0, f1, n - 1), RowElements(f0, f1, n - 1, Width(f0, f1, n - 1)),
                  n - 1, Width(f0, f1, n - 1));
    }
  }

  /** An element that has a cell of its own, with the characters and location of that cell. */
  ghost predicate Fits(f0: seq<byte>, f1: seq<byte>, p: Placed) {
    && (Cell(f0, p.row, p.col) != 32 || Cell(f1, p.row, p.col) != 32)
    && p.call.onChar == Cell(f0, p.row, p.col) && p.call.offChar == Cell(f1, p.row, p.col)
    && p.call.location == (80 * p.row + p.col + 40) % 65536
  }

  lemma FitsIsCallFor(f0: seq<byte>, f1: seq<byte>, p: Placed)
    ensures Fits(f0, f1, p) <==> HasElement(f0, f1, p.row, p.col) && p.call == CallFor(f0, f1, p.row, p.col)
  {
  }

  lemma {:induction false} RowFits(f0: seq<byte>, f1: seq<byte>, r: nat, n: nat, p: Placed)
    requires p in RowElements(f0, f1, r, n)
    ensures Fits(f0, f1, p)
  {
    if n > 0 && p in RowElements(f0, f1, r, n - 1) {
      RowFits(f0, f1, r, n - 1, p);
    } else {
      FitsIsCallFor(f0, f1, p);
    }
  }

  lemma {:induction false} RowsFit(f0: seq<byte>, f1: seq<byte>, n: nat, p: Placed)
    requires p in Elements(f0, f1, n)
    ensures Fits(f0, f1, p)
  {
    var above, row := Elements(f0, f1, n - 1), RowElements(f0, f1, n - 1, Width(f0, f1, n - 1));
    assert Elements(f0, f1, n) == above + row;
    if p in above {
      RowsFit(f0, f1, n - 1, p);
    } else {
      RowFits(f0, f1, n - 1, Width(f0, f1, n - 1), p);
    }
  }

  /** The cell at (r, c) is not forgotten by ps. */
  ghost predicate Kept(f0: seq<byte>, f1: seq<byte>, ps: seq<Placed>, r: nat, c: nat) {
    HasElement(f0, f1, r, c) ==> Placed(r, c, CallFor(f0, f1, r, c)) in ps
  }

  lemma {:induction false} RowIsKept(f0: seq<byte>, f1: seq<byte>, r: nat, n: nat, c: nat)
    requires c < n
    ensures Kept(f0, f1, RowElements(f0, f1, r, n), r, c)
  {
    if c < n - 1 {
      RowIsKept(f0, f1, r, n - 1, c);
    }
  }

  lemma {:induction false} RowsAreKept(f0: seq<byte>, f1: seq<byte>, n: nat, r: nat, c: nat)
    requires r < n
    ensures Kept(f0, f1, Elements(f0, f1, n), r, c)
  {
    if r < n - 1 {
      RowsAreKept(f0, f1, n - 1, r, c);
    } else if c < Width(f0, f1, r) {
      RowIsKept(f0, f1, r, Width(f0, f1, r), c);
    }
  }

  lemma {:induction false} NoRowsAfterNone(f: seq<byte>, n: nat, r: nat)
    requires RowStart(f, n).None? && n <= r
    ensures RowStart(f, r).None?
    decreases r
  {
    if n < r {
      NoRowsAfterNone(f, n, r - 1);
    }
  }

  /**
    Each cell in which either file has a non-blank character is given exactly one element, in
    reading order and with the characters of the two files; no other cell is given one.
   */
  ghost predicate AreElementsOf(f0: seq<byte>, f1: seq<byte>, ps: seq<Placed>) {
    InOrder(ps) && forall p: Placed :: p in ps <==> Fits(f0, f1, p)
  }

  lemma OneElementPerCell(f0: seq<byte>, f1: seq<byte>, n: nat)
    requires CoversRows(f0, f1, n)
    ensures AreElementsOf(f0, f1, Elements(f0, f1, n))
  {
    RowsAreInOrder(f0, f1, n);
    forall p: Placed ensures p in Elements(f0, f1, n) <==> Fits(f0, f1, p) {
      FitsIsCallFor(f0, f1, p);
      if p in Elements(f0, f1, n) {
        RowsFit(f0, f1, n, p);
      } else if p.row < n {
        RowsAreKept(f0, f1, n, p.row, p.col);
      } else {
        NoRowsAfterNone(f0, n, p.row);
        NoRowsAfterNone(f1, n, p.row);
      }
    }
  }

  // ---------------------------------------------------------------- reading one file

  /** One of the two files being read: the position, the character last read, and the end mark. */
  datatype Reader = Reader(pos: nat, c: byte, eof: bool)

  /** Before a row: at its first character, or past the end of the file. */
  ghost predicate AtRow(f: seq<byte>, r: nat, rd: Reader) {
    && rd.pos <= |f| && (rd.eof <==> RowStart(f, r).None?) && (rd.eof <==> rd.c == NEWLINE)
    && (!rd.eof ==> RowStart(f, r) == Some(rd.pos))
  }

  /** In a row, with the first n columns read: the row goes on, or its end has been met. */
  ghost predicate InRow(f: seq<byte>, r: nat, n: nat, rd: Reader) {
    && rd.pos <= |f|
    && if rd.c != NEWLINE then !rd.eof && n <= RowLength(f, r) && RowStart(f, r) == Some(rd.pos - n)
       else
         && RowLength(f, r) <= n && (rd.eof <==> RowStart(f, r + 1).None?)
         && (!rd.eof ==> RowStart(f, r + 1) == Some(rd.pos))
  }

  /** The character at column n has just been read; a newline stands for everything past the row. */
  ghost predicate ReadAt(f: seq<byte>, r: nat, n: nat, rd: Reader) {
    && InRow(f, r, if rd.c == NEWLINE then n else n + 1, rd)
    && (rd.c == NEWLINE <==> RowLength(f, r) <= n)
    && (rd.c != NEWLINE ==> rd.c == Cell(f, r, n))
  }

  function Unread(f: seq<byte>, rd: Reader): int {
    |f| - rd.pos + if rd.c == NEWLINE then 0 else 1
  }

  /** The statement that reads one character, unless the row of this file is over. */
  method ReadOne(f: seq<byte>, rd: Reader, ghost r: nat, ghost n: nat) returns (rd': Reader)
    requires InRow(f, r, n, rd)
    ensures ReadAt(f, r, n, rd')
    ensures Unread(f, rd') <= Unread(f, rd) && (rd.c != NEWLINE ==> Unread(f, rd') < Unread(f, rd))
    ensures rd.c == NEWLINE ==> rd' == rd
  {
    rd' := rd;
    if rd.c != NEWLINE {
      if rd.pos == |f| {
        rd' := Reader(rd.pos, NEWLINE, true);
      } else {
        rd' := Reader(rd.pos + 1, f[rd.pos], rd.eof);
      }
    }
  }

  // ---------------------------------------------------------------- the merge

  function Calls(ps: seq<Placed>): (cs: seq<Call>)
    ensures |cs| == |ps|
  {
    seq(|ps|, i requires 0 <= i < |ps| => ps[i].call)
  }

  lemma CallsJoin(a: seq<Placed>, b: seq<Placed>)
    ensures Calls(a + b) == Calls(a) + Calls(b)
  {
  }

  /** The call made for two characters just read, if any. */
  function CallOf(c0: byte, c1: byte, row: nat, col: nat): seq<Call> {
    if (c0 != SPACE && c0 != NEWLINE) || (c1 != SPACE && c1 != NEWLINE) then
      [Call(if c0 == NEWLINE then SPACE else c0, if c1 == NEWLINE then SPACE else c1,
            (row * COLUMNS + col + OFFSET) % 0x1_0000)]
    else []
  }

  lemma RowStep(f0: seq<byte>, f1: seq<byte>, row: nat, col: nat, rd0: Reader, rd1: Reader)
    requires ReadAt(f0, row, col, rd0) && ReadAt(f1, row, col, rd1)
    ensures Calls(RowElements(f0, f1, row, col + 1))
              == Calls(RowElements(f0, f1, row, col)) + CallOf(rd0.c, rd1.c, row, col)
  {
    var last := if HasElement(f0, f1, row, col) then [Placed(row, col, CallFor(f0, f1, row, col))] else [];
    CallsJoin(RowElements(f0, f1, row, col), last);
    assert Calls(last) == CallOf(rd0.c, rd1.c, row, col);
  }

  /** The call to add, if there is something to show. */
  method AddCell(c0: byte, c1: byte, row: nat, col: nat) returns (call: seq<Call>)
    ensures call == CallOf(c0, c1, row, col)
  {
    call := [];
    if (c0 != SPACE && c0 != NEWLINE) || (c1 != SPACE && c1 != NEWLINE) {
      var onChar := if c0 == NEWLINE then SPACE else c0;
      var offChar := if c1 == NEWLINE then SPACE else c1;
      call := [Call(onChar, offChar, (row * COLUMNS + col + OFFSET) % 0x1_0000)];
    }
  }

  /** One row: the inner loop of add_frames. */
  method AddRow(f0: seq<byte>, f1: seq<byte>, row: nat, rd0: Reader, rd1: Reader)
    returns (calls: seq<Call>, rd0': Reader, rd1': Reader)
    requires AtRow(f0, row, rd0) && AtRow(f1, row, rd1)
    ensures calls == Calls(RowElements(f0, f1, row, Width(f0, f1, row)))
    ensures rd0'.c == NEWLINE && rd1'.c == NEWLINE
    ensures InRow(f0, row, Width(f0, f1, row), rd0') && InRow(f1, row, Width(f0, f1, row), rd1')
    ensures Unread(f0, rd0') <= Unread(f0, rd0) && (!rd0.eof ==> Unread(f0, rd0') < Unread(f0, rd0))
    ensures Unread(f1, rd1') <= Unread(f1, rd1) && (!rd1.eof ==> Unread(f1, rd1') < Unread(f1, rd1))
  {
    rd0', rd1' := rd0, rd1;
    EndedRow(f0, row, rd0);
    EndedRow(f1, row, rd1);
    var col := 0;
    calls := [];
    while true
      invariant InRow(f0, row, col, rd0') && InRow(f1, row, col, rd1')
      invariant col == 0 || rd0'.c != NEWLINE || rd1'.c != NEWLINE
      invariant col == 0 ==> rd0' == rd0 && rd1' == rd1
      invariant col <= Width(f0, f1, row)
      invariant calls == Calls(RowElements(f0, f1, row, col))
      invariant Unread(f0, rd0') <= Unread(f0, rd0) && (!rd0.eof && col > 0 ==> Unread(f0, rd0') < Unread(f0, rd0))
      invariant Unread(f1, rd1') <= Unread(f1, rd1) && (!rd1.eof && col > 0 ==> Unread(f1, rd1') < Unread(f1, rd1))
      decreases Unread(f0, rd0') + Unread(f1, rd1')
    {
      rd0' := ReadOne(f0, rd0', row, col);
      rd1' := ReadOne(f1, rd1', row, col);
      if rd0'.c == NEWLINE && rd1'.c == NEWLINE {
        return;
      }
      RowStep(f0, f1, row, col, rd0', rd1');
      var more := AddCell(rd0'.c, rd1'.c, row, col);
      calls := calls + more;
      col := col + 1;
    }
  }

  lemma EndedRow(f: seq<byte>, r: nat, rd: Reader)
    requires AtRow(f, r, rd)
    ensures InRow(f, r, 0, rd)
  {
    if rd.eof {
      NoRowsAfterNone(f, r, r + 1);
    }
  }

  /**
    add_frames, on the contents of the two files: the calls it makes to add elements are those for
    the cells that have something to show, one each and in reading order.
   */
  method AddFrames(f0: seq<byte>, f1: seq<byte>) returns (calls: seq<Call>)
    ensures exists ps :: AreElementsOf(f0, f1, ps) && calls == Calls(ps)
  {
    var row := 0;
    var rd0, rd1 := Reader(0, ZERO_CHAR, false), Reader(0, ZERO_CHAR, false);
    calls := [];
    while !rd0.eof || !rd1.eof
      invariant AtRow(f0, row, rd0) && AtRow(f1, row, rd1)
      invariant calls == Calls(Elements(f0, f1, row))
      decreases (if rd0.eof then 0 else |f0| - rd0.pos + 1) + if rd1.eof then 0 else |f1| - rd1.pos + 1
    {
      var more, n0, n1 := AddRow(f0, f1, row, rd0, rd1);
      CallsJoin(Elements(f0, f1, row), RowElements(f0, f1, row, Width(f0, f1, row)));
      calls := calls + more;
      rd0 := if n0.eof then n0 else n0.(c := ZERO_CHAR);
      rd1 := if n1.eof then n1 else n1.(c := ZERO_CHAR);
      row := row + 1;
    }
    OneElementPerCell(f0, f1, row);
  }
}
