/**
  terminal_write as a run of the kernel: its shifts are stores through the video page, its prints
  are calls of putc, and what they come to on the scheduled terminal's screen is what Scroll says.
 */
module KernelWriting {
  import opened Bytes
  import opened Paging
  import opened KernelState
  import opened KernelInvariant
  import opened KernelRuns
  import opened KernelScreens
  import opened Scroll

  // ---------------------------------------------------------------- runs that draw

  /** The state with another page where the video page is, and another cursor. */
  ghost function With(s: KState, p: Page, c: Cursor): KState
    requires Sound(s)
  {
    WithVideoPage(s, p).(cursor := c)
  }

  lemma WithKeepsInv(s: KState, p: Page, c: Cursor)
    requires Inv(s) && Coherent(s)
    ensures Inv(With(s, p, c)) && Coherent(With(s, p, c)) && VideoPage(With(s, p, c)) == p
  {
    OnlyMemory(s, With(s, p, c));
  }

  lemma WithTwice(s: KState, p: Page, c: Cursor, q: Page, d: Cursor)
    requires Inv(s) && Coherent(s)
    ensures Inv(With(s, p, c)) && With(With(s, p, c), q, d) == With(s, q, d)
  {
    WithKeepsInv(s, p, c);
    VideoPageTwice(s, p, q);
  }

  lemma WithOwnPage(s: KState, c: Cursor)
    requires Sound(s)
    ensures With(s, VideoPage(s), c) == s.(cursor := c)
  {
    assert s.mem[s.tables.table[VIDEO_MEMORY_PAGE].frame := VideoPage(s)] == s.mem;
  }

  /** A run from s begins by drawing the page p and setting the cursor to c, and goes on with rest. */
  ghost predicate Draws(s: KState, es: seq<Event>, p: Page, c: Cursor, rest: seq<Event>)
    requires Inv(s)
  {
    var r := With(s, p, c);
    Inv(r) && (Runnable(r, rest) ==> Runnable(s, es) && Run(s, es) == Run(r, rest))
  }

  lemma NothingDraws(s: KState, rest: seq<Event>)
    requires Inv(s) && Coherent(s)
    ensures Draws(s, rest, VideoPage(s), s.cursor, rest)
  {
    WithOwnPage(s, s.cursor);
  }

  lemma DrawsThen(s: KState, es: seq<Event>, p: Page, c: Cursor, fs: seq<Event>, q: Page, d: Cursor, rest: seq<Event>)
    requires Inv(s) && Coherent(s) && Draws(s, es, p, c, fs)
    requires Inv(With(s, p, c)) && Draws(With(s, p, c), fs, q, d, rest)
    ensures Draws(s, es, q, d, rest)
  {
    WithTwice(s, p, c, q, d);
  }

  lemma EventDraws(s: KState, e: Event, p: Page, c: Cursor, rest: seq<Event>)
    requires Inv(s) && Coherent(s) && Enabled(s, e) && Step(s, e) == With(s, p, c)
    ensures Draws(s, [e] + rest, p, c, rest)
  {
    WithKeepsInv(s, p, c);
    if Runnable(With(s, p, c), rest) {
      RunFirst(s, e, rest, With(s, p, c));
    }
  }

  // ---------------------------------------------------------------- the shifts

  /** Bytes stored at the start of the video page, one after the other. */
  function Stores(bs: seq<byte>, rest: seq<Event>): seq<Event> {
    if bs == [] then rest else Stores(bs[..|bs| - 1], [VideoEvent(|bs| - 1, bs[|bs| - 1])] + rest)
  }

  function Over(bs: seq<byte>, v: Page): Page {
    seq(ALIGN_4KB, k requires 0 <= k < ALIGN_4KB => if k < |bs| then bs[k] else v[k])
  }

  lemma {:induction false} StoresDraw(s: KState, bs: seq<byte>, rest: seq<Event>)
    requires Inv(s) && Coherent(s) && |bs| <= ALIGN_4KB
    ensures Draws(s, Stores(bs, rest), Over(bs, VideoPage(s)), s.cursor, rest)
    decreases |bs|
  {
    var v := VideoPage(s);
    if bs == [] {
      NothingDraws(s, rest);
      assert Over(bs, v) == v;
    } else {
      var n, t := |bs| - 1, bs[..|bs| - 1];
      var e, q := VideoEvent(n, bs[n]), Over(t, v);
      StoresDraw(s, t, [e] + rest);
      WithKeepsInv(s, q, s.cursor);
      KernelStoreIs(With(s, q, s.cursor), n, bs[n]);
      assert Over(bs, v) == q[n := bs[n]];
      EventDraws(With(s, q, s.cursor), e, Over(bs, v), s.cursor, rest);
      DrawsThen(s, Stores(bs, rest), q, s.cursor, [e] + rest, Over(bs, v), s.cursor, rest);
    }
  }

  /** What shift_video_mem_up(0, 25) stores, in its order: the rows from the top down, and the empty one. */
  function ShiftEvents(v: Page, rest: seq<Event>): seq<Event> {
    Stores(RowsShifted(v, 0, BOTTOM)[..SCREEN_BYTES], rest)
  }

  lemma ShiftDraws(s: KState, rest: seq<Event>)
    requires Inv(s) && Coherent(s)
    ensures Draws(s, ShiftEvents(VideoPage(s), rest), RowsShifted(VideoPage(s), 0, BOTTOM), s.cursor, rest)
  {
    var v := VideoPage(s);
    StoresDraw(s, RowsShifted(v, 0, BOTTOM)[..SCREEN_BYTES], rest);
    assert Over(RowsShifted(v, 0, BOTTOM)[..SCREEN_BYTES], v) == RowsShifted(v, 0, BOTTOM);
  }

  function ScrollEvents(v: Page, n: nat, rest: seq<Event>): seq<Event> {
    if n == 0 then rest else ScrollEvents(v, n - 1, ShiftEvents(Scrolled(v, n - 1), rest))
  }

  lemma OneMoreShift(s: KState, es: seq<Event>, p: Page, rest: seq<Event>)
    requires Inv(s) && Coherent(s) && Draws(s, es, p, s.cursor, ShiftEvents(p, rest))
    ensures Draws(s, es, RowsShifted(p, 0, BOTTOM), s.cursor, rest)
  {
    WithKeepsInv(s, p, s.cursor);
    ShiftDraws(With(s, p, s.cursor), rest);
    DrawsThen(s, es, p, s.cursor, ShiftEvents(p, rest), RowsShifted(p, 0, BOTTOM), s.cursor, rest);
  }

  lemma {:induction false} ScrollDraws(s: KState, n: nat, rest: seq<Event>)
    requires Inv(s) && Coherent(s)
    ensures Draws(s, ScrollEvents(VideoPage(s), n, rest), Scrolled(VideoPage(s), n), s.cursor, rest)
    decreases n
  {
    if n == 0 {
      NothingDraws(s, rest);
    } else {
      var v := VideoPage(s);
      var w := Scrolled(v, n - 1);
      ScrollDraws(s, n - 1, ShiftEvents(w, rest));
      OneMoreShift(s, ScrollEvents(v, n - 1, ShiftEvents(w, rest)), w, rest);
    }
  }

  // ---------------------------------------------------------------- the prints

  function PrintEvents(str: seq<byte>, rest: seq<Event>): seq<Event> {
    if str == [] then rest else PrintEvents(str[..|str| - 1], [PutcEvent(str[|str| - 1])] + rest)
  }

  lemma {:induction false} PrintDraws(s: KState, str: seq<byte>, rest: seq<Event>)
    requires Inv(s) && Coherent(s) && CanPrint(s.cursor, str)
    ensures Draws(s, PrintEvents(str, rest), Printed(VideoPage(s), s.cursor, str), CursorAfter(s.cursor, str), rest)
    decreases |str|
  {
    if str == [] {
      NothingDraws(s, rest);
    } else {
      var t, c := str[..|str| - 1], str[|str| - 1];
      var p, cur := Printed(VideoPage(s), s.cursor, t), CursorAfter(s.cursor, t);
      CanPrintPrefix(s.cursor, str);
      PrintDraws(s, t, [PutcEvent(c)] + rest);
      WithKeepsInv(s, p, cur);
      PutcDraws(With(s, p, cur), c);
      EventDraws(With(s, p, cur), PutcEvent(c), PutOn(p, cur, c), Moved(cur, c), rest);
      DrawsThen(s, PrintEvents(str, rest), p, cur, [PutcEvent(c)] + rest, PutOn(p, cur, c), Moved(cur, c), rest);
    }
  }

  lemma CanPrintPrefix(cur: Cursor, str: seq<byte>)
    requires str != [] && CanPrint(cur, str)
    ensures CanPrint(cur, str[..|str| - 1]) && CanPut(CursorAfter(cur, str[..|str| - 1]), str[|str| - 1])
  {
    var t := str[..|str| - 1];
    forall k | 0 <= k < |t| ensures CanPut(CursorAfter(cur, t[..k]), t[k]) {
      assert t[..k] == str[..k];
    }
  }

  /** putc in the kernel draws what putc on the page does. */
  lemma PutcDraws(s: KState, c: byte)
    requires Inv(s) && Coherent(s) && CanPut(s.cursor, c)
    ensures Putc(s, c) == With(s, PutOn(VideoPage(s), s.cursor, c), Moved(s.cursor, c))
  {
    if IsNewline(c) {
      WithOwnPage(s, Moved(s.cursor, c));
    } else {
      PutcIs(s, c);
    }
  }

  // ---------------------------------------------------------------- the whole write

  /** The run that terminal_write makes: shifts, set_cursor, puts, shifts, and set_cursor again. */
  function WriteEvents(v: Page, above: nat, x: nat, at: nat, str: seq<byte>, below: nat, c: Cursor): seq<Event> {
    var drawn := Printed(Scrolled(v, above), Cursor(x, at), str);
    var end := ScrollEvents(drawn, below, [CursorEvent(c.x, c.y)] + []);
    ScrollEvents(v, above, [CursorEvent(x, at)] + PrintEvents(str, end))
  }

  lemma CursorDraws(s: KState, d: Cursor, rest: seq<Event>)
    requires Inv(s) && Coherent(s) && 0 <= d.x < 0x100 && 0 <= d.y < 0x100
    ensures Draws(s, [CursorEvent(d.x, d.y)] + rest, VideoPage(s), d, rest)
  {
    WithOwnPage(s, d);
    EventDraws(s, CursorEvent(d.x, d.y), VideoPage(s), d, rest);
  }

  lemma ShiftsAndCursor(s: KState, n: nat, d: Cursor, rest: seq<Event>)
    requires Inv(s) && Coherent(s) && 0 <= d.x < 0x100 && 0 <= d.y < 0x100
    ensures Draws(s, ScrollEvents(VideoPage(s), n, [CursorEvent(d.x, d.y)] + rest), Scrolled(VideoPage(s), n), d, rest)
  {
    var p, fs := Scrolled(VideoPage(s), n), [CursorEvent(d.x, d.y)] + rest;
    ScrollDraws(s, n, fs);
    WithKeepsInv(s, p, s.cursor);
    CursorDraws(With(s, p, s.cursor), d, rest);
    DrawsThen(s, ScrollEvents(VideoPage(s), n, fs), p, s.cursor, fs, p, d, rest);
  }

  /** The run of a write can be made, and leaves the video page as Written says and the cursor as it was set. */
  lemma WriteDraws(s: KState, above: nat, x: byte, at: byte, str: seq<byte>, below: nat, c: Cursor)
    requires Inv(s) && Coherent(s) && CanPrint(Cursor(x, at), str) && 0 <= c.x < 0x100 && 0 <= c.y < 0x100
    ensures Draws(s, WriteEvents(VideoPage(s), above, x, at, str, below, c),
              Written(VideoPage(s), above, x, at, str, below), c, [])
  {
    var v, cur, es := VideoPage(s), Cursor(x, at), WriteEvents(VideoPage(s), above, x, at, str, below, c);
    var v1 := Scrolled(v, above);
    var v2, end := Printed(v1, cur, str), CursorAfter(cur, str);
    var last := ScrollEvents(v2, below, [CursorEvent(c.x, c.y)] + []);
    ShiftsAndCursor(s, above, cur, PrintEvents(str, last));
    WithKeepsInv(s, v1, cur);
    PrintDraws(With(s, v1, cur), str, last);
    DrawsThen(s, es, v1, cur, PrintEvents(str, last), v2, end, last);
    WithKeepsInv(s, v2, end);
    ShiftsAndCursor(With(s, v2, end), below, c, []);
    DrawsThen(s, es, v2, end, last, Scrolled(v2, below), c, []);
  }

  /**
    A write reaches the scheduled terminal's screen and no other. If that screen is mapped, it ends as
    terminal_write's own description of the page says; otherwise the whole write is lost.
   */
  lemma WriteRefines(s: KState, above: nat, x: byte, at: byte, str: seq<byte>, below: nat, c: Cursor)
    requires Inv(s) && Coherent(s) && CanPrint(Cursor(x, at), str) && 0 <= c.x < 0x100 && 0 <= c.y < 0x100
    ensures var es := WriteEvents(VideoPage(s), above, x, at, str, below, c);
      && Runnable(s, es) && View(s).Wf()
      && View(Run(s, es)) ==
         (if ScreenMapped(s)
          then View(s).(cursor := c, screens := View(s).screens[s.scheduled :=
                          Written(View(s).screens[s.scheduled], above, x, at, str, below)])
          else View(s).(cursor := c))
  {
    var page := Written(VideoPage(s), above, x, at, str, below);
    WriteDraws(s, above, x, at, str, below, c);
    WithKeepsInv(s, page, c);
    assert Runnable(With(s, page, c), []) && Run(With(s, page, c), []) == With(s, page, c);
    VideoPageRefines(s, page);
    CursorOnly(WithVideoPage(s, page), c);
  }

  // ---------------------------------------------------------------- prints beyond the video page

  /** Where the pages of the backing frames begin, counted from the video page. */
  const BACKING_PAGES := (TERMINAL_VID_PAGE - VIDEO_MEMORY_PAGE) * ALIGN_4KB

  /** The offset of a byte of terminal u's backing page. */
  function BackingAt(u: nat, off: nat): nat { BACKING_PAGES + u * ALIGN_4KB + off }

  predicate InBacking(at: nat) { BACKING_PAGES <= at < BACKING_PAGES + MAX_TERMINALS * ALIGN_4KB }

  lemma BackingIs(at: nat) returns (u: nat, off: nat)
    requires InBacking(at)
    ensures u == (at - BACKING_PAGES) / ALIGN_4KB < MAX_TERMINALS && off == at % ALIGN_4KB && at == BackingAt(u, off)
    ensures at % 2 == 0 ==> off + 2 <= ALIGN_4KB
  {
    u, off := (at - BACKING_PAGES) / ALIGN_4KB, at % ALIGN_4KB;
  }

  lemma MappedBeyond(s: KState, at: nat)
    requires Sound(s) && ALIGN_4KB <= at && VIDEO + at < FOUR_MB
    ensures Translate(s.tables, VIDEO + at).Mapped? <==> InBacking(at)
  {
    var program, video := s.tables.dir[USER_SPACE_DIR_NUM].frame, s.tables.table[VIDEO_MEMORY_PAGE].frame;
    TranslateIsMemoryMap(s.tables, program, video, video, VIDEO + at);
  }

  lemma StoreInBacking(s: KState, u: nat, off: nat, b: byte)
    requires Sound(s) && u < MAX_TERMINALS && off < ALIGN_4KB
    ensures var f := TERMINAL_FRAME + u;
      Store(s, false, VIDEO + BackingAt(u, off), b) == s.(mem := s.mem[f := s.mem[f][off := b]])
  {
    var addr := VIDEO + BackingAt(u, off);
    var program, video := s.tables.dir[USER_SPACE_DIR_NUM].frame, s.tables.table[VIDEO_MEMORY_PAGE].frame;
    TranslateIsMemoryMap(s.tables, program, video, video, addr);
    assert addr == (TERMINAL_FRAME + u) * ALIGN_4KB + off;
    assert addr / ALIGN_4KB == TERMINAL_FRAME + u && addr % ALIGN_4KB == off;
  }

  lemma DrawInBacking(s: KState, u: nat, off: nat, c: byte)
    requires Sound(s) && u < MAX_TERMINALS && off + 2 <= ALIGN_4KB
    ensures var f := TERMINAL_FRAME + u;
      DrawCell(s, BackingAt(u, off), c) == s.(mem := s.mem[f := s.mem[f][off := c][off + 1 := ATTRIB]])
  {
    var f := TERMINAL_FRAME + u;
    var r := s.(mem := s.mem[f := s.mem[f][off := c]]);
    StoreInBacking(s, u, off, c);
    StoreInBacking(r, u, off + 1, ATTRIB);
    assert BackingAt(u, off) + 1 == BackingAt(u, off + 1);
  }

  lemma DrawnOnBacking(s: KState, u: nat, p: Page)
    requires Sound(s) && u < MAX_TERMINALS
    ensures var r := s.(mem := s.mem[TERMINAL_FRAME + u := p]);
      Wf(r) && View(r) == if u == s.active then View(s) else View(s).(screens := View(s).screens[u := p])
  {
    if u == s.active {
      WriteHidden(s, p);
    } else {
      WriteScreen(s, s.(mem := s.mem[TERMINAL_FRAME + u := p]), u, p);
    }
  }

  /**
    A character whose cell lies below the video page is drawn on the backing page of a terminal,
    the scheduled one or another, exactly if its offset is there, and faults otherwise. It changes
    that terminal's screen, and no other, exactly if another terminal is shown.
   */
  lemma PrintBeyond(s: KState, at: nat, c: byte)
    requires Sound(s) && at % 2 == 0 && ALIGN_4KB <= at && VIDEO + at + 2 <= FOUR_MB
    ensures Translate(s.tables, VIDEO + at).Mapped? <==> InBacking(at)
    ensures InBacking(at) ==>
              var u, off := (at - BACKING_PAGES) / ALIGN_4KB, at % ALIGN_4KB;
              && Wf(DrawCell(s, at, c)) && off + 1 < ALIGN_4KB
              && View(DrawCell(s, at, c)) ==
                 if u == s.active then View(s)
                 else View(s).(screens := View(s).screens[u := ScreenOf(s, u)[off := c][off + 1 := ATTRIB]])
  {
    MappedBeyond(s, at);
    if InBacking(at) {
      var u, off := BackingIs(at);
      DrawInBacking(s, u, off, c);
      DrawnOnBacking(s, u, s.mem[TERMINAL_FRAME + u][off := c][off + 1 := ATTRIB]);
    }
  }

  const RETURN: byte := 13

  function Returns(n: nat): seq<byte> { if n == 0 then [] else Returns(n - 1) + [RETURN] }

  /** How a print gets there: every carriage return takes the cursor one row down, whether or not there is a row. */
  lemma {:induction false} ReturnsGoDown(cur: Cursor, n: nat)
    requires n > 0
    ensures CursorAfter(cur, Returns(n)) == Cursor(0, cur.y + n)
  {
    if n > 1 {
      ReturnsGoDown(cur, n - 1);
    } else {
      assert Returns(1) == [RETURN] && [RETURN][..0] == [];
    }
  }
}
