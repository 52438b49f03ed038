/**
  Screen virtualization: three terminals share one physical screen by copying frames and
  remapping pages, and yet every terminal has a screen of its own. The kernel refines a machine
  without frames or page tables, the Desk, in which each terminal simply owns a page.
 */
module KernelScreens {
  import opened Bytes
  import opened Paging
  import opened KernelState
  import opened ProcessForest
  import opened KernelInvariant
  import opened KernelRuns
  import RoundRobin

  /**
    What the users of the terminals see: a private page each, and the cursors. While mapped is
    false, which it is from a key that edits the screen of the scheduled terminal to the next tick or
    switch, what that terminal's process and the kernel write for it is lost.
   */
  datatype Desk = Desk(
    active: nat, scheduled: nat, inited: seq<bool>, screens: seq<Page>, saved: seq<Cursor>, cursor: Cursor,
        mapped: bool)
  {
    ghost predicate Wf() {
      && active < MAX_TERMINALS && scheduled < MAX_TERMINALS
      && |inited| == |screens| == |saved| == MAX_TERMINALS && RoundRobin.SomeInitialized(inited)
    }
  }

  function ScreenOf(s: KState, t: nat): Page
    requires ScreenFrame(s, t) in s.mem
  {
    s.mem[ScreenFrame(s, t)]
  }

  ghost function View(s: KState): Desk
    requires Wf(s)
  {
    Desk(s.active, s.scheduled, s.inited, [ScreenOf(s, 0), ScreenOf(s, 1), ScreenOf(s, 2)], s.saved, s.cursor,
        ScreenMapped(s))
  }

  /** The page of the scheduled terminal rewritten, unless the writes are lost. */
  ghost function DeskDraw(d: Desk, p: Page): Desk
    requires d.Wf()
  {
    if d.mapped then d.(screens := d.screens[d.scheduled := p]) else d
  }

  ghost function DeskWrite(d: Desk, off: nat, b: byte): Desk
    requires d.Wf() && off < ALIGN_4KB
  {
    DeskDraw(d, d.screens[d.scheduled][off := b])
  }

  ghost function DeskPutc(d: Desk, c: byte): Desk
    requires d.Wf()
  {
    if IsNewline(c) then d.(cursor := Moved(d.cursor, c))
    else if !CellInPage(d.cursor) then d
    else DeskDraw(d, Drawn(d.screens[d.scheduled], d.cursor, c)).(cursor := Moved(d.cursor, c))
  }

  /** The pages after a switch: as they were, or those of the two terminals exchanged. */
  function DeskSwap(screens: seq<Page>, mapped: bool, active: nat, target: nat): seq<Page>
    requires active < |screens| && target < |screens|
  {
    if mapped then screens else screens[active := screens[target]][target := screens[active]]
  }

  /** The same events on the desk. */
  ghost function DeskStep(d: Desk, e: Event): Desk
    requires d.Wf()
  {
    match e
    case TickEvent(_) =>
      var next := RoundRobin.Next(d.inited, d.scheduled);
      var saved := d.saved[d.scheduled := d.cursor];
      d.(scheduled := next, saved := saved, cursor := Truncated(saved[next]), mapped := true)
    case SwitchEvent(target, _) =>
      if target >= MAX_TERMINALS || target == d.active then d
      else
        d.(active := target, inited := d.inited[target := true], mapped := true,
           screens := DeskSwap(d.screens, d.mapped, d.active, target))
    case ExecuteEvent(_, _) => d
    case HaltEvent(_) => d
    case StoreEvent(addr, b) =>
      if VIDMAP_BASE <= addr < VIDMAP_BASE + ALIGN_4KB then DeskWrite(d, addr - VIDMAP_BASE, b) else d
    case VideoEvent(off, b) => if off < ALIGN_4KB then DeskWrite(d, off, b) else d
    case CursorEvent(x, y) => d.(cursor := Truncated(Cursor(x, y)))
    case PutcEvent(c) => DeskPutc(d, c)
    case ClearEvent =>
      d.(screens := d.screens[d.active := Cleared(d.screens[d.active])], cursor := Cursor(0, 0),
         mapped := d.active != d.scheduled)
    case BackspaceEvent =>
      var c := Truncated(d.saved[d.active]);
      if !CellBeforeInPage(c) then d
      else
        d.(screens := d.screens[d.active := Erased(d.screens[d.active], c)], cursor := Truncated(d.saved[d.scheduled]),
           mapped := d.active != d.scheduled)
  }

  // ---------------------------------------------------------------- writes

  lemma ViewIsWf(s: KState)
    requires Sound(s)
    ensures View(s).Wf()
  {
    assert s.inited[0];
  }

  /** Writing the frame of terminal u's screen changes that screen and no other. */
  lemma WriteScreen(s: KState, r: KState, u: nat, p: Page)
    requires Wf(s) && u < MAX_TERMINALS
              && r == s.(mem := s.mem[ScreenFrame(s, u) := p], tables := r.tables, cursor := r.cursor)
    requires r.tables.Wf()
    ensures Wf(r)
              && View(r) == View(s).(screens := View(s).screens[u := p], cursor := r.cursor, mapped := ScreenMapped(r))
  {
    var v, w := View(s).screens[u := p], View(r).screens;
    assert forall t :: 0 <= t < MAX_TERMINALS ==> w[t] == v[t];
  }

  /** The backing frame of the terminal shown is not on any screen. */
  lemma WriteHidden(s: KState, p: Page)
    requires Wf(s)
    ensures var r := s.(mem := s.mem[TERMINAL_FRAME + s.active := p]); Wf(r) && View(r) == View(s)
  {
  }

  /** The page that the video pages of the kernel and of the process are mapped to. */
  ghost function VideoPage(s: KState): Page
    requires Sound(s)
  {
    s.mem[s.tables.table[VIDEO_MEMORY_PAGE].frame]
  }

  ghost function WithVideoPage(s: KState, p: Page): KState
    requires Sound(s)
  {
    s.(mem := s.mem[s.tables.table[VIDEO_MEMORY_PAGE].frame := p])
  }

  /** A change of that page is a change of the scheduled terminal's screen, or is lost. */
  lemma VideoPageRefines(s: KState, p: Page)
    requires Sound(s)
    ensures View(s).Wf() && Wf(WithVideoPage(s, p)) && View(WithVideoPage(s, p)) == DeskDraw(View(s), p)
    ensures ScreenMapped(s) ==> VideoPage(s) == View(s).screens[s.scheduled]
  {
    ViewIsWf(s);
    if ScreenMapped(s) {
      WriteScreen(s, WithVideoPage(s, p), s.scheduled, p);
    } else {
      WriteHidden(s, p);
    }
  }

  /** A write by the kernel into its video page. */
  lemma KernelStoreIs(s: KState, off: nat, b: byte)
    requires Sound(s) && off < ALIGN_4KB
    ensures Store(s, false, VIDEO + off, b) == WithVideoPage(s, VideoPage(s)[off := b])
  {
    var program, video := s.tables.dir[USER_SPACE_DIR_NUM].frame, s.tables.table[VIDEO_MEMORY_PAGE].frame;
    TranslateIsMemoryMap(s.tables, program, video, video, VIDEO + off);
    assert (video * ALIGN_4KB + off) / ALIGN_4KB == video && (video * ALIGN_4KB + off) % ALIGN_4KB == off;
  }

  lemma KernelStoreRefines(s: KState, off: nat, b: byte)
    requires Sound(s) && off < ALIGN_4KB
    ensures View(s).Wf() && Wf(Store(s, false, VIDEO + off, b))
    ensures View(Store(s, false, VIDEO + off, b)) == DeskStep(View(s), VideoEvent(off, b))
  {
    KernelStoreIs(s, off, b);
    VideoPageRefines(s, VideoPage(s)[off := b]);
  }

  /** A write by user code, to any address: outside the vidmap page it changes no screen frame. */
  lemma UserStoreIs(s: KState, addr: nat, b: byte)
    requires Sound(s) && Coherent(s) && addr < 0x1_0000_0000 && s.activePid[s.scheduled] < NUM_PIDS
    ensures Store(s, true, addr, b) ==
            if VIDMAP_BASE <= addr < VIDMAP_BASE + ALIGN_4KB
            then WithVideoPage(s, VideoPage(s)[addr - VIDMAP_BASE := b]) else s
  {
    var program, video := s.tables.dir[USER_SPACE_DIR_NUM].frame, s.tables.table[VIDEO_MEMORY_PAGE].frame;
    TranslateIsMemoryMap(s.tables, program, video, video, addr);
    if PROGRAM_BASE <= addr < PROGRAM_BASE + FOUR_MB {
      ProgramIsNoScreen(s.activePid[s.scheduled], addr - PROGRAM_BASE);
    } else if VIDMAP_BASE <= addr < VIDMAP_BASE + ALIGN_4KB {
      var off := addr - VIDMAP_BASE;
      assert (video * ALIGN_4KB + off) / ALIGN_4KB == video && (video * ALIGN_4KB + off) % ALIGN_4KB == off;
    }
  }

  /** A write by user code, to any address: it reaches no screen but the scheduled terminal's. */
  lemma UserStoreRefines(s: KState, addr: nat, b: byte)
    requires Sound(s) && Coherent(s) && addr < 0x1_0000_0000 && s.activePid[s.scheduled] < NUM_PIDS
    ensures View(s).Wf() && Wf(Store(s, true, addr, b))
    ensures View(Store(s, true, addr, b)) == DeskStep(View(s), StoreEvent(addr, b))
  {
    ViewIsWf(s);
    UserStoreIs(s, addr, b);
    if VIDMAP_BASE <= addr < VIDMAP_BASE + ALIGN_4KB {
      VideoPageRefines(s, VideoPage(s)[addr - VIDMAP_BASE := b]);
    }
  }

  lemma ProgramIsNoScreen(p: nat, off: nat)
    requires p < NUM_PIDS && off < FOUR_MB
    ensures (PhysFrame(p) / 1024 * FOUR_MB + off) / ALIGN_4KB >= 0x800
  {
    PidsAreDisjoint(p, p, 0);
    assert PhysFrame(p) >= 0x800;
  }

  /** Two changes of the page, one after the other. */
  lemma VideoPageTwice(s: KState, p: Page, q: Page)
    requires Sound(s)
    ensures Sound(WithVideoPage(s, p)) && VideoPage(WithVideoPage(s, p)) == p
    ensures WithVideoPage(WithVideoPage(s, p), q) == WithVideoPage(s, q)
  {
  }

  lemma DrawCellIs(s: KState, at: nat, c: byte)
    requires Sound(s) && at + 2 <= ALIGN_4KB
    ensures DrawCell(s, at, c) == WithVideoPage(s, VideoPage(s)[at := c][at + 1 := ATTRIB])
  {
    var p := VideoPage(s)[at := c];
    KernelStoreIs(s, at, c);
    VideoPageTwice(s, p, p[at + 1 := ATTRIB]);
    KernelStoreIs(WithVideoPage(s, p), at + 1, ATTRIB);
  }

  lemma PutcIs(s: KState, c: byte)
    requires Sound(s) && CellInPage(s.cursor) && !IsNewline(c)
    ensures Putc(s, c) == WithVideoPage(s, Drawn(VideoPage(s), s.cursor, c)).(cursor := Moved(s.cursor, c))
  {
    DrawCellIs(s, CellAt(s.cursor), c);
  }

  /** putc draws on the screen of the scheduled terminal, whichever terminal is shown, or its cell is lost. */
  lemma PutcRefines(s: KState, c: byte)
    requires Sound(s) && CanPut(s.cursor, c)
    ensures View(s).Wf() && Wf(Putc(s, c)) && View(Putc(s, c)) == DeskPutc(View(s), c)
  {
    ViewIsWf(s);
    if !IsNewline(c) {
      PutcIs(s, c);
      VideoPageRefines(s, Drawn(VideoPage(s), s.cursor, c));
      CursorOnly(WithVideoPage(s, Drawn(VideoPage(s), s.cursor, c)), Moved(s.cursor, c));
    }
  }

  lemma CursorOnly(s: KState, c: Cursor)
    requires Wf(s)
    ensures Wf(s.(cursor := c)) && View(s.(cursor := c)) == View(s).(cursor := c)
  {
  }

  // ---------------------------------------------------------------- the other events

  lemma SwappedScreen(s: KState, target: nat, t: nat)
    requires Sound(s) && target < MAX_TERMINALS && target != s.active && t < MAX_TERMINALS
    ensures CopiedFrame(s) in s.mem
    ensures ScreenOf(Swapped(s, target), t) ==
            if ScreenMapped(s) then ScreenOf(s, t)
            else ScreenOf(s, if t == target then s.active else if t == s.active then target else t)
  {
  }

  lemma SwappedScreens(s: KState, target: nat)
    requires Sound(s) && target < MAX_TERMINALS && target != s.active
    ensures CopiedFrame(s) in s.mem
    ensures View(Swapped(s, target)).screens == DeskSwap(View(s).screens, ScreenMapped(s), s.active, target)
  {
    SwappedScreen(s, target, 0);
    SwappedScreen(s, target, 1);
    SwappedScreen(s, target, 2);
    var v := View(s).screens;
    assert v[0] == ScreenOf(s, 0) && v[1] == ScreenOf(s, 1) && v[2] == ScreenOf(s, 2);
  }

  /** What terminal_switch makes of the screens: nothing, or it exchanges two of them. */
  lemma SwappedView(s: KState, target: nat)
    requires Sound(s) && target < MAX_TERMINALS && target != s.active
    ensures CopiedFrame(s) in s.mem
    ensures View(Swapped(s, target)) ==
            View(s).(active := target, mapped := true,
                screens := DeskSwap(View(s).screens, ScreenMapped(s), s.active, target))
  {
    SwappedScreens(s, target);
    SwitchTablesKeepPages(s, target);
  }

  lemma SpawnKeepsScreens(s: KState, pid: nat, ctx: Context)
    requires Wf(s) && pid < NUM_PIDS && (pid == 0 ==> s.active == 0)
    ensures Wf(Spawn(s, pid, ctx)) && View(Spawn(s, pid, ctx)) == View(s).(inited := s.inited[s.active := true])
  {
  }

  lemma SwitchRefines(s: KState, target: nat, ctx: Context)
    requires Sound(s) && target < MAX_TERMINALS
    ensures View(s).Wf() && Wf(Switch(s, target, ctx))
    ensures View(Switch(s, target, ctx)) == DeskStep(View(s), SwitchEvent(target, ctx))
  {
    ViewIsWf(s);
    SwitchIs(s, target, ctx);
    if s.active != target {
      SwappedView(s, target);
      if s.inited[target] {
        assert s.inited == s.inited[target := true];
      } else {
        SpawnKeepsScreens(Swapped(s, target), target, ctx);
      }
    }
  }

  /**
    terminal_switch leaves the screen of every terminal as it was exactly if the video page is
    mapped to the scheduled terminal's screen, or the two screens look the same.
   */
  lemma SwitchKeepsScreens(s: KState, target: nat, ctx: Context)
    requires Sound(s) && target < MAX_TERMINALS && target != s.active
    ensures Wf(Switch(s, target, ctx))
    ensures View(Switch(s, target, ctx)).screens == View(s).screens
            <==> ScreenMapped(s) || View(s).screens[s.active] == View(s).screens[target]
  {
    SwitchRefines(s, target, ctx);
    var v := View(s).screens;
    if !ScreenMapped(s) {
      assert DeskSwap(v, false, s.active, target)[target] == v[s.active];
      if v[s.active] == v[target] {
        assert DeskSwap(v, false, s.active, target) == v;
      }
    }
  }

  /**
    The input for which it fails: Ctrl-L in the scheduled terminal and then Alt and another function
    key, before the next tick. The cleared page appears on the other terminal, whose own page appears
    on the cleared one.
   */
  lemma ClearThenSwitch(s: KState, target: nat, ctx: Context)
    requires Sound(s) && s.active == s.scheduled && target < MAX_TERMINALS && target != s.active
    ensures Sound(Clear(s)) && !ScreenMapped(Clear(s)) && Wf(Switch(Clear(s), target, ctx))
    ensures View(Switch(Clear(s), target, ctx)).screens[target] == Cleared(View(s).screens[s.active])
    ensures View(Switch(Clear(s), target, ctx)).screens[s.active] == View(s).screens[target]
    ensures forall t :: 0 <= t < MAX_TERMINALS && t != s.active && t != target ==>
              View(Switch(Clear(s), target, ctx)).screens[t] == View(s).screens[t]
  {
    ClearUnmaps(s);
    UnmappedSwitch(Clear(s), target, ctx);
    ClearedScreens(s);
  }

  lemma UnmappedSwitch(s: KState, target: nat, ctx: Context)
    requires Sound(s) && !ScreenMapped(s) && target < MAX_TERMINALS && target != s.active
    ensures Wf(Switch(s, target, ctx))
    ensures View(Switch(s, target, ctx)).screens == DeskSwap(View(s).screens, false, s.active, target)
  {
    SwitchRefines(s, target, ctx);
  }

  lemma ClearedScreens(s: KState)
    requires Sound(s)
    ensures Wf(Clear(s)) && View(Clear(s)).screens == View(s).screens[s.active := Cleared(View(s).screens[s.active])]
  {
    KeysRefine(s);
  }

  lemma ClearUnmaps(s: KState)
    requires Sound(s) && s.active == s.scheduled
    ensures Sound(Clear(s)) && !ScreenMapped(Clear(s)) && Clear(s).active == s.active
  {
    RemapKeepsPages(s.tables, TERMINAL_FRAME + s.scheduled);
  }

  lemma KeysRefine(s: KState)
    requires Sound(s)
    ensures View(s).Wf() && Wf(Clear(s)) && View(Clear(s)) == DeskStep(View(s), ClearEvent)
    ensures CellBeforeInPage(Truncated(s.saved[s.active])) ==>
              Wf(Backspace(s)) && View(Backspace(s)) == DeskStep(View(s), BackspaceEvent)
  {
    ViewIsWf(s);
    WriteScreen(s, Clear(s), s.active, Cleared(ScreenOf(s, s.active)));
    if CellBeforeInPage(Truncated(s.saved[s.active])) {
      WriteScreen(s, Backspace(s), s.active, Erased(ScreenOf(s, s.active), Truncated(s.saved[s.active])));
    }
  }

  // ---------------------------------------------------------------- the pages, byte by byte

  /** What stands at offset i of a page for a cell that shows c: the character, or the attribute. */
  function InCell(c: byte, i: nat): byte { if i % 2 == 0 then c else 7 }

  /** Ctrl-L: the 25 rows of 80 cells of the terminal shown are blank; no other byte of a screen changes. */
  lemma ClearShows(s: KState, t: nat, i: nat)
    requires Sound(s) && t < MAX_TERMINALS && i < ALIGN_4KB
    ensures Wf(Clear(s)) && Clear(s).cursor == Cursor(0, 0) && Clear(s).saved == s.saved
    ensures ScreenOf(Clear(s), t)[i] == if t == s.active && i < 4000 then InCell(32, i) else ScreenOf(s, t)[i]
  {
    KeysRefine(s);
    ScreenInView(s, t);
    ScreenInView(Clear(s), t);
  }

  /** A backspace: the cell before the place of the terminal's cursor is blank, and no other byte changes. */
  lemma BackspaceShows(s: KState, t: nat, i: nat)
    requires Sound(s) && t < MAX_TERMINALS && i < ALIGN_4KB && CellBeforeInPage(Truncated(s.saved[s.active]))
    ensures Wf(Backspace(s)) && Backspace(s).saved == s.saved
    ensures Backspace(s).cursor == Cursor(s.saved[s.scheduled].x % 256, s.saved[s.scheduled].y % 256)
    ensures var place := 80 * (s.saved[s.active].y % 256) + s.saved[s.active].x % 256;
            ScreenOf(Backspace(s), t)[i]
            == if t == s.active && i / 2 == place - 1 then InCell(32, i) else ScreenOf(s, t)[i]
  {
    KeysRefine(s);
    ScreenInView(s, t);
    ScreenInView(Backspace(s), t);
  }

  /** putc: a character goes to the cell of the cursor, on the screen of the scheduled terminal. */
  lemma PutcShows(s: KState, c: byte, t: nat, i: nat)
    requires Sound(s) && CanPut(s.cursor, c) && t < MAX_TERMINALS && i < ALIGN_4KB
    ensures Wf(Putc(s, c))
    ensures var drawn := c != 10 && c != 13 && ScreenMapped(s) && t == s.scheduled
                         && i / 2 == 80 * s.cursor.y + s.cursor.x;
            ScreenOf(Putc(s, c), t)[i] == if drawn then InCell(c, i) else ScreenOf(s, t)[i]
    ensures Putc(s, c).cursor
            == if c == 10 || c == 13 then Cursor(0, s.cursor.y + 1)
               else Cursor((s.cursor.x + 1) % 80, (s.cursor.y + (s.cursor.x + 1) / 80) % 25)
  {
    PutcRefines(s, c);
    ScreenInView(s, t);
    ScreenInView(Putc(s, c), t);
  }

  lemma ScreenInView(s: KState, t: nat)
    requires Wf(s) && t < MAX_TERMINALS
    ensures View(s).screens[t] == ScreenOf(s, t)
  {
  }

  lemma TickRefines(s: KState, ctx: Context)
    requires Inv(s)
    ensures View(s).Wf() && Inv(Tick(s, ctx)) && View(Tick(s, ctx)) == DeskStep(View(s), TickEvent(ctx))
  {
    ViewIsWf(s);
    TickKeepsInv(s, ctx);
  }

  lemma ExecuteRefines(s: KState, runnable: bool, ctx: Context)
    requires Inv(s) && Enabled(s, ExecuteEvent(runnable, ctx))
    ensures Wf(Execute(s, runnable, ctx)) && View(Execute(s, runnable, ctx)) == View(s)
  {
    if runnable && FirstFree(s.pcbs, 0) != -1 {
      FirstFreeIsFresh(ProcsOf(s), ChainsOf(s));
      SpawnKeepsScreens(s, FirstFree(s.pcbs, 0), ctx);
      assert s.inited == s.inited[s.active := true];
    }
  }

  lemma HaltRefines(s: KState, ctx: Context)
    requires Inv(s) && Enabled(s, HaltEvent(ctx))
    ensures Inv(Step(s, HaltEvent(ctx))) && View(Step(s, HaltEvent(ctx))) == View(s)
  {
    StepKeepsInv(s, HaltEvent(ctx));
    HaltIsDefined(s);
    if s.activePid[s.scheduled] < MAX_TERMINALS {
      BaseShellKeepsPid(s);
      SpawnKeepsScreens(DropBaseShell(s), s.scheduled, ctx);
      assert s.inited == s.inited[s.active := true];
    }
  }

  lemma StoreStepRefines(s: KState, addr: nat, b: byte)
    requires Inv(s) && Enabled(s, StoreEvent(addr, b))
    ensures View(s).Wf() && Wf(Store(s, true, addr, b))
    ensures View(Store(s, true, addr, b)) == DeskStep(View(s), StoreEvent(addr, b))
  {
    TopsKnowTheirPid(ProcsOf(s), ChainsOf(s));
    UserStoreRefines(s, addr, b);
  }

  /** One event of the kernel is one event of the desk. */
  lemma StepRefines(s: KState, e: Event)
    requires Inv(s) && Enabled(s, e)
    ensures View(s).Wf() && Inv(Step(s, e)) && View(Step(s, e)) == DeskStep(View(s), e)
  {
    ViewIsWf(s);
    StepKeepsInv(s, e);
    match e
    case TickEvent(ctx) => TickRefines(s, ctx);
    case SwitchEvent(target, ctx) => SwitchRefines(s, target, ctx);
    case ExecuteEvent(runnable, ctx) => ExecuteRefines(s, runnable, ctx);
    case HaltEvent(ctx) => HaltRefines(s, ctx);
    case StoreEvent(addr, b) => StoreStepRefines(s, addr, b);
    case VideoEvent(off, b) => KernelStoreRefines(s, off, b);
    case CursorEvent(x, y) => CursorOnly(s, Truncated(Cursor(x, y)));
    case PutcEvent(c) => PutcRefines(s, c);
    case ClearEvent => KeysRefine(s);
    case BackspaceEvent => KeysRefine(s);
  }

  // ---------------------------------------------------------------- whole runs

  ghost function DeskRun(d: Desk, es: seq<Event>): Desk
    requires d.Wf()
    decreases |es|
  {
    if es == [] then d
    else
      var d' := DeskStep(d, es[0]);
      if d'.Wf() then DeskRun(d', es[1..]) else d'
  }

  /** Over every run, the kernel is the desk with one private screen per terminal. */
  lemma {:induction false} RunRefines(s: KState, es: seq<Event>)
    requires Inv(s) && Runnable(s, es)
    ensures View(s).Wf() && View(Run(s, es)) == DeskRun(View(s), es)
    decreases |es|
  {
    ViewIsWf(s);
    if es != [] {
      StepRefines(s, es[0]);
      ViewIsWf(Step(s, es[0]));
      RunRefines(Step(s, es[0]), es[1..]);
    }
  }

  /**
    Isolation: what user code can reach while its terminal is scheduled is the program page of that
    terminal's process and the page the video pages are mapped to, and nothing else. That page is the
    terminal's screen, or the backing frame of the terminal shown, which is on no screen.
   */
  lemma UserReachesOwnPagesOnly(s: KState, phys: nat)
    requires Inv(s) && Coherent(s)
    ensures var video, base := s.tables.table[VIDEO_MEMORY_PAGE].frame, PhysFrame(s.activePid[s.scheduled]) * ALIGN_4KB;
      && ((exists addr: nat :: addr < 0x1_0000_0000 && Translate(s.tables, addr) == Mapped(phys, true))
          <==> base <= phys < base + FOUR_MB || phys / ALIGN_4KB == video)
      && (video == ScreenFrame(s, s.scheduled) || video == TERMINAL_FRAME + s.active)
  {
    var p, video := s.activePid[s.scheduled], s.tables.table[VIDEO_MEMORY_PAGE].frame;
    TopsKnowTheirPid(ProcsOf(s), ChainsOf(s));
    PidsAreDisjoint(p, p, phys);
    forall addr: nat | addr < 0x1_0000_0000
      ensures Translate(s.tables, addr) == MemoryMap(PhysFrame(p), video, video, addr)
    {
      TranslateIsMemoryMap(s.tables, PhysFrame(p), video, video, addr);
    }
    var base := PhysFrame(p) * ALIGN_4KB;
    if base <= phys < base + FOUR_MB {
      assert Translate(s.tables, PROGRAM_BASE + (phys - base)) == Mapped(phys, true);
    }
    if phys / ALIGN_4KB == video {
      assert Translate(s.tables, VIDMAP_BASE + phys % ALIGN_4KB) == Mapped(phys, true);
    }
  }

  /**
    Where a print goes: to the screen of the scheduled terminal exactly when the video page is
    mapped to it. Between Ctrl-L or a backspace in the scheduled terminal and the next tick it is
    not, and a character printed then ends up on a page no terminal shows.
   */
  lemma PrintNeedsMapping(s: KState, c: byte)
    requires Sound(s) && CellInPage(s.cursor) && !IsNewline(c)
    requires Drawn(ScreenOf(s, s.scheduled), s.cursor, c) != ScreenOf(s, s.scheduled)
    ensures Wf(Putc(s, c))
    ensures ScreenOf(Putc(s, c), s.scheduled) == Drawn(ScreenOf(s, s.scheduled), s.cursor, c) <==> ScreenMapped(s)
  {
    PutcRefines(s, c);
    assert ScreenOf(s, s.scheduled) == View(s).screens[s.scheduled];
    assert ScreenOf(Putc(s, c), s.scheduled) == View(Putc(s, c)).screens[s.scheduled];
  }
}
