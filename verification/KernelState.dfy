/**
  The state shared by the scheduler, execute, halt, terminal switching and the console, and
  what each of those operations does to it, as functions from state to state. The class Kernel
  carries these operations out on its fields; KernelInvariant and the modules after it prove
  properties of all their interleavings.
 */
module KernelState {
  import opened Bytes
  import opened Paging
  import RoundRobin

  const NUM_COLS := 80
  const NUM_ROWS := 25
  const ATTRIB: byte := 7

  /** A stack and frame pointer pair; the kernel only stores and reloads them. */
  datatype Context = Context(esp: int, ebp: int)

  /**
    A process control block. caller is the context execute saved for halt to return to;
    suspended is the one the scheduler saved.
   */
  datatype Pcb = Pcb(inUse: bool, pid: int, parent: int, caller: Context, suspended: Context)

  datatype Cursor = Cursor(x: int, y: int)

  /** set_cursor takes its arguments as 8-bit values. */
  function Truncated(c: Cursor): Cursor { Cursor(c.x % 256, c.y % 256) }

  type Page = p: seq<byte> | |p| == ALIGN_4KB witness seq(ALIGN_4KB, i => 0)

  datatype KState = KState(
    active: nat,              // the terminal shown on the screen
    scheduled: nat,           // the terminal whose process is running
    firstSwap: bool,
    inited: seq<bool>,
    activePid: seq<nat>,      // terminals[].active_pid
    saved: seq<Cursor>,       // terminals[].terminal_screen_x, terminal_screen_y
    cursor: Cursor,           // screen_x, screen_y
    pcbs: seq<Pcb>,           // the PCB of each pid, at PcbAddress(pid)
    current: Option<nat>,     // current_pcb, as the slot it points to
    esp0: int,                // tss.esp0
    tables: Tables,
    mem: map<nat, Page>)      // the physical frames that hold screens

  ghost predicate Wf(s: KState) {
    && s.active < MAX_TERMINALS && s.scheduled < MAX_TERMINALS
    && |s.inited| == |s.activePid| == |s.saved| == MAX_TERMINALS
    && (forall t :: 0 <= t < MAX_TERMINALS ==> s.activePid[t] < NUM_PIDS)
    && |s.pcbs| == NUM_PIDS
    && s.tables.Wf()
    && HoldsScreens(s.mem)
  }

  /** The physical frames that hold screens: the one shown, and a backing frame for each terminal. */
  predicate IsScreenFrame(f: nat) { f == VIDEO_FRAME || TERMINAL_FRAME <= f < TERMINAL_FRAME + MAX_TERMINALS }

  ghost predicate HoldsScreens(mem: map<nat, Page>) { forall f: nat :: f in mem <==> IsScreenFrame(f) }

  // ---------------------------------------------------------------- memory

  /** The frame through which the kernel reaches a page of its low 4 MB. */
  function FrameOf(s: KState, page: nat): nat
    requires Wf(s) && page < PAGE_VEC
  {
    s.tables.table[page].frame
  }

  /** memcpy of one whole page between two kernel pages. */
  ghost function CopyPage(s: KState, dest: nat, src: nat): (r: KState)
    requires Wf(s) && dest < PAGE_VEC && src < PAGE_VEC && FrameOf(s, dest) in s.mem && FrameOf(s, src) in s.mem
    ensures Wf(r)
  {
    s.(mem := s.mem[FrameOf(s, dest) := s.mem[FrameOf(s, src)]])
  }

  /** The tables with the kernel's and the user's video page pointed at a frame. */
  function VideoTables(t: Tables, frame: nat): Tables
    requires t.Wf()
  {
    t.(table := t.table[VIDEO_MEMORY_PAGE := t.table[VIDEO_MEMORY_PAGE].(frame := frame)],
       vmem := t.vmem[VIDMAP_VMEM_LOC_PAGE := t.vmem[VIDMAP_VMEM_LOC_PAGE].(frame := frame)])
  }

  /** The tables with the user's 4 MB program page pointed at the program of pid. */
  function ProgramTables(t: Tables, pid: nat): Tables
    requires t.Wf()
  {
    t.(dir := t.dir[USER_SPACE_DIR_NUM := t.dir[USER_SPACE_DIR_NUM].(frame := PhysFrame(pid))])
  }

  function Remap(s: KState, frame: nat): KState
    requires s.tables.Wf()
  {
    s.(tables := VideoTables(s.tables, frame))
  }

  function LoadProgram(s: KState, pid: nat): KState
    requires s.tables.Wf()
  {
    s.(tables := ProgramTables(s.tables, pid))
  }

  /**
    One byte written to a linear address, as user code does it or as the kernel does it. Only
    the screen frames are part of the state; a write that faults changes nothing here.
   */
  ghost function Store(s: KState, asUser: bool, addr: nat, b: byte): KState
    requires Wf(s) && addr < 0x1_0000_0000
  {
    match Translate(s.tables, addr)
    case Fault => s
    case Mapped(phys, user) =>
      var f := phys / ALIGN_4KB;
      if (asUser && !user) || f !in s.mem then s
      else s.(mem := s.mem[f := s.mem[f][phys % ALIGN_4KB := b]])
  }

  const VIDEO := 0xB_8000

  /** A character and its attribute, stored at an offset from the start of the video page. */
  ghost function DrawCell(s: KState, at: nat, c: byte): KState
    requires Wf(s) && VIDEO + at + 2 <= FOUR_MB
  {
    Store(Store(s, false, VIDEO + at, c), false, VIDEO + at + 1, ATTRIB)
  }

  /** A character cell drawn at the cursor. */
  function Drawn(p: Page, cur: Cursor, c: byte): Page
    requires CellInPage(cur)
  {
    var at := CellAt(cur);
    p[at := c][at + 1 := ATTRIB]
  }

  /** Where the cursor goes after a character. */
  function Moved(cur: Cursor, c: byte): Cursor {
    if IsNewline(c) then Cursor(0, cur.y + 1)
    else Cursor((cur.x + 1) % NUM_COLS, (cur.y + (cur.x + 1) / NUM_COLS) % NUM_ROWS)
  }

  /** putc can print a character: a newline anywhere, any other if its cell lies in the video page. */
  predicate CanPut(cur: Cursor, c: byte) { IsNewline(c) || CellInPage(cur) }

  predicate IsNewline(c: byte) { c == NEWLINE || c == 13 }

  /** putc, unless it faults. */
  ghost function Putc(s: KState, c: byte): KState
    requires Wf(s) && CanPut(s.cursor, c)
  {
    var drawn := if IsNewline(c) then s else DrawCell(s, CellAt(s.cursor), c);
    drawn.(cursor := Moved(s.cursor, c))
  }

  /** The offset of a cell in the video page; it may lie below the 25 rows of the screen. */
  function CellAt(c: Cursor): (at: nat)
    requires CellInPage(c)
    ensures at + 2 <= ALIGN_4KB
  {
    2 * (NUM_COLS * c.y + c.x)
  }

  predicate CellInPage(c: Cursor) { 0 <= c.x && 0 <= c.y && 2 * (NUM_COLS * c.y + c.x) + 2 <= ALIGN_4KB }

  /** The cell before the cursor, if there is one, lies in the video page. */
  predicate CellBeforeInPage(c: Cursor) { 0 <= c.x && 0 <= c.y && 2 * (NUM_COLS * c.y + c.x) <= ALIGN_4KB }

  /** set_cursor. */
  function SetCursor(s: KState, x: int, y: int): KState { s.(cursor := Truncated(Cursor(x, y))) }

  // ---------------------------------------------------------------- scheduler.c

  /** The video page pointed at the physical screen, as terminal_switch takes care of before it copies. */
  ghost function AtScreen(s: KState): (r: KState)
    requires Wf(s)
    ensures Wf(r) && forall target :: CanCopy(s, target) ==> CanCopy(r, target)
  {
    if s.active != s.scheduled then Remap(s, VIDEO_FRAME) else s
  }

  /** Both copies can be made: the pages they use are mapped to frames that hold screens. */
  ghost predicate CanCopy(s: KState, target: nat) {
    && Wf(s) && target < MAX_TERMINALS && FrameOf(s, VIDEO_MEMORY_PAGE) in s.mem
    && FrameOf(s, TERMINAL_VID_PAGE + s.active) in s.mem && FrameOf(s, TERMINAL_VID_PAGE + target) in s.mem
  }

  /** The screen copied to the backing frame of the terminal shown, and the target's to the screen. */
  ghost function FramesCopied(s: KState, target: nat): (r: KState)
    requires CanCopy(s, target)
    ensures Wf(r)
  {
    var r := CopyPage(s, TERMINAL_VID_PAGE + s.active, VIDEO_MEMORY_PAGE);
    CopyPage(r, VIDEO_MEMORY_PAGE, TERMINAL_VID_PAGE + target)
  }

  /** The video page pointed at the scheduled terminal's backing frame, if another terminal is to be shown. */
  function AtScheduled(s: KState, target: nat): KState
    requires s.tables.Wf()
  {
    if target != s.scheduled then Remap(s, TERMINAL_FRAME + s.scheduled) else s
  }

  /** The frame copying and remapping of terminal_switch, for a target that is not yet active. */
  ghost function SwitchScreens(s: KState, target: nat): (r: KState)
    requires CanCopy(s, target)
    ensures Wf(r) && r.active == target && r.inited == s.inited
  {
    AtScheduled(FramesCopied(AtScreen(s), target), target).(active := target)
  }

  /** scheduler(): ctx is the interrupted context, saved in the current PCB. */
  ghost function Tick(s: KState, ctx: Context): KState
    requires Wf(s) && RoundRobin.SomeInitialized(s.inited)
    requires s.current.Some? && s.current.value < NUM_PIDS
  {
    var from := if s.firstSwap then 0 else s.scheduled;
    var next := RoundRobin.Next(s.inited, from);
    var pcbs := s.pcbs[s.current.value := s.pcbs[s.current.value].(suspended := ctx)];
    var saved := s.saved[from := s.cursor];
    var pid := pcbs[s.activePid[next]].pid;
    var s1 := s.(firstSwap := false, scheduled := next, pcbs := pcbs, saved := saved,
                 current := Some(s.activePid[next]), esp0 := KernelStackTop(pid),
                 cursor := Truncated(saved[next]));
    var s2 := if pid >= 0 then LoadProgram(s1, pid) else s1;
    Remap(s2, if next == s.active then VIDEO_FRAME else TERMINAL_FRAME + next)
  }

  // ---------------------------------------------------------------- system_calls.c

  /** get_pid: the least pid from i on whose PCB is not in use, or -1. */
  function FirstFree(pcbs: seq<Pcb>, i: nat): (r: int)
    requires i <= |pcbs|
    ensures r == -1 || i <= r < |pcbs|
    ensures r == -1 <==> forall k :: i <= k < |pcbs| ==> pcbs[k].inUse
    ensures r >= 0 ==> !pcbs[r].inUse && forall k :: i <= k < r ==> pcbs[k].inUse
    decreases |pcbs| - i
  {
    if i == |pcbs| then -1 else if !pcbs[i].inUse then i else FirstFree(pcbs, i + 1)
  }

  function InUse(p: Pcb): Pcb { p.(inUse := true) }

  /** execute, once the program has been found and pid chosen. */
  ghost function Spawn(s: KState, pid: nat, ctx: Context): KState
    requires Wf(s) && pid < NUM_PIDS
  {
    MadeCurrent(LoadProgram(s, pid).(pcbs := SpawnPcbs(s.pcbs, pid, s.activePid[s.active], ctx)), pid)
  }

  /** The end of execute: the new process is the current one, and the active one of the terminal shown. */
  function MadeCurrent(s: KState, pid: nat): KState
    requires s.active < |s.activePid| == |s.inited|
  {
    var active := if pid == 0 then 0 else s.active;
    s.(active := active, esp0 := KernelStackTop(pid), current := Some(pid),
       activePid := s.activePid[active := pid], inited := s.inited[active := true])
  }

  /** The PCBs after execute filled in that of pid; executing pid 0 also reserves the base slots. */
  function SpawnPcbs(pcbs: seq<Pcb>, pid: nat, over: nat, ctx: Context): (r: seq<Pcb>)
    requires |pcbs| == NUM_PIDS && pid < NUM_PIDS
    ensures |r| == NUM_PIDS
  {
    var parent: int := if pid < MAX_TERMINALS then -1 else over;
    var reserved := if pid == 0 then pcbs[1 := InUse(pcbs[1])][2 := InUse(pcbs[2])] else pcbs;
    reserved[pid := reserved[pid].(inUse := true, pid := pid, parent := parent, caller := ctx)]
  }

  /** The pid execute gives to a program it can run, or -1. */
  function ChosenPid(s: KState): int
    requires s.active < |s.inited|
  {
    if !s.inited[s.active] then s.active else FirstFree(s.pcbs, 0)
  }

  /** execute; runnable says whether the command names an executable file. */
  ghost function Execute(s: KState, runnable: bool, ctx: Context): KState
    requires Wf(s)
  {
    if !runnable || ChosenPid(s) == -1 then s else Spawn(s, ChosenPid(s), ctx)
  }

  /** halt of a process that is not a base shell: control goes back to its parent. */
  ghost function ReturnToParent(s: KState): KState
    requires Wf(s) && s.current.Some? && s.current.value < NUM_PIDS
    requires var q := s.pcbs[s.current.value].parent; 0 <= q < NUM_PIDS && 0 <= s.pcbs[q].pid < NUM_PIDS
  {
    var p := s.current.value;
    var q := s.pcbs[p].parent;
    var pcbs := s.pcbs[p := Pcb(false, 0, 0, Context(0, 0), s.pcbs[p].suspended)];
    LoadProgram(s, pcbs[q].pid).(
      pcbs := pcbs, esp0 := KernelStackTop(q), current := Some(q),
      activePid := s.activePid[s.scheduled := pcbs[q].pid])
  }

  /** halt of a base shell, up to the point where it executes a new shell. */
  ghost function DropBaseShell(s: KState): KState
    requires Wf(s) && s.current.Some? && s.current.value < NUM_PIDS
  {
    var p := s.current.value;
    s.(pcbs := s.pcbs[p := Pcb(false, 0, 0, Context(0, 0), s.pcbs[p].suspended)],
       current := None, esp0 := KernelStackTop(s.pcbs[p].pid))
  }

  /** halt; ctx is the context a replacement base shell is executed from. */
  ghost function Halt(s: KState, ctx: Context): KState
    requires Wf(s) && s.current.Some? && s.current.value < NUM_PIDS
    requires var p := s.pcbs[s.current.value];
             p.pid < MAX_TERMINALS
             || (0 <= p.parent < NUM_PIDS && 0 <= s.pcbs[p.parent].pid < NUM_PIDS && p.parent != s.current.value)
  {
    if s.pcbs[s.current.value].pid < MAX_TERMINALS then Execute(DropBaseShell(s), true, ctx)
    else ReturnToParent(s)
  }

  // ---------------------------------------------------------------- terminal.c

  /** clear(): every cell of the 80x25 screen blank; the rest of the page is left alone. */
  function Cleared(p: Page): Page {
    seq(ALIGN_4KB, i requires 0 <= i < ALIGN_4KB =>
      if i < 2 * NUM_COLS * NUM_ROWS then (if i % 2 == 0 then SPACE else ATTRIB) else p[i])
  }

  /** clear_terminal, on the screen and the mappings. */
  ghost function Clear(s: KState): KState
    requires Wf(s)
  {
    var s1 := s.(mem := s.mem[VIDEO_FRAME := Cleared(s.mem[VIDEO_FRAME])], cursor := Cursor(0, 0));
    Remap(s1, TERMINAL_FRAME + s.scheduled)
  }

  /** backspace_called, on the page shown: blank the cell before the cursor. */
  function Erased(p: Page, c: Cursor): Page
    requires CellBeforeInPage(c)
  {
    if c.x == 0 && c.y == 0 then p
    else
      var at := 2 * (NUM_COLS * c.y + c.x - 1);
      p[at := SPACE][at + 1 := ATTRIB]
  }

  /** The backspace branch of update_kb_buffer, on the screen and the mappings. */
  ghost function Backspace(s: KState): KState
    requires Wf(s) && CellBeforeInPage(Truncated(s.saved[s.active]))
  {
    var s1 := s.(mem := s.mem[VIDEO_FRAME := Erased(s.mem[VIDEO_FRAME], Truncated(s.saved[s.active]))]);
    Remap(s1, TERMINAL_FRAME + s.scheduled).(cursor := Truncated(s.saved[s.scheduled]))
  }
}
