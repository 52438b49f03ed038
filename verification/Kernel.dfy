/**
  The kernel's global variables as one object, and the functions of scheduler.c, system_calls.c
  and terminal.c that update them in place. Each method does to the fields what its counterpart in
  KernelState does to the state, so every theorem about runs of those steps is about these methods.
 */
module Kernel {
  import opened Bytes
  import opened Paging
  import opened KernelState
  import opened ProcessForest
  import opened KernelInvariant
  import RoundRobin

  class Kernel {
    var active: nat
    var scheduled: nat
    var firstSwap: bool
    var cursor: Cursor
    var current: Option<nat>
    var esp0: int
    var mem: map<nat, Page>
    const inited: array<bool>
    const activePid: array<nat>
    const saved: array<Cursor>
    const pcbs: array<Pcb>
    const dir: array<Pde>
    const table: array<Pte>
    const vmem: array<Pte>
    const tableFrame: nat
    const vmemFrame: nat

    ghost predicate Valid()
      reads this, inited, activePid, saved, pcbs, dir, table, vmem
    {
      table != vmem && Wf(State())
    }

    ghost function State(): KState
      reads this, inited, activePid, saved, pcbs, dir, table, vmem
    {
      KState(active, scheduled, firstSwap, inited[..], activePid[..], saved[..], cursor, pcbs[..], current, esp0,
             Tables(dir[..], table[..], vmem[..], tableFrame, vmemFrame), mem)
    }

    ghost function Repr(): set<object> {
      {this, inited, activePid, saved, pcbs, dir, table, vmem}
    }

    /**
      Booting: paging is set up, nothing is in use, and the first shell is executed in terminal 0.
      The page tables are static arrays, in the given frames. The PCBs lie in memory the kernel has
      not written yet; only that none of them happens to be marked in use is assumed.
     */
    constructor (dir: array<Pde>, table: array<Pte>, vmem: array<Pte>, tableFrame: nat, vmemFrame: nat,
                 pcbs: array<Pcb>, screens: map<nat, Page>, ctx: Context)
      requires dir.Length == PAGE_VEC && table.Length == PAGE_VEC && vmem.Length == PAGE_VEC
      requires table != vmem && tableFrame != vmemFrame
      requires pcbs.Length == NUM_PIDS && forall p :: 0 <= p < NUM_PIDS ==> !pcbs[p].inUse
      requires HoldsScreens(screens)
      modifies dir, table, vmem, pcbs
      ensures this.dir == dir && this.table == table && this.vmem == vmem && this.pcbs == pcbs
      ensures fresh(inited) && fresh(activePid) && fresh(saved)
      ensures Booted(ctx)
    {
      active, scheduled, firstSwap := 0, 0, true;
      cursor, current, esp0, mem := Cursor(0, 0), None, EIGHT_MB, screens;
      inited := new bool[MAX_TERMINALS](_ => false);
      activePid := new nat[MAX_TERMINALS](_ => 0);
      saved := new Cursor[MAX_TERMINALS](_ => Cursor(0, 0));
      this.pcbs, this.dir, this.table, this.vmem := pcbs, dir, table, vmem;
      this.tableFrame, this.vmemFrame := tableFrame, vmemFrame;
      new;
      Boot(ctx);
    }

    /** Nothing is in use yet. */
    ghost predicate Unused()
      reads this, inited, activePid, saved, pcbs, dir, table, vmem
    {
      && Valid() && tableFrame != vmemFrame && active == 0 && scheduled == 0
      && (forall t :: 0 <= t < MAX_TERMINALS ==> !inited[t]) && forall p :: 0 <= p < NUM_PIDS ==> !pcbs[p].inUse
    }

    /** The first shell is about to run in terminal 0, started from the context ctx. */
    ghost predicate Booted(ctx: Context)
      reads this, inited, activePid, saved, pcbs, dir, table, vmem
    {
      && Valid() && Inv(State()) && Settled(State()) && active == scheduled == 0
      && current == Some(0) && pcbs[0].caller == ctx && ChainsOf(State()) == [[0], [], []]
    }

    /** The first two things the kernel does: paging, and a shell. */
    method Boot(ctx: Context)
      requires Unused()
      modifies Repr()
      ensures Booted(ctx)
    {
      InitPaging(dir, table, vmem, tableFrame, vmemFrame);
      FirstShellIsGood(State(), ctx);
      var _ := this.Execute(true, ctx);
    }

    /** get_pid: the first pid whose PCB is not in use. */
    method GetPid() returns (pid: int)
      requires pcbs.Length == NUM_PIDS
      ensures pid == FirstFree(pcbs[..], 0)
    {
      pid := 0;
      while pid < NUM_PIDS
        invariant 0 <= pid <= NUM_PIDS
        invariant FirstFree(pcbs[..], pid) == FirstFree(pcbs[..], 0)
      {
        if !pcbs[pid].inUse {
          return;
        }
        pid := pid + 1;
      }
      pid := -1;
    }

    method RemapVideo(frame: nat)
      requires Valid()
      modifies table, vmem
      ensures Valid() && State() == Remap(old(State()), frame)
    {
      table[VIDEO_MEMORY_PAGE] := table[VIDEO_MEMORY_PAGE].(frame := frame);
      vmem[VIDMAP_VMEM_LOC_PAGE] := vmem[VIDMAP_VMEM_LOC_PAGE].(frame := frame);
    }

    method MapProgram(pid: nat)
      requires Valid()
      modifies dir
      ensures Valid() && State() == LoadProgram(old(State()), pid)
    {
      dir[USER_SPACE_DIR_NUM] := dir[USER_SPACE_DIR_NUM].(frame := PhysFrame(pid));
    }

    /** memcpy of a page, between two pages of the kernel's address space. */
    method MemcpyPage(dest: nat, src: nat)
      requires Valid() && dest < PAGE_VEC && src < PAGE_VEC
      requires table[dest].frame in mem && table[src].frame in mem
      modifies this`mem
      ensures Valid() && State() == CopyPage(old(State()), dest, src)
    {
      mem := mem[table[dest].frame := mem[table[src].frame]];
    }

    /** terminal_switch. */
    method TerminalSwitch(target: nat, ctx: Context)
      requires Valid() && Sound(State()) && target < MAX_TERMINALS
      modifies Repr()
      ensures Valid() && State() == Switch(old(State()), target, ctx)
    {
      if active == target {
        return;
      }
      BackingPages(State().tables, active, target);
      MoveScreens(target);
      StartShell(ctx);
    }

    /** A shell on the first use of the terminal shown. */
    method StartShell(ctx: Context)
      requires Valid()
      modifies Repr()
      ensures Valid() && State() == WithShell(old(State()), ctx)
    {
      if !inited[active] {
        var _ := this.Execute(true, ctx);
      }
    }

    /** The copying and remapping in terminal_switch. */
    method MoveScreens(target: nat)
      requires Valid() && CanCopy(State(), target)
      modifies this`mem, this`active, table, vmem
      ensures Valid() && State() == SwitchScreens(old(State()), target)
    {
      CopyScreens(target);
      PointAtScheduled(target);
      active := target;
    }

    /** The two copies, made through the page of the screen itself. */
    method CopyScreens(target: nat)
      requires Valid() && CanCopy(State(), target)
      modifies this`mem, table, vmem
      ensures Valid() && State() == FramesCopied(AtScreen(old(State())), target)
    {
      PointAtScreen();
      CopyFrames(target);
    }

    method PointAtScreen()
      requires Valid()
      modifies table, vmem
      ensures Valid() && State() == AtScreen(old(State()))
    {
      if active != scheduled {
        RemapVideo(VIDEO_FRAME);
      }
    }

    method CopyFrames(target: nat)
      requires Valid() && CanCopy(State(), target)
      modifies this`mem
      ensures Valid() && State() == FramesCopied(old(State()), target)
    {
      MemcpyPage(TERMINAL_VID_PAGE + active, VIDEO_MEMORY_PAGE);
      MemcpyPage(VIDEO_MEMORY_PAGE, TERMINAL_VID_PAGE + target);
    }

    method PointAtScheduled(target: nat)
      requires Valid()
      modifies table, vmem
      ensures Valid() && State() == AtScheduled(old(State()), target)
    {
      if target != scheduled {
        RemapVideo(TERMINAL_FRAME + scheduled);
      }
    }

    /** scheduler, interrupting the context ctx; resume is the context it continues in. */
    method Scheduler(ctx: Context) returns (resume: Context)
      requires Valid() && RoundRobin.SomeInitialized(inited[..])
      requires current.Some? && current.value < NUM_PIDS
      requires forall t :: 0 <= t < MAX_TERMINALS && inited[t] ==> pcbs[activePid[t]].pid >= 0
      modifies Repr()
      ensures Valid() && State() == Tick(old(State()), ctx)
      ensures current.Some? && current.value < NUM_PIDS && resume == pcbs[current.value].suspended
    {
      SaveCurrent(ctx);
      var next := RoundRobin.FindNext(inited[..], scheduled);
      ContextSwitch(next);
      resume := pcbs[current.value].suspended;
    }

    /** The first half of scheduler: the interrupted context and the cursor are saved. */
    method SaveCurrent(ctx: Context)
      requires Valid() && current.Some? && current.value < NUM_PIDS
      modifies this`scheduled, this`firstSwap, pcbs, saved
      ensures Valid()
      ensures var s := old(State());
              var from := if s.firstSwap then 0 else s.scheduled;
              State() == s.(firstSwap := false, scheduled := from, saved := s.saved[from := s.cursor],
                            pcbs := s.pcbs[s.current.value := s.pcbs[s.current.value].(suspended := ctx)])
    {
      if firstSwap {
        scheduled := 0;
        firstSwap := false;
      }
      pcbs[current.value] := pcbs[current.value].(suspended := ctx);
      saved[scheduled] := cursor;
    }

    /** The second half of scheduler: the process of terminal next gets the machine. */
    method ContextSwitch(next: nat)
      requires Valid() && next < MAX_TERMINALS && pcbs[activePid[next]].pid >= 0
      modifies this`scheduled, this`current, this`esp0, this`cursor, dir, table, vmem
      ensures Valid()
      ensures var s, pid := old(State()), old(pcbs[activePid[next]].pid);
              State() == s.(scheduled := next, current := Some(s.activePid[next]), esp0 := KernelStackTop(pid),
                            tables := VideoTables(ProgramTables(s.tables, pid),
                                                  if next == s.active then VIDEO_FRAME else TERMINAL_FRAME + next),
                            cursor := Truncated(s.saved[next]))
    {
      scheduled := next;
      current := Some(activePid[scheduled]);
      esp0 := EIGHT_MB - EIGHT_KB * pcbs[current.value].pid - 4;
      MapProgram(pcbs[current.value].pid);
      MapScreen();
      cursor := Truncated(saved[scheduled]);
    }

    method MapScreen()
      requires Valid()
      modifies table, vmem
      ensures Valid()
      ensures State() == Remap(old(State()), if scheduled == active then VIDEO_FRAME else TERMINAL_FRAME + scheduled)
    {
      if scheduled == active {
        RemapVideo(VIDEO_FRAME);
      } else {
        RemapVideo(TERMINAL_FRAME + scheduled);
      }
    }

    /** execute, from the context ctx; runnable says whether the command names an executable. */
    method Execute(runnable: bool, ctx: Context) returns (ok: bool)
      requires Valid()
      modifies Repr()
      ensures Valid() && State() == KernelState.Execute(old(State()), runnable, ctx)
      ensures ok <==> runnable && ChosenPid(old(State())) != -1
    {
      if !runnable {
        return false;
      }
      var pid: int := active;
      if inited[active] {
        pid := GetPid();
      }
      if pid == -1 {
        return false;
      }
      Start(pid, ctx);
      return true;
    }

    /** execute from where the pid is known: page, PCB, kernel stack, and the terminal's entry. */
    method Start(pid: nat, ctx: Context)
      requires Valid() && pid < NUM_PIDS
      modifies Repr()
      ensures Valid() && State() == Spawn(old(State()), pid, ctx)
    {
      MapProgram(pid);
      FillPcb(pid, ctx);
      MakeCurrent(pid);
    }

    method MakeCurrent(pid: nat)
      requires Valid() && pid < NUM_PIDS
      modifies this`active, this`esp0, this`current, activePid, inited
      ensures Valid() && State() == MadeCurrent(old(State()), pid)
    {
      if pid == 0 {
        active := 0;
      }
      esp0 := EIGHT_MB - EIGHT_KB * pid - 4;
      current := Some(pid);
      activePid[active] := pid;
      inited[active] := true;
    }

    method FillPcb(pid: nat, ctx: Context)
      requires Valid() && pid < NUM_PIDS
      modifies pcbs
      ensures Valid()
      ensures var s := old(State()); State() == s.(pcbs := SpawnPcbs(s.pcbs, pid, s.activePid[s.active], ctx))
    {
      pcbs[pid] := pcbs[pid].(inUse := true, pid := pid, caller := ctx);
      if pid < MAX_TERMINALS {
        if pid == 0 {
          pcbs[1] := InUse(pcbs[1]);
          pcbs[2] := InUse(pcbs[2]);
        }
        pcbs[pid] := pcbs[pid].(parent := -1);
      } else {
        pcbs[pid] := pcbs[pid].(parent := activePid[active]);
      }
    }

    /**
      halt. For a process that was executed by another, ret and resume are what that execute call
      returns and where; a base shell is replaced, from the context ctx, and never returns.
     */
    method Halt(status: byte, exceptionInChild: bool, ctx: Context) returns (ret: int, resume: Context)
      requires Valid() && current.Some? && current.value < NUM_PIDS
      requires var p := pcbs[current.value];
               p.pid >= MAX_TERMINALS ==>
                 0 <= p.parent < NUM_PIDS && 0 <= pcbs[p.parent].pid < NUM_PIDS && p.parent != current.value
      modifies Repr()
      ensures Valid() && State() == KernelState.Halt(old(State()), ctx)
      ensures ret == (if exceptionInChild then 256 else status) && resume == old(pcbs[current.value].caller)
    {
      ghost var s := State();
      var p := current.value;
      resume := pcbs[p].caller;
      ret := if exceptionInChild then 256 else status;
      if pcbs[p].pid < MAX_TERMINALS {
        var pid := pcbs[p].pid;
        pcbs[p] := Pcb(false, 0, 0, Context(0, 0), pcbs[p].suspended);
        current := None;
        esp0 := EIGHT_MB - EIGHT_KB * pid - 4;
        assert State() == DropBaseShell(s);
        var _ := this.Execute(true, ctx);
      } else {
        GoToParent();
      }
    }

    /** The end of halt for a process that has a parent. */
    method GoToParent()
      requires Valid() && current.Some? && current.value < NUM_PIDS
      requires var q := pcbs[current.value].parent;
               0 <= q < NUM_PIDS && 0 <= pcbs[q].pid < NUM_PIDS && q != current.value
      modifies Repr()
      ensures Valid() && State() == ReturnToParent(old(State()))
    {
      var p := current.value;
      var parent := pcbs[p].parent;
      esp0 := EIGHT_MB - EIGHT_KB * parent - 4;
      pcbs[p] := Pcb(false, 0, 0, Context(0, 0), pcbs[p].suspended);
      MapProgram(pcbs[parent].pid);
      current := Some(parent);
      activePid[scheduled] := pcbs[parent].pid;
    }

    /** clear_terminal, on the screen and the mappings. */
    method ClearTerminal()
      requires Valid()
      modifies this`mem, this`cursor, table, vmem
      ensures Valid() && State() == Clear(old(State()))
    {
      RemapVideo(VIDEO_FRAME);
      mem := mem[table[VIDEO_MEMORY_PAGE].frame := Cleared(mem[table[VIDEO_MEMORY_PAGE].frame])];
      cursor := Cursor(0, 0);
      RemapVideo(TERMINAL_FRAME + scheduled);
      RemapTwice(old(State().tables), VIDEO_FRAME, TERMINAL_FRAME + scheduled);
    }

    /** The backspace branch of update_kb_buffer, on the screen and the mappings. */
    method EraseCharacter()
      requires Valid() && CellBeforeInPage(Truncated(saved[active]))
      modifies this`mem, this`cursor, table, vmem
      ensures Valid() && State() == Backspace(old(State()))
    {
      RemapVideo(VIDEO_FRAME);
      var frame := table[VIDEO_MEMORY_PAGE].frame;
      mem := mem[frame := Erased(mem[frame], Truncated(saved[active]))];
      RemapVideo(TERMINAL_FRAME + scheduled);
      cursor := Truncated(saved[scheduled]);
      RemapTwice(old(State().tables), VIDEO_FRAME, TERMINAL_FRAME + scheduled);
    }

    /** A byte written to a linear address, through the page tables. */
    method StoreByte(asUser: bool, addr: nat, b: byte)
      requires Valid() && addr < 0x1_0000_0000
      modifies this`mem
      ensures Valid() && State() == Store(old(State()), asUser, addr, b)
    {
      var walk := Translate(Tables(dir[..], table[..], vmem[..], tableFrame, vmemFrame), addr);
      if walk.Mapped? && (walk.user || !asUser) && walk.phys / ALIGN_4KB in mem {
        var f := walk.phys / ALIGN_4KB;
        mem := mem[f := mem[f][walk.phys % ALIGN_4KB := b]];
      }
    }

    /** set_cursor, whose parameters have eight bits. */
    method SetTheCursor(x: int, y: int)
      requires Valid()
      modifies this`cursor
      ensures Valid() && State() == SetCursor(old(State()), x, y)
    {
      cursor := Cursor(x % 256, y % 256);
    }

    /** putc, unless it faults. */
    method Putc(c: byte)
      requires Valid() && CanPut(cursor, c)
      modifies this`mem, this`cursor
      ensures Valid() && State() == KernelState.Putc(old(State()), c)
    {
      if IsNewline(c) {
        cursor := Cursor(0, cursor.y + 1);
      } else {
        StoreCell(CellAt(cursor), c);
        MoveOn(c);
      }
    }

    method StoreCell(at: nat, c: byte)
      requires Valid() && at + 2 <= ALIGN_4KB
      modifies this`mem
      ensures Valid() && State() == DrawCell(old(State()), at, c)
    {
      StoreByte(false, VIDEO + at, c);
      StoreByte(false, VIDEO + at + 1, ATTRIB);
    }

    method MoveOn(ghost c: byte)
      requires Valid() && !IsNewline(c)
      modifies this`cursor
      ensures Valid() && State() == old(State()).(cursor := Moved(old(cursor), c))
    {
      var x := cursor.x + 1;
      cursor := Cursor(x % NUM_COLS, (cursor.y + x / NUM_COLS) % NUM_ROWS);
    }
  }

  lemma RemapTwice(t: Tables, f: nat, g: nat)
    requires t.Wf()
    ensures VideoTables(VideoTables(t, f), g) == VideoTables(t, g)
  {
  }

  /** The state in which the kernel executes its first program leads to a good one. */
  lemma FirstShellIsGood(s: KState, ctx: Context)
    requires Wf(s) && s.active == 0 && s.scheduled == 0
    requires (forall t :: 0 <= t < MAX_TERMINALS ==> !s.inited[t])
              && (forall p :: 0 <= p < NUM_PIDS ==> !s.pcbs[p].inUse)
    requires Shaped(s.tables, PhysFrame(0), VIDEO_FRAME, VIDEO_FRAME)
    ensures var r := Execute(s, true, ctx);
            && Inv(r) && Settled(r) && ChainsOf(r) == [[0], [], []]
            && r.active == r.scheduled == 0 && r.current == Some(0) && r.pcbs[0].caller == ctx
  {
    var r := Spawn(s, 0, ctx);
    LoadProgramKeepsPages(s.tables, 0);
    assert Forest(ProcsOf(r), [[0], [], []]);
    ChainsAre(r, [[0], [], []]);
  }
}
