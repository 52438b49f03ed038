/**
  What every reachable kernel state has in common, the interrupts and system calls that lead
  from one to the next, and the proof that each of them keeps it.
 */
module KernelInvariant {
  import opened Bytes
  import opened Paging
  import opened KernelState
  import opened ProcessForest
  import RoundRobin

  function ProcsOf(s: KState): Procs { Procs(s.inited, s.activePid, s.pcbs) }

  /** The physical frame that holds the screen of terminal t. */
  function ScreenFrame(s: KState, t: nat): nat {
    if t == s.active then VIDEO_FRAME else TERMINAL_FRAME + t
  }

  /** current_pcb, the user's program page and tss.esp0 are those of the scheduled terminal. */
  ghost predicate Coherent(s: KState)
    requires Wf(s)
  {
    var p := s.activePid[s.scheduled];
    && s.current == Some(p)
    && s.tables.dir[USER_SPACE_DIR_NUM].frame == PhysFrame(p)
    && IsStackTopOf(s.esp0, p)
  }

  /** Writes to video memory go to the screen of the scheduled terminal. */
  ghost predicate ScreenMapped(s: KState)
    requires Wf(s)
  {
    s.tables.table[VIDEO_MEMORY_PAGE].frame == ScreenFrame(s, s.scheduled)
  }

  /** The state the scheduler leaves behind. */
  ghost predicate Settled(s: KState)
    requires Wf(s)
  {
    Coherent(s) && ScreenMapped(s)
  }

  ghost predicate Sound(s: KState) {
    && Wf(s)
    && s.inited[0] && s.inited[s.active] && s.inited[s.scheduled]
    && (s.firstSwap ==> s.scheduled == 0)
    && s.current.Some? && s.current.value < NUM_PIDS
    && PagesOk(s.tables)
    && (s.tables.table[VIDEO_MEMORY_PAGE].frame == TERMINAL_FRAME + s.scheduled || ScreenMapped(s))
  }

  /** The tables have the shape init_paging gave them; both video pages show the same frame. */
  ghost predicate PagesOk(t: Tables)
    requires t.Wf()
  {
    var video := t.table[VIDEO_MEMORY_PAGE].frame;
    Shaped(t, t.dir[USER_SPACE_DIR_NUM].frame, video, video)
  }

  lemma RemapKeepsPages(t: Tables, frame: nat)
    requires t.Wf() && PagesOk(t)
    ensures var r := VideoTables(t, frame);
            && r.Wf() && PagesOk(r) && r.table[VIDEO_MEMORY_PAGE].frame == frame && r.dir == t.dir
            && forall i :: 0 <= i < PAGE_VEC && i != VIDEO_MEMORY_PAGE ==> r.table[i] == t.table[i]
  {
  }

  lemma LoadProgramKeepsPages(t: Tables, pid: nat)
    requires t.Wf() && PagesOk(t)
    ensures var r := ProgramTables(t, pid);
            r.Wf() && PagesOk(r) && r.table == t.table && r.dir[USER_SPACE_DIR_NUM].frame == PhysFrame(pid)
  {
  }

  lemma BackingPage(t: Tables, i: nat)
    requires t.Wf() && PagesOk(t) && i < MAX_TERMINALS
    ensures t.table[TERMINAL_VID_PAGE + i].frame == TERMINAL_FRAME + i
  {
  }

  ghost predicate Inv(s: KState) {
    Sound(s) && exists cs :: Forest(ProcsOf(s), cs)
  }

  /** Per terminal, the pids from its active process down to its base shell. */
  ghost function ChainsOf(s: KState): (cs: Chains)
    requires Inv(s)
    ensures Forest(ProcsOf(s), cs)
  {
    var cs :| Forest(ProcsOf(s), cs);
    cs
  }

  lemma ChainsAre(s: KState, cs: Chains)
    requires Sound(s) && Forest(ProcsOf(s), cs)
    ensures Inv(s) && ChainsOf(s) == cs
  {
    ForestIsUnique(ProcsOf(s), cs, ChainsOf(s));
  }

  lemma ChainsKept(s: KState, r: KState)
    requires Inv(s) && Sound(r) && s.inited == r.inited && s.activePid == r.activePid
    requires forall p :: 0 <= p < NUM_PIDS ==> SameLinks(s.pcbs[p], r.pcbs[p])
    ensures Inv(r) && ChainsOf(r) == ChainsOf(s)
  {
    ForestFramed(ProcsOf(s), ProcsOf(r), ChainsOf(s));
    ChainsAre(r, ChainsOf(s));
  }

  // ---------------------------------------------------------------- events

  datatype Event =
    | TickEvent(ctx: Context)                        // PIT interrupt, from context ctx
    | SwitchEvent(target: nat, ctx: Context)         // Alt-F1 .. Alt-F3
    | ExecuteEvent(runnable: bool, ctx: Context)     // execute by the running process
    | HaltEvent(ctx: Context)                        // halt by the running process
    | StoreEvent(addr: nat, b: byte)                 // the running process writes to memory
    | VideoEvent(off: nat, b: byte)                  // the kernel writes to its video page
    | CursorEvent(x: int, y: int)                    // the kernel sets the cursor
    | PutcEvent(c: byte)                             // the kernel prints for the running process
    | ClearEvent                                     // Ctrl-L
    | BackspaceEvent                                 // the backspace key

  /** terminal_switch, with the first shell of a terminal not yet in use. */
  ghost function Switch(s: KState, target: nat, ctx: Context): KState
    requires Sound(s) && target < MAX_TERMINALS
  {
    if s.active == target then s
    else
      BackingPages(s.tables, s.active, target);
      WithShell(SwitchScreens(s, target), ctx)
  }

  /** A shell started in the terminal shown, if it has none yet. */
  ghost function WithShell(s: KState, ctx: Context): KState
    requires Wf(s)
  {
    if s.inited[s.active] then s else Execute(s, true, ctx)
  }

  /**
    When an event may occur. Ticks and keys may occur at any time. What the running process does
    waits until the launch of a terminal has been followed by a tick. Starting a program, and halting
    a base shell, must be done in the terminal shown; see NeedsActiveTerminal below for what happens
    otherwise. A character printed or erased must lie in the video page, for the next page is not
    mapped.
   */
  ghost predicate Enabled(s: KState, e: Event)
    requires Inv(s)
  {
    match e
    case TickEvent(_) => true
    case SwitchEvent(target, _) => target < MAX_TERMINALS
    case ExecuteEvent(runnable, _) =>
      Coherent(s) && (runnable && FirstFree(s.pcbs, 0) != -1 ==> s.active == s.scheduled)
    case HaltEvent(_) => Coherent(s) && (s.activePid[s.scheduled] < MAX_TERMINALS ==> s.active == s.scheduled)
    case StoreEvent(addr, _) => Coherent(s) && addr < 0x1_0000_0000
    case VideoEvent(off, _) => Coherent(s) && off < ALIGN_4KB
    case CursorEvent(_, _) => Coherent(s)
    case PutcEvent(c) => Coherent(s) && CanPut(s.cursor, c)
    case ClearEvent => true
    case BackspaceEvent => CellBeforeInPage(Truncated(s.saved[s.active]))
  }

  ghost function Step(s: KState, e: Event): KState
    requires Inv(s) && Enabled(s, e)
  {
    match e
    case TickEvent(ctx) =>
      assert s.inited[0];
      Tick(s, ctx)
    case SwitchEvent(target, ctx) => Switch(s, target, ctx)
    case ExecuteEvent(runnable, ctx) => Execute(s, runnable, ctx)
    case HaltEvent(ctx) =>
      HaltIsDefined(s);
      Halt(s, ctx)
    case StoreEvent(addr, b) => Store(s, true, addr, b)
    case VideoEvent(off, b) => Store(s, false, VIDEO + off, b)
    case CursorEvent(x, y) => SetCursor(s, x, y)
    case PutcEvent(c) => Putc(s, c)
    case ClearEvent => Clear(s)
    case BackspaceEvent => Backspace(s)
  }

  lemma HaltIsDefined(s: KState)
    requires Inv(s) && Coherent(s)
    ensures var p := s.pcbs[s.current.value];
            && p.pid == s.current.value == s.activePid[s.scheduled]
            && (p.pid >= MAX_TERMINALS ==>
                 0 <= p.parent < NUM_PIDS && s.pcbs[p.parent].pid == p.parent && p.parent != s.current.value)
  {
    if s.activePid[s.scheduled] < MAX_TERMINALS {
      BaseAlone(ProcsOf(s), ChainsOf(s), s.scheduled);
    } else {
      ParentOnChain(ProcsOf(s), ChainsOf(s), s.scheduled);
    }
  }

  // ---------------------------------------------------------------- each event keeps the invariant

  /** What can happen to the chains: a program starts over another, ends, or is the first of a terminal. */
  datatype Effect = NoEffect | Push(t: nat, pid: nat) | Pop(t: nat) | Begin(t: nat)

  function Apply(cs: Chains, f: Effect): Chains {
    match f
    case NoEffect => cs
    case Push(t, pid) => if t < |cs| then cs[t := [pid] + cs[t]] else cs
    case Pop(t) => if t < |cs| && |cs[t]| > 0 then cs[t := cs[t][1..]] else cs
    case Begin(t) => if t < |cs| then cs[t := [t]] else cs
  }

  lemma TickIsSound(s: KState, ctx: Context)
    requires Sound(s) && RoundRobin.SomeInitialized(s.inited)
    requires forall t :: 0 <= t < MAX_TERMINALS && s.inited[t] ==> s.pcbs[s.activePid[t]].pid == s.activePid[t]
    ensures Sound(Tick(s, ctx)) && Settled(Tick(s, ctx))
  {
    var r := Tick(s, ctx);
    var p := s.activePid[r.scheduled];
    LoadProgramKeepsPages(s.tables, p);
    RemapKeepsPages(ProgramTables(s.tables, p), ScreenFrame(s, r.scheduled));
  }

  lemma TopsKnowTheirPid(s: Procs, cs: Chains)
    requires s.Wf() && Forest(s, cs)
    ensures forall t :: 0 <= t < MAX_TERMINALS && s.inited[t] ==>
              s.activePid[t] < NUM_PIDS && s.pcbs[s.activePid[t]].pid == s.activePid[t] && s.pcbs[s.activePid[t]].inUse
  {
    forall t | 0 <= t < MAX_TERMINALS && s.inited[t]
      ensures s.activePid[t] < NUM_PIDS && s.pcbs[s.activePid[t]].pid == s.activePid[t] && s.pcbs[s.activePid[t]].inUse
    {
      assert ChainOk(s, cs[t], t);
    }
  }

  /** A tick keeps the chains, and always ends in a settled state. */
  lemma TickKeepsInv(s: KState, ctx: Context)
    requires Inv(s)
    ensures RoundRobin.SomeInitialized(s.inited)
    ensures var r := Tick(s, ctx); Inv(r) && ChainsOf(r) == ChainsOf(s) && Settled(r)
    ensures Tick(s, ctx).scheduled == RoundRobin.Next(s.inited, s.scheduled)
  {
    assert s.inited[0];
    TopsKnowTheirPid(ProcsOf(s), ChainsOf(s));
    TickIsSound(s, ctx);
    ChainsKept(s, Tick(s, ctx));
  }

  lemma BackingPages(t: Tables, i: nat, j: nat)
    requires t.Wf() && PagesOk(t) && i < MAX_TERMINALS && j < MAX_TERMINALS
    ensures t.table[TERMINAL_VID_PAGE + i].frame == TERMINAL_FRAME + i
    ensures t.table[TERMINAL_VID_PAGE + j].frame == TERMINAL_FRAME + j
  {
    BackingPage(t, i);
    BackingPage(t, j);
  }

  /** The tables after terminal_switch(target). */
  function SwitchTables(s: KState, target: nat): (t: Tables)
    requires s.tables.Wf()
    ensures t.Wf()
  {
    var t1 := if s.active != s.scheduled then VideoTables(s.tables, VIDEO_FRAME) else s.tables;
    if target != s.scheduled then VideoTables(t1, TERMINAL_FRAME + s.scheduled) else t1
  }

  lemma SwitchTablesKeepPages(s: KState, target: nat)
    requires Wf(s) && PagesOk(s.tables) && s.active != target
    ensures var t := SwitchTables(s, target);
            && t.Wf() && PagesOk(t) && t.dir == s.tables.dir
            && t.table[VIDEO_MEMORY_PAGE].frame == if target == s.scheduled then VIDEO_FRAME
               else TERMINAL_FRAME + s.scheduled
  {
    var t1 := if s.active != s.scheduled then VideoTables(s.tables, VIDEO_FRAME) else s.tables;
    RemapKeepsPages(s.tables, VIDEO_FRAME);
    RemapKeepsPages(t1, TERMINAL_FRAME + s.scheduled);
  }

  /** The frame terminal_switch takes for the screen: what its video page is mapped to. */
  function CopiedFrame(s: KState): nat
    requires Wf(s)
  {
    if s.active != s.scheduled then VIDEO_FRAME else s.tables.table[VIDEO_MEMORY_PAGE].frame
  }

  /** The screen frames after terminal_switch(target). */
  ghost function SwitchFrames(s: KState, target: nat): (m: map<nat, Page>)
    requires Wf(s) && target < MAX_TERMINALS && CopiedFrame(s) in s.mem
    ensures HoldsScreens(m)
  {
    s.mem[TERMINAL_FRAME + s.active := s.mem[CopiedFrame(s)]][CopiedFrame(s) := s.mem[TERMINAL_FRAME + target]]
  }

  /** The state after terminal_switch(target), before a first shell is launched. */
  ghost function Swapped(s: KState, target: nat): (r: KState)
    requires Wf(s) && target < MAX_TERMINALS && CopiedFrame(s) in s.mem
    ensures Wf(r)
  {
    s.(tables := SwitchTables(s, target), mem := SwitchFrames(s, target), active := target)
  }

  lemma CanSwitch(s: KState, target: nat)
    requires Wf(s) && PagesOk(s.tables) && target < MAX_TERMINALS && FrameOf(s, VIDEO_MEMORY_PAGE) in s.mem
    ensures CanCopy(s, target) && CopiedFrame(s) in s.mem && FrameOf(AtScreen(s), VIDEO_MEMORY_PAGE) == CopiedFrame(s)
    ensures PagesOk(AtScreen(s).tables) && CanCopy(AtScreen(s), target)
  {
    BackingPages(s.tables, s.active, target);
    RemapKeepsPages(s.tables, VIDEO_FRAME);
  }

  /** The two copies, in terms of the frames the pages are mapped to. */
  lemma FramesCopiedIs(s: KState, target: nat)
    requires CanCopy(s, target) && PagesOk(s.tables) && s.active != target
    ensures var f := FrameOf(s, VIDEO_MEMORY_PAGE);
      FramesCopied(s, target) ==
      s.(mem := s.mem[TERMINAL_FRAME + s.active := s.mem[f]][f := s.mem[TERMINAL_FRAME + target]])
  {
    BackingPages(s.tables, s.active, target);
  }

  lemma CopiedAtScreen(s: KState, target: nat)
    requires Wf(s) && CanCopy(s, target) && s.active != target && CopiedFrame(s) in s.mem
    requires CanCopy(AtScreen(s), target) && PagesOk(AtScreen(s).tables)
    requires FrameOf(AtScreen(s), VIDEO_MEMORY_PAGE) == CopiedFrame(s)
    ensures FramesCopied(AtScreen(s), target) == AtScreen(s).(mem := SwitchFrames(s, target))
  {
    FramesCopiedIs(AtScreen(s), target);
  }

  lemma RemapsApart(s: KState, mem: map<nat, Page>, target: nat)
    requires Wf(s)
    ensures AtScheduled(AtScreen(s).(mem := mem), target).(active := target)
            == s.(mem := mem, tables := SwitchTables(s, target), active := target)
  {
  }

  lemma SwitchScreensIsSound(s: KState, target: nat)
    requires Wf(s) && PagesOk(s.tables) && target < MAX_TERMINALS && s.active != target
    requires FrameOf(s, VIDEO_MEMORY_PAGE) in s.mem
    ensures CopiedFrame(s) in s.mem && CanCopy(s, target)
    ensures SwitchScreens(s, target) == Swapped(s, target)
  {
    CanSwitch(s, target);
    CopiedAtScreen(s, target);
    RemapsApart(s, SwitchFrames(s, target), target);
  }

  lemma SwitchKeepsInv(s: KState, target: nat, ctx: Context)
    requires Inv(s) && target < MAX_TERMINALS
    ensures Inv(Switch(s, target, ctx))
    ensures ChainsOf(Switch(s, target, ctx)) == Apply(ChainsOf(s), if s.inited[target] then NoEffect else Begin(target))
    ensures Coherent(Switch(s, target, ctx)) <==> Coherent(s) && s.inited[target]
    ensures target != s.active ==> ScreenMapped(Switch(s, target, ctx))
  {
    SwitchIs(s, target, ctx);
    AfterSwitch(s, target, ctx, Switch(s, target, ctx));
  }

  lemma AfterSwitch(s: KState, target: nat, ctx: Context, r: KState)
    requires Inv(s) && target < MAX_TERMINALS && CopiedFrame(s) in s.mem
    requires r == if s.active == target then s
                  else if s.inited[target] then Swapped(s, target) else Spawn(Swapped(s, target), target, ctx)
    ensures Inv(r) && ChainsOf(r) == Apply(ChainsOf(s), if s.inited[target] then NoEffect else Begin(target))
    ensures (Coherent(r) <==> Coherent(s) && s.inited[target]) && (target != s.active ==> ScreenMapped(r))
  {
    if s.active != target {
      if s.inited[target] {
        SwitchToUsed(s, target);
      } else {
        SwitchToUnused(s, target, ctx);
      }
    }
  }

  lemma SwitchIs(s: KState, target: nat, ctx: Context)
    requires Sound(s) && target < MAX_TERMINALS
    ensures CopiedFrame(s) in s.mem
    ensures Switch(s, target, ctx) ==
            if s.active == target then s
            else if s.inited[target] then Swapped(s, target) else Spawn(Swapped(s, target), target, ctx)
  {
    if s.active != target {
      SwitchScreensIsSound(s, target);
    }
  }

  lemma SwitchToUsed(s: KState, target: nat)
    requires Inv(s) && target < MAX_TERMINALS && s.active != target && s.inited[target]
    ensures var r := Swapped(s, target);
            Inv(r) && ScreenMapped(r) && (Coherent(r) <==> Coherent(s)) && ChainsOf(r) == ChainsOf(s)
  {
    SwitchTablesKeepPages(s, target);
    ScreensSwapped(s, Swapped(s, target), target);
  }

  lemma SwitchToUnused(s: KState, target: nat, ctx: Context)
    requires Inv(s) && target < MAX_TERMINALS && s.active != target && !s.inited[target]
    ensures var r := Spawn(Swapped(s, target), target, ctx);
            Inv(r) && ChainsOf(r) == ChainsOf(s)[target := [target]] && ScreenMapped(r) && !Coherent(r)
  {
    SwitchTablesKeepPages(s, target);
    FirstShell(s, Swapped(s, target), target, ctx);
    if s.activePid[s.scheduled] < MAX_TERMINALS {
      BaseAlone(ProcsOf(s), ChainsOf(s), s.scheduled);
    }
  }

  lemma ScreensSwapped(s: KState, r: KState, target: nat)
    requires Inv(s) && target < MAX_TERMINALS && s.inited[target]
    requires r.(tables := s.tables, mem := s.mem, active := s.active) == s && r.active == target
    requires Wf(r) && PagesOk(r.tables) && r.tables.dir == s.tables.dir && ScreenMapped(r)
    ensures Inv(r) && (Coherent(r) <==> Coherent(s)) && ChainsOf(r) == ChainsOf(s)
  {
    ChainsKept(s, r);
  }

  lemma SpawnIsSound(s: KState, pid: nat, ctx: Context)
    requires Wf(s) && s.inited[0] && s.inited[s.scheduled] && PagesOk(s.tables)
    requires (s.firstSwap ==> s.scheduled == 0) && (pid == 0 ==> s.active == 0)
    requires s.tables.table[VIDEO_MEMORY_PAGE].frame == TERMINAL_FRAME + s.scheduled || ScreenMapped(s)
    requires pid < NUM_PIDS
    ensures Sound(Spawn(s, pid, ctx))
  {
    LoadProgramKeepsPages(s.tables, pid);
  }

  lemma FirstShell(s: KState, m: KState, target: nat, ctx: Context)
    requires Inv(s) && Wf(m) && PagesOk(m.tables) && ScreenMapped(m)
    requires target < MAX_TERMINALS && !s.inited[target] && m.active == target
    requires ProcsOf(m) == ProcsOf(s) && m.scheduled == s.scheduled && m.firstSwap == s.firstSwap
    ensures Inv(Spawn(m, target, ctx)) && ChainsOf(Spawn(m, target, ctx)) == ChainsOf(s)[target := [target]]
  {
    var cs := ChainsOf(s);
    var r := Spawn(m, target, ctx);
    SpawnIsSound(m, target, ctx);
    assert cs[target] == [] by { assert ChainOk(ProcsOf(s), cs[target], target); }
    assert [target] + cs[target] == [target];
    PushKeepsForest(ProcsOf(s), ProcsOf(r), cs, target, target);
    ChainsAre(r, cs[target := [target]]);
  }

  /** execute pushes the new pid on the chain of the terminal shown, or changes nothing. */
  lemma ExecuteKeepsInv(s: KState, runnable: bool, ctx: Context)
    requires Inv(s) && Coherent(s)
    requires runnable && FirstFree(s.pcbs, 0) != -1 ==> s.active == s.scheduled
    ensures Inv(Execute(s, runnable, ctx)) && Coherent(Execute(s, runnable, ctx))
    ensures ScreenMapped(Execute(s, runnable, ctx)) <==> ScreenMapped(s)
    ensures ChainsOf(Execute(s, runnable, ctx)) ==
            Apply(ChainsOf(s), if runnable && FirstFree(s.pcbs, 0) != -1 then Push(s.active, FirstFree(s.pcbs, 0))
                               else NoEffect)
  {
    if runnable && FirstFree(s.pcbs, 0) != -1 {
      ExecutePushes(s, ctx);
    }
  }

  lemma ExecutePushes(s: KState, ctx: Context)
    requires Inv(s) && FirstFree(s.pcbs, 0) != -1 && s.active == s.scheduled
    ensures var r := Spawn(s, FirstFree(s.pcbs, 0), ctx);
            && Inv(r) && Coherent(r) && (ScreenMapped(r) <==> ScreenMapped(s))
            && ChainsOf(r) == ChainsOf(s)[s.active := [FirstFree(s.pcbs, 0)] + ChainsOf(s)[s.active]]
  {
    var cs, pid := ChainsOf(s), FirstFree(s.pcbs, 0);
    var r := Spawn(s, pid, ctx);
    FirstFreeIsFresh(ProcsOf(s), cs);
    SpawnIsSound(s, pid, ctx);
    PushKeepsForest(ProcsOf(s), ProcsOf(r), cs, s.active, pid);
    ChainsAre(r, cs[s.active := [pid] + cs[s.active]]);
  }

  /**
    execute of a runnable program fails exactly when all six slots are in use, and then, as when
    the program is not runnable, it changes nothing.
   */
  lemma ExecuteFailsWhenFull(s: KState, runnable: bool, ctx: Context)
    requires Inv(s)
    ensures Execute(s, runnable, ctx) == s || (runnable && exists p :: 0 <= p < 6 && !s.pcbs[p].inUse)
    ensures runnable && (exists p :: 0 <= p < 6 && !s.pcbs[p].inUse) ==>
              var pid := FirstFree(s.pcbs, 0);
              && Execute(s, runnable, ctx).current == Some(pid)
              && Execute(s, runnable, ctx).pcbs[pid].inUse && !s.pcbs[pid].inUse && pid >= 3
  {
    FirstFreeIsFresh(ProcsOf(s), ChainsOf(s));
  }

  /** r is as good a state as s, with the given chains. */
  ghost predicate Becomes(s: KState, r: KState, cs: Chains)
    requires Wf(s)
  {
    Inv(r) && Coherent(r) && (ScreenMapped(r) <==> ScreenMapped(s)) && ChainsOf(r) == cs
  }

  /** halt pops the chain of the scheduled terminal; a base shell is replaced by one with its pid. */
  lemma HaltKeepsInv(s: KState, ctx: Context)
    requires Inv(s) && Coherent(s)
    requires s.activePid[s.scheduled] < MAX_TERMINALS ==> s.active == s.scheduled
    ensures s.pcbs[s.current.value].pid == s.current.value
    ensures s.pcbs[s.current.value].pid >= MAX_TERMINALS ==>
              var q := s.pcbs[s.current.value].parent;
              0 <= q < NUM_PIDS && 0 <= s.pcbs[q].pid < NUM_PIDS && q != s.current.value
    ensures Becomes(s, Halt(s, ctx),
                    Apply(ChainsOf(s),
                          if s.activePid[s.scheduled] >= MAX_TERMINALS then Pop(s.scheduled) else NoEffect))
  {
    HaltIsDefined(s);
    if s.activePid[s.scheduled] < MAX_TERMINALS {
      RestartKeepsInv(s, ctx);
    } else {
      HaltReturns(s, ctx);
      ReturnKeepsInv(s);
    }
  }

  lemma HaltReturns(s: KState, ctx: Context)
    requires Inv(s) && Coherent(s) && s.activePid[s.scheduled] >= MAX_TERMINALS
    ensures var q := s.pcbs[s.current.value].parent;
            && s.pcbs[s.current.value].pid == s.current.value != q
            && 0 <= q < NUM_PIDS && 0 <= s.pcbs[q].pid < NUM_PIDS && Halt(s, ctx) == ReturnToParent(s)
  {
    HaltIsDefined(s);
  }

  lemma ReturnIsSound(s: KState, p: nat, q: nat)
    requires Sound(s) && Coherent(s) && s.current == Some(p) && s.pcbs[p].parent == q
    requires q < NUM_PIDS && s.pcbs[q].pid == q && p != q
    ensures var r := ReturnToParent(s);
            Sound(r) && Coherent(r) && (ScreenMapped(r) <==> ScreenMapped(s))
                && Popped(ProcsOf(s), ProcsOf(r), s.scheduled)
  {
    LoadProgramKeepsPages(s.tables, q);
  }

  lemma ReturnKeepsInv(s: KState)
    requires Inv(s) && Coherent(s) && s.activePid[s.scheduled] >= MAX_TERMINALS
    ensures var q := s.pcbs[s.current.value].parent; 0 <= q < NUM_PIDS && 0 <= s.pcbs[q].pid < NUM_PIDS
    ensures |ChainsOf(s)[s.scheduled]| >= 2
    ensures Becomes(s, ReturnToParent(s), ChainsOf(s)[s.scheduled := ChainsOf(s)[s.scheduled][1..]])
  {
    var cs, a := ChainsOf(s), s.scheduled;
    HaltIsDefined(s);
    ReturnIsSound(s, s.current.value, s.pcbs[s.current.value].parent);
    PopKeepsForest(ProcsOf(s), ProcsOf(ReturnToParent(s)), cs, a);
    ChainsAre(ReturnToParent(s), cs[a := cs[a][1..]]);
  }

  lemma RestartKeepsInv(s: KState, ctx: Context)
    requires Inv(s) && Coherent(s) && s.activePid[s.scheduled] < MAX_TERMINALS && s.active == s.scheduled
    requires s.pcbs[s.current.value].pid < MAX_TERMINALS
    ensures Becomes(s, Halt(s, ctx), ChainsOf(s))
  {
    var r := Halt(s, ctx);
    BaseShellKeepsPid(s);
    BaseAlone(ProcsOf(s), ChainsOf(s), s.scheduled);
    SpawnIsSound(DropBaseShell(s), s.scheduled, ctx);
    RestartKeepsForest(s, r, ChainsOf(s), ctx);
    ChainsAre(r, ChainsOf(s));
  }

  /** A base shell that halts is given its own pid again by get_pid. */
  lemma BaseShellKeepsPid(s: KState)
    requires Inv(s) && Coherent(s) && s.activePid[s.scheduled] < MAX_TERMINALS
    ensures s.current == Some(s.scheduled)
    ensures ChosenPid(DropBaseShell(s)) == s.scheduled && IsStackTopOf(DropBaseShell(s).esp0, s.scheduled)
  {
    BaseAlone(ProcsOf(s), ChainsOf(s), s.scheduled);
    FirstFreeIsBase(DropBaseShell(s).pcbs, s.scheduled);
  }

  lemma RestartKeepsForest(s: KState, r: KState, cs: Chains, ctx: Context)
    requires Sound(s) && Forest(ProcsOf(s), cs) && s.active == s.scheduled && cs[s.scheduled] == [s.scheduled]
    requires s.current == Some(s.scheduled) && s.activePid[s.scheduled] == s.scheduled
    requires r == Spawn(DropBaseShell(s), s.scheduled, ctx)
    ensures Forest(ProcsOf(r), cs)
  {
    var a := s.scheduled;
    assert r.inited == s.inited && r.activePid == s.activePid;
    assert forall p :: 0 <= p < NUM_PIDS && p != a ==> SameLinks(s.pcbs[p], r.pcbs[p]);
    RestartedForest(ProcsOf(s), ProcsOf(r), cs, a);
  }

  lemma OnlyMemory(s: KState, r: KState)
    requires Inv(s) && r.(mem := s.mem, cursor := s.cursor) == s && HoldsScreens(r.mem)
    ensures Inv(r) && ChainsOf(r) == ChainsOf(s)
    ensures (Coherent(r) <==> Coherent(s)) && (ScreenMapped(r) <==> ScreenMapped(s))
  {
    ChainsKept(s, r);
  }

  /** A write to memory changes at most one screen page, and no table and no process. */
  lemma StoreOnlyMemory(s: KState, asUser: bool, addr: nat, b: byte)
    requires Wf(s) && addr < 0x1_0000_0000
    ensures var r := Store(s, asUser, addr, b); r.(mem := s.mem) == s && HoldsScreens(r.mem)
  {
  }

  lemma StoreKeepsInv(s: KState, asUser: bool, addr: nat, b: byte)
    requires Inv(s) && addr < 0x1_0000_0000
    ensures Inv(Store(s, asUser, addr, b)) && ChainsOf(Store(s, asUser, addr, b)) == ChainsOf(s)
    ensures Coherent(s) ==> Coherent(Store(s, asUser, addr, b))
  {
    StoreOnlyMemory(s, asUser, addr, b);
    OnlyMemory(s, Store(s, asUser, addr, b));
  }

  lemma PutcOnlyMemory(s: KState, c: byte)
    requires Wf(s) && CanPut(s.cursor, c)
    ensures var r := Putc(s, c); r.(mem := s.mem, cursor := s.cursor) == s && HoldsScreens(r.mem)
  {
    if !IsNewline(c) {
      var at := CellAt(s.cursor);
      StoreOnlyMemory(s, false, VIDEO + at, c);
      StoreOnlyMemory(Store(s, false, VIDEO + at, c), false, VIDEO + at + 1, ATTRIB);
    }
  }

  lemma PutcKeepsInv(s: KState, c: byte)
    requires Inv(s) && CanPut(s.cursor, c)
    ensures Inv(Putc(s, c)) && ChainsOf(Putc(s, c)) == ChainsOf(s)
    ensures Coherent(s) ==> Coherent(Putc(s, c))
  {
    PutcOnlyMemory(s, c);
    OnlyMemory(s, Putc(s, c));
  }

  /**
    clear_terminal and the backspace key keep the forest and the running process, but they leave
    the video page on a backing frame: the mapping is right afterwards exactly when the terminal
    shown is not the scheduled one.
   */
  lemma KeysKeepInv(s: KState)
    requires Inv(s)
    ensures Inv(Clear(s)) && (Coherent(Clear(s)) <==> Coherent(s)) && ChainsOf(Clear(s)) == ChainsOf(s)
    ensures ScreenMapped(Clear(s)) <==> s.active != s.scheduled
    ensures CellBeforeInPage(Truncated(s.saved[s.active])) ==>
              && Inv(Backspace(s)) && (Coherent(Backspace(s)) <==> Coherent(s)) && ChainsOf(Backspace(s)) == ChainsOf(s)
              && (ScreenMapped(Backspace(s)) <==> s.active != s.scheduled)
  {
    ChainsKept(s, Clear(s));
    if CellBeforeInPage(Truncated(s.saved[s.active])) {
      ChainsKept(s, Backspace(s));
    }
  }

  ghost function EffectOf(s: KState, e: Event): Effect
    requires Inv(s) && Enabled(s, e)
  {
    match e
    case SwitchEvent(target, _) => if s.inited[target] then NoEffect else Begin(target)
    case ExecuteEvent(runnable, _) =>
      if runnable && FirstFree(s.pcbs, 0) != -1 then Push(s.active, FirstFree(s.pcbs, 0)) else NoEffect
    case HaltEvent(_) => if s.activePid[s.scheduled] >= MAX_TERMINALS then Pop(s.scheduled) else NoEffect
    case _ => NoEffect
  }

  lemma HaltStep(s: KState, ctx: Context)
    requires Inv(s) && Enabled(s, HaltEvent(ctx))
    ensures Becomes(s, Step(s, HaltEvent(ctx)), Apply(ChainsOf(s), EffectOf(s, HaltEvent(ctx))))
  {
    HaltKeepsInv(s, ctx);
  }

  lemma SwitchStep(s: KState, target: nat, ctx: Context)
    requires Inv(s) && Enabled(s, SwitchEvent(target, ctx))
    ensures var e := SwitchEvent(target, ctx);
            Inv(Step(s, e)) && ChainsOf(Step(s, e)) == Apply(ChainsOf(s), EffectOf(s, e))
  {
    SwitchKeepsInv(s, target, ctx);
  }

  lemma ExecuteStep(s: KState, runnable: bool, ctx: Context)
    requires Inv(s) && Enabled(s, ExecuteEvent(runnable, ctx))
    ensures Becomes(s, Step(s, ExecuteEvent(runnable, ctx)),
              Apply(ChainsOf(s), EffectOf(s, ExecuteEvent(runnable, ctx))))
  {
    ExecuteKeepsInv(s, runnable, ctx);
  }

  /** Every enabled event leads from a good state to a good state, and moves the chains as stated. */
  lemma StepKeepsInv(s: KState, e: Event)
    requires Inv(s) && Enabled(s, e)
    ensures Inv(Step(s, e)) && ChainsOf(Step(s, e)) == Apply(ChainsOf(s), EffectOf(s, e))
  {
    match e
    case TickEvent(ctx) => TickKeepsInv(s, ctx);
    case SwitchEvent(target, ctx) => SwitchStep(s, target, ctx);
    case ExecuteEvent(runnable, ctx) => ExecuteStep(s, runnable, ctx);
    case HaltEvent(ctx) => HaltStep(s, ctx);
    case StoreEvent(addr, b) => StoreKeepsInv(s, true, addr, b);
    case VideoEvent(off, b) => StoreKeepsInv(s, false, VIDEO + off, b);
    case CursorEvent(x, y) => OnlyMemory(s, SetCursor(s, x, y));
    case PutcEvent(c) => PutcKeepsInv(s, c);
    case ClearEvent => KeysKeepInv(s);
    case BackspaceEvent => KeysKeepInv(s);
  }

  /** A good state again, in which prints go to the right screen if they did before. */
  ghost predicate StaysGood(s: KState, r: KState)
    requires Wf(s)
  {
    Inv(r) && Coherent(r) && (ScreenMapped(s) ==> ScreenMapped(r))
  }

  /**
    Why execute, and halt of a base shell, must be done in the terminal shown: the state stays
    good exactly when the scheduled terminal is the active one.
   */
  lemma NeedsActiveTerminal(s: KState, ctx: Context)
    requires Inv(s) && Coherent(s)
    ensures FirstFree(s.pcbs, 0) != -1 ==> (StaysGood(s, Execute(s, true, ctx)) <==> s.active == s.scheduled)
    ensures s.activePid[s.scheduled] < MAX_TERMINALS ==>
              && s.pcbs[s.current.value].pid < MAX_TERMINALS
              && (StaysGood(s, Halt(s, ctx)) <==> s.active == s.scheduled)
  {
    if FirstFree(s.pcbs, 0) != -1 {
      FirstFreeIsFresh(ProcsOf(s), ChainsOf(s));
      if s.active == s.scheduled {
        ExecuteKeepsInv(s, true, ctx);
      } else {
        assert s.activePid[s.scheduled] != FirstFree(s.pcbs, 0) by {
          assert ChainOk(ProcsOf(s), ChainsOf(s)[s.scheduled], s.scheduled);
        }
      }
    }
    if s.activePid[s.scheduled] < MAX_TERMINALS {
      HaltIsDefined(s);
      if s.active == s.scheduled {
        HaltKeepsInv(s, ctx);
      } else {
        HaltElsewhereBreaks(s, ctx);
      }
    }
  }

  lemma HaltElsewhereBreaks(s: KState, ctx: Context)
    requires Inv(s) && Coherent(s) && s.activePid[s.scheduled] < MAX_TERMINALS && s.active != s.scheduled
    ensures s.pcbs[s.current.value].pid < MAX_TERMINALS
    ensures !StaysGood(s, Halt(s, ctx))
  {
    HaltIsDefined(s);
    BaseShellKeepsPid(s);
    var r := Halt(s, ctx);
    if Inv(r) && s.scheduled != 0 {
      BaseAlone(ProcsOf(r), ChainsOf(r), s.active);
    }
  }
}
