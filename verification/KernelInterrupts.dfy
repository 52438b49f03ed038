/**
  What becomes of an execute that is interrupted: it runs with interrupts on, so that ticks, keys and
  all that other processes do can come between the mapping of the new program's page and the moment
  the new process is made current.
 */
module KernelInterrupts {
  import opened Bytes
  import opened Paging
  import opened KernelState
  import opened ProcessForest
  import opened KernelInvariant
  import opened KernelRuns
  import opened KernelScheduling
  import RoundRobin

  // ---------------------------------------------------------------- execute in two parts

  /** execute up to the point where the program has been read into the page of the pid chosen. */
  ghost function ExecuteBegins(s: KState): KState
    requires Wf(s) && FirstFree(s.pcbs, 0) != -1
  {
    LoadProgram(s, FirstFree(s.pcbs, 0))
  }

  /** The rest of execute, with the terminal shown and its active process as they are then. */
  ghost function ExecuteEnds(u: KState, pid: nat, ctx: Context): (r: KState)
    requires Wf(u) && pid < NUM_PIDS
    ensures Wf(r)
  {
    MadeCurrent(u.(pcbs := SpawnPcbs(u.pcbs, pid, u.activePid[u.active], ctx)), pid)
  }

  /** Without an interruption, the two parts are execute. */
  lemma ExecuteInTwoParts(s: KState, ctx: Context)
    requires Wf(s) && s.inited[s.active] && FirstFree(s.pcbs, 0) != -1
    ensures ExecuteEnds(ExecuteBegins(s), FirstFree(s.pcbs, 0), ctx) == Execute(s, true, ctx)
  {
  }

  lemma BeginKeepsInv(s: KState)
    requires Inv(s) && Coherent(s) && FirstFree(s.pcbs, 0) != -1
    ensures Inv(ExecuteBegins(s)) && InWindow(s, ExecuteBegins(s))
  {
    LoadProgramKeepsPages(s.tables, FirstFree(s.pcbs, 0));
    ChainsKept(s, ExecuteBegins(s));
    CallerIsNotFree(s);
    FramesDiffer(s.activePid[s.scheduled], FirstFree(s.pcbs, 0));
  }

  lemma FramesDiffer(p: nat, q: nat)
    ensures PhysFrame(p) == PhysFrame(q) <==> p == q
  {
    assert PhysFrame(p) == 0x800 + 0x400 * p && PhysFrame(q) == 0x800 + 0x400 * q;
  }

  lemma CallerIsNotFree(s: KState)
    requires Inv(s) && Coherent(s)
    ensures s.pcbs[s.activePid[s.scheduled]].inUse
    ensures s.activePid[s.scheduled] < MAX_TERMINALS ==> s.activePid[s.scheduled] == s.scheduled
  {
    TopOfChain(s, s.scheduled);
    InitializedByChain(s, s.scheduled);
    PidsInRange(ProcsOf(s), ChainsOf(s), s.scheduled);
    if s.activePid[s.scheduled] < MAX_TERMINALS {
      BaseAlone(ProcsOf(s), ChainsOf(s), s.scheduled);
    }
  }

  // ---------------------------------------------------------------- before the first tick

  /**
    As long as no tick has come, the new program's page stays mapped while its caller is current.
    Only the first launch of another terminal makes another process current, and it is not undone
    without a tick.
   */
  ghost predicate InWindow(s: KState, u: KState)
    requires Wf(s) && FirstFree(s.pcbs, 0) != -1 && Inv(u)
  {
    && !Coherent(u) && u.scheduled == s.scheduled
    && (u.current == s.current ==>
          ProcsOf(u) == ProcsOf(s) && u.tables.dir[USER_SPACE_DIR_NUM].frame == PhysFrame(FirstFree(s.pcbs, 0)))
  }

  lemma KeyStaysInWindow(s: KState, u: KState, e: Event)
    requires Inv(s) && Coherent(s) && FirstFree(s.pcbs, 0) != -1 && Inv(u) && InWindow(s, u)
    requires Enabled(u, e) && !e.TickEvent?
    ensures Inv(Step(u, e)) && InWindow(s, Step(u, e))
  {
    StepKeepsInv(u, e);
    match e
    case SwitchEvent(target, ctx) =>
      SwitchKeepsInv(u, target, ctx);
      SwitchIs(u, target, ctx);
      CallerIsNotFree(s);
      if u.active != target {
        SwitchTablesKeepPages(u, target);
      }
    case ClearEvent => KeysKeepInv(u);
    case BackspaceEvent => KeysKeepInv(u);
  }

  // ---------------------------------------------------------------- after a tick

  /** The user's program page is that of the current process. */
  ghost predicate PageIsCurrent(s: KState)
    requires Wf(s)
  {
    s.current.Some? && s.tables.dir[USER_SPACE_DIR_NUM].frame == PhysFrame(s.current.value)
  }

  lemma StepKeepsPage(s: KState, e: Event)
    requires Inv(s) && Enabled(s, e) && (e.TickEvent? || PageIsCurrent(s))
    ensures Inv(Step(s, e)) && PageIsCurrent(Step(s, e))
  {
    StepKeepsInv(s, e);
    match e
    case TickEvent(ctx) => TickKeepsInv(s, ctx);
    case SwitchEvent(target, ctx) => SwitchKeepsPage(s, target, ctx);
    case ExecuteEvent(runnable, ctx) => ExecuteKeepsInv(s, runnable, ctx);
    case HaltEvent(ctx) => HaltKeepsInv(s, ctx);
    case StoreEvent(addr, b) => StoreOnlyMemory(s, true, addr, b);
    case VideoEvent(off, b) => StoreOnlyMemory(s, false, VIDEO + off, b);
    case CursorEvent(_, _) =>
    case PutcEvent(c) => PutcOnlyMemory(s, c);
    case ClearEvent =>
    case BackspaceEvent =>
  }

  lemma SwitchKeepsPage(s: KState, target: nat, ctx: Context)
    requires Inv(s) && PageIsCurrent(s) && target < MAX_TERMINALS
    ensures Wf(Switch(s, target, ctx)) && PageIsCurrent(Switch(s, target, ctx))
  {
    SwitchIs(s, target, ctx);
    if s.active != target {
      SwitchTablesKeepPages(s, target);
      SpawnMapsPage(Swapped(s, target), target, ctx);
    }
  }

  lemma SpawnMapsPage(m: KState, pid: nat, ctx: Context)
    requires Wf(m) && pid < NUM_PIDS
    ensures Wf(Spawn(m, pid, ctx)) && PageIsCurrent(Spawn(m, pid, ctx))
  {
  }

  lemma {:induction false} RunKeepsPage(s: KState, es: seq<Event>)
    requires Inv(s) && Runnable(s, es) && PageIsCurrent(s)
    ensures PageIsCurrent(Run(s, es))
    decreases |es|
  {
    if es != [] {
      StepKeepsPage(s, es[0]);
      RunKeepsPage(Step(s, es[0]), es[1..]);
    }
  }

  lemma {:induction false} WindowRun(s: KState, u: KState, es: seq<Event>)
    requires Inv(s) && Coherent(s) && FirstFree(s.pcbs, 0) != -1 && Inv(u) && InWindow(s, u) && Runnable(u, es)
    ensures if Ticks(es) == 0 then InWindow(s, Run(u, es)) else PageIsCurrent(Run(u, es))
    decreases |es|
  {
    if es != [] {
      if es[0].TickEvent? {
        StepKeepsPage(u, es[0]);
        RunKeepsPage(Step(u, es[0]), es[1..]);
      } else {
        KeyStaysInWindow(s, u, es[0]);
        WindowRun(s, Step(u, es[0]), es[1..]);
      }
    }
  }

  // ---------------------------------------------------------------- the end

  /**
    When execute goes on after an interruption, with its caller running again, the new process is
    coherent with the terminal, the page and the stack exactly if there was no tick and the terminal
    shown is the one it was. Then all is as if execute had not been interrupted; after a tick, the new
    process is started in the page of its caller.
   */
  lemma ExecuteInterrupted(s: KState, es: seq<Event>, ctx: Context)
    requires Inv(s) && Coherent(s) && s.active == s.scheduled && FirstFree(s.pcbs, 0) != -1
    requires Inv(ExecuteBegins(s)) && Runnable(ExecuteBegins(s), es)
    requires var u := Run(ExecuteBegins(s), es); u.scheduled == s.scheduled && u.current == s.current
    ensures var pid, u := FirstFree(s.pcbs, 0), Run(ExecuteBegins(s), es);
            var r := ExecuteEnds(u, pid, ctx);
            && (Coherent(r) <==> Ticks(es) == 0 && u.active == s.active)
            && (Coherent(r) ==> Inv(r) && ChainsOf(r) == ChainsOf(s)[s.active := [pid] + ChainsOf(s)[s.active]])
            && (Ticks(es) > 0 ==>
                  r.current == Some(pid)
                      && r.tables.dir[USER_SPACE_DIR_NUM].frame == PhysFrame(s.current.value) != PhysFrame(pid))
  {
    var pid, u := FirstFree(s.pcbs, 0), Run(ExecuteBegins(s), es);
    BeginKeepsInv(s);
    WindowRun(s, ExecuteBegins(s), es);
    FirstFreeIsFresh(ProcsOf(s), ChainsOf(s));
    CallerIsNotFree(s);
    FramesDiffer(s.current.value, pid);
    if Ticks(es) == 0 && u.active == s.active {
      EndsLikeExecute(s, u, ctx);
    }
  }

  lemma EndsLikeExecute(s: KState, u: KState, ctx: Context)
    requires Inv(s) && FirstFree(s.pcbs, 0) != -1 && Inv(u) && u.active == u.scheduled == s.active
              && ProcsOf(u) == ProcsOf(s)
    requires u.tables.dir[USER_SPACE_DIR_NUM].frame == PhysFrame(FirstFree(s.pcbs, 0))
    ensures var pid := FirstFree(s.pcbs, 0);
            var r := ExecuteEnds(u, pid, ctx);
            Inv(r) && Coherent(r) && ChainsOf(r) == ChainsOf(s)[s.active := [pid] + ChainsOf(s)[s.active]]
  {
    var pid := FirstFree(s.pcbs, 0);
    ForestIsUnique(ProcsOf(s), ChainsOf(s), ChainsOf(u));
    assert LoadProgram(u, pid) == u by {
      assert u.tables.dir[USER_SPACE_DIR_NUM := u.tables.dir[USER_SPACE_DIR_NUM]] == u.tables.dir;
    }
    ExecutePushes(u, ctx);
  }
}
