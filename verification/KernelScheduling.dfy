/**
  What the scheduler promises each terminal over whole runs: its fair share of the ticks, and
  that an interrupted process is resumed exactly where the tick interrupted it.
 */
module KernelScheduling {
  import opened Bytes
  import opened Paging
  import opened KernelState
  import opened ProcessForest
  import opened KernelInvariant
  import opened KernelRuns
  import RoundRobin

  // ---------------------------------------------------------------- fair share

  /** No terminal is used for the first time during the run. */
  ghost predicate NoLaunch(s: KState, es: seq<Event>)
    requires Inv(s) && Runnable(s, es)
    decreases |es|
  {
    es == [] || (!EffectOf(s, es[0]).Begin? && (StepKeepsInv(s, es[0]); NoLaunch(Step(s, es[0]), es[1..])))
  }

  function Ticks(es: seq<Event>): nat
    decreases |es|
  {
    if es == [] then 0 else (if es[0].TickEvent? then 1 else 0) + Ticks(es[1..])
  }

  /** How many ticks of the run schedule terminal t. */
  ghost function Turns(s: KState, es: seq<Event>, t: nat): nat
    requires Inv(s) && Runnable(s, es)
    decreases |es|
  {
    if es == [] then 0
    else
      StepKeepsInv(s, es[0]);
      (if es[0].TickEvent? && Step(s, es[0]).scheduled == t then 1 else 0) + Turns(Step(s, es[0]), es[1..], t)
  }

  /** Only a tick changes which terminal is scheduled. */
  lemma StepScheduled(s: KState, e: Event)
    requires Inv(s) && Enabled(s, e) && !EffectOf(s, e).Begin?
    ensures Step(s, e).inited == s.inited
    ensures e.TickEvent? ==> RoundRobin.SomeInitialized(s.inited)
                             && Step(s, e).scheduled == RoundRobin.Next(s.inited, s.scheduled)
    ensures !e.TickEvent? ==> Step(s, e).scheduled == s.scheduled
  {
    match e
    case TickEvent(ctx) => TickKeepsInv(s, ctx);
    case SwitchEvent(target, ctx) => SwitchIs(s, target, ctx);
    case ExecuteEvent(_, _) => SameFlags(s.inited, s.active);
    case HaltEvent(ctx) => HaltScheduled(s, ctx);
    case StoreEvent(addr, b) => StoreOnlyMemory(s, true, addr, b);
    case VideoEvent(off, b) => StoreOnlyMemory(s, false, VIDEO + off, b);
    case CursorEvent(_, _) =>
    case PutcEvent(c) => PutcOnlyMemory(s, c);
    case ClearEvent =>
    case BackspaceEvent =>
  }

  lemma SameFlags(inited: seq<bool>, a: nat)
    requires a < |inited| && inited[a]
    ensures inited[a := true] == inited
  {
  }

  lemma HaltScheduled(s: KState, ctx: Context)
    requires Inv(s) && Enabled(s, HaltEvent(ctx))
    ensures Step(s, HaltEvent(ctx)).scheduled == s.scheduled && Step(s, HaltEvent(ctx)).inited == s.inited
  {
    HaltIsDefined(s);
    SameFlags(s.inited, s.active);
    if s.activePid[s.scheduled] < MAX_TERMINALS {
      BaseShellKeepsPid(s);
    }
  }

  lemma {:induction false} VisitsFromFront(inited: seq<bool>, cur: nat, k: nat, t: nat)
    requires cur < |inited| && RoundRobin.SomeInitialized(inited)
    ensures var next := RoundRobin.Next(inited, cur);
            && RoundRobin.Scheduled(inited, cur, k + 1) == RoundRobin.Scheduled(inited, next, k)
            && RoundRobin.Visits(inited, cur, k + 1, t)
               == (if next == t then 1 else 0) + RoundRobin.Visits(inited, next, k, t)
  {
    if k > 0 {
      VisitsFromFront(inited, cur, k - 1, t);
    }
  }

  lemma SomeTerminal(s: KState)
    requires Inv(s)
    ensures RoundRobin.SomeInitialized(s.inited) && s.scheduled < |s.inited|
  {
    assert s.inited[0];
  }

  /** The state after the first event of a run, and what that event contributes to the turns of t. */
  lemma FirstTurn(s: KState, es: seq<Event>, t: nat) returns (r: KState, first: nat)
    requires Inv(s) && es != [] && Runnable(s, es) && NoLaunch(s, es)
    ensures Inv(r) && Runnable(r, es[1..]) && NoLaunch(r, es[1..]) && r.inited == s.inited
    ensures RoundRobin.SomeInitialized(s.inited) && s.scheduled < |s.inited|
    ensures r.scheduled == if es[0].TickEvent? then RoundRobin.Next(s.inited, s.scheduled) else s.scheduled
    ensures first == if es[0].TickEvent? && r.scheduled == t then 1 else 0
    ensures Turns(s, es, t) == first + Turns(r, es[1..], t)
  {
    SomeTerminal(s);
    StepKeepsInv(s, es[0]);
    StepScheduled(s, es[0]);
    r, first := Step(s, es[0]), if es[0].TickEvent? && Step(s, es[0]).scheduled == t then 1 else 0;
  }

  lemma FirstVisit(inited: seq<bool>, cur: nat, next: nat, tick: bool, k: nat, t: nat, first: nat)
    requires cur < |inited| && next < |inited| && RoundRobin.SomeInitialized(inited)
    requires if tick then next == RoundRobin.Next(inited, cur) else next == cur
    requires first == if tick && next == t then 1 else 0
    ensures RoundRobin.Visits(inited, cur, (if tick then 1 else 0) + k, t)
              == first + RoundRobin.Visits(inited, next, k, t)
  {
    if tick {
      VisitsFromFront(inited, cur, k, t);
    }
  }

  lemma {:induction false} TurnsAreVisits(s: KState, es: seq<Event>, t: nat)
    requires Inv(s) && Runnable(s, es) && NoLaunch(s, es)
    ensures RoundRobin.SomeInitialized(s.inited)
    ensures Turns(s, es, t) == RoundRobin.Visits(s.inited, s.scheduled, Ticks(es), t)
    decreases |es|
  {
    if es == [] {
      SomeTerminal(s);
    } else {
      var r, first := FirstTurn(s, es, t);
      TurnsAreVisits(r, es[1..], t);
      FirstVisit(s.inited, s.scheduled, r.scheduled, es[0].TickEvent?, Ticks(es[1..]), t, first);
    }
  }

  /**
    Fairness over every run: whatever the processes and the users do, k ticks give each of the m
    terminals in use floor(k/m) or ceil(k/m) turns, as long as no further terminal is launched.
   */
  lemma FairTurns(s: KState, es: seq<Event>, t: nat)
    requires Inv(s) && Runnable(s, es) && NoLaunch(s, es) && t < MAX_TERMINALS && s.inited[t]
    ensures RoundRobin.FairShare(Ticks(es), RoundRobin.Count(s.inited), Turns(s, es, t))
  {
    TurnsAreVisits(s, es, t);
    RoundRobin.Fairness(s.inited, s.scheduled, Ticks(es), t);
  }

  // ---------------------------------------------------------------- resuming

  /** Terminal t is not scheduled in any state of the run. */
  ghost predicate NeverScheduled(s: KState, es: seq<Event>, t: nat)
    requires Inv(s) && Runnable(s, es)
    decreases |es|
  {
    s.scheduled != t && (es == [] || (StepKeepsInv(s, es[0]); NeverScheduled(Step(s, es[0]), es[1..], t)))
  }

  /** The process of t is waiting: it is not the running one, and its context is ctx. */
  ghost predicate Waiting(s: KState, t: nat, pid: nat, ctx: Context)
    requires Inv(s) && t < MAX_TERMINALS
  {
    && s.inited[t] && s.activePid[t] == pid && pid < NUM_PIDS
    && s.current != Some(pid) && s.pcbs[pid].suspended == ctx
  }

  lemma TopsDiffer(s: KState, t: nat, u: nat)
    requires Inv(s) && t < MAX_TERMINALS && u < MAX_TERMINALS && t != u && s.inited[t] && s.inited[u]
    ensures s.activePid[t] != s.activePid[u]
  {
    InitializedByChain(s, t);
    InitializedByChain(s, u);
    TopOfChain(s, t);
    TopOfChain(s, u);
    assert ChainsOf(s)[t][0] == s.activePid[t] && ChainsOf(s)[u][0] == s.activePid[u];
  }

  lemma TickLeavesWaiting(s: KState, t: nat, pid: nat, ctx: Context, c: Context)
    requires Inv(s) && t < MAX_TERMINALS && Waiting(s, t, pid, ctx)
    requires RoundRobin.SomeInitialized(s.inited) && Tick(s, c).scheduled != t
    ensures Inv(Tick(s, c)) && Waiting(Tick(s, c), t, pid, ctx)
  {
    TickKeepsInv(s, c);
    TopsDiffer(s, t, Tick(s, c).scheduled);
  }

  lemma SwitchLeavesWaiting(s: KState, t: nat, pid: nat, ctx: Context, target: nat, c: Context)
    requires Inv(s) && target < MAX_TERMINALS && t < MAX_TERMINALS && Waiting(s, t, pid, ctx)
    ensures Inv(Switch(s, target, c)) && Waiting(Switch(s, target, c), t, pid, ctx)
  {
    SwitchKeepsInv(s, target, c);
    SwitchIs(s, target, c);
    if s.active != target && !s.inited[target] {
      PidsInRange(ProcsOf(s), ChainsOf(s), t);
      InitializedByChain(s, t);
      TopOfChain(s, t);
      SpawnLeavesWaiting(Swapped(s, target), t, pid, target, c);
    }
  }

  lemma SpawnLeavesWaiting(s: KState, t: nat, pid: nat, a: nat, c: Context)
    requires Wf(s) && t < MAX_TERMINALS && s.activePid[t] == pid && s.inited[t] && s.pcbs[pid].inUse
    requires a < MAX_TERMINALS && s.active == a && t != a && pid != a
    ensures var r := Spawn(s, a, c);
            Wf(r) && r.inited[t] && r.activePid[t] == pid && r.current == Some(a)
                && r.pcbs[pid].suspended == s.pcbs[pid].suspended
  {
    SpawnRewrites(s, a, c, pid);
  }

  lemma ExecuteLeavesWaiting(s: KState, t: nat, pid: nat, ctx: Context, runnable: bool, c: Context)
    requires Inv(s) && Enabled(s, ExecuteEvent(runnable, c)) && t < MAX_TERMINALS && Waiting(s, t, pid, ctx)
    requires s.scheduled != t
    ensures Inv(Execute(s, runnable, c)) && Waiting(Execute(s, runnable, c), t, pid, ctx)
  {
    ExecuteKeepsInv(s, runnable, c);
    if runnable && FirstFree(s.pcbs, 0) != -1 {
      FirstFreeIsFresh(ProcsOf(s), ChainsOf(s));
      TopsKnowTheirPid(ProcsOf(s), ChainsOf(s));
    }
  }

  lemma HaltLeavesWaiting(s: KState, t: nat, pid: nat, ctx: Context, c: Context)
    requires Inv(s) && Enabled(s, HaltEvent(c)) && t < MAX_TERMINALS && Waiting(s, t, pid, ctx) && s.scheduled != t
    ensures Inv(Step(s, HaltEvent(c))) && Waiting(Step(s, HaltEvent(c)), t, pid, ctx)
  {
    StepKeepsInv(s, HaltEvent(c));
    if s.activePid[s.scheduled] < MAX_TERMINALS {
      RestartLeavesWaiting(s, t, pid, ctx, c);
    } else {
      ReturnLeavesWaiting(s, t, pid, ctx, c);
    }
  }

  lemma RestartLeavesWaiting(s: KState, t: nat, pid: nat, ctx: Context, c: Context)
    requires Inv(s) && Enabled(s, HaltEvent(c)) && t < MAX_TERMINALS && Waiting(s, t, pid, ctx) && s.scheduled != t
    requires s.activePid[s.scheduled] < MAX_TERMINALS && Inv(Step(s, HaltEvent(c)))
    ensures Waiting(Step(s, HaltEvent(c)), t, pid, ctx)
  {
    HaltIsDefined(s);
    BaseShellKeepsPid(s);
    TopsDiffer(s, t, s.scheduled);
  }

  lemma ReturnLeavesWaiting(s: KState, t: nat, pid: nat, ctx: Context, c: Context)
    requires Inv(s) && Enabled(s, HaltEvent(c)) && t < MAX_TERMINALS && Waiting(s, t, pid, ctx) && s.scheduled != t
    requires s.activePid[s.scheduled] >= MAX_TERMINALS && Inv(Step(s, HaltEvent(c)))
    ensures Waiting(Step(s, HaltEvent(c)), t, pid, ctx)
  {
    var a := s.scheduled;
    HaltIsDefined(s);
    ParentOnChain(ProcsOf(s), ChainsOf(s), a);
    InitializedByChain(s, t);
    TopOfChain(s, t);
    ChainHeads(ChainsOf(s), t, a);
  }

  lemma ChainHeads(cs: Chains, t: nat, u: nat)
    requires Disjoint(cs) && t < |cs| && u < |cs| && t != u && |cs[t]| > 0 && |cs[u]| > 1
    ensures cs[t][0] != cs[u][1]
  {
  }

  lemma StepLeavesWaiting(s: KState, e: Event, t: nat, pid: nat, ctx: Context)
    requires Inv(s) && Enabled(s, e) && t < MAX_TERMINALS && Waiting(s, t, pid, ctx)
    requires s.scheduled != t && Step(s, e).scheduled != t
    ensures Inv(Step(s, e)) && Waiting(Step(s, e), t, pid, ctx)
  {
    StepKeepsInv(s, e);
    match e
    case TickEvent(c) => TickLeavesWaiting(s, t, pid, ctx, c);
    case SwitchEvent(target, c) => SwitchLeavesWaiting(s, t, pid, ctx, target, c);
    case ExecuteEvent(runnable, c) => ExecuteLeavesWaiting(s, t, pid, ctx, runnable, c);
    case HaltEvent(c) => HaltLeavesWaiting(s, t, pid, ctx, c);
    case StoreEvent(addr, b) => StoreOnlyMemory(s, true, addr, b);
    case VideoEvent(off, b) => StoreOnlyMemory(s, false, VIDEO + off, b);
    case CursorEvent(_, _) =>
    case PutcEvent(c) => PutcOnlyMemory(s, c);
    case ClearEvent =>
    case BackspaceEvent =>
  }

  lemma {:induction false} RunLeavesWaiting(s: KState, es: seq<Event>, t: nat, pid: nat, ctx: Context)
    requires Inv(s) && Runnable(s, es) && t < MAX_TERMINALS && Waiting(s, t, pid, ctx) && NeverScheduled(s, es, t)
    ensures Waiting(Run(s, es), t, pid, ctx)
    decreases |es|
  {
    if es != [] {
      StepKeepsInv(s, es[0]);
      StepLeavesWaiting(s, es[0], t, pid, ctx);
      RunLeavesWaiting(Step(s, es[0]), es[1..], t, pid, ctx);
    }
  }

  /**
    A tick interrupts the process of terminal t in context ctx. However the other terminals run
    on, the tick that next schedules t makes that process current again, on its own stack and
    program page, and reloads exactly ctx.
   */
  lemma ResumesWhereInterrupted(s: KState, ctx: Context, es: seq<Event>, ctx': Context)
    requires Inv(s) && Coherent(s)
    requires var s1 := Step(s, TickEvent(ctx));
             Inv(s1) && Runnable(s1, es) && NeverScheduled(s1, es, s.scheduled)
    requires RoundRobin.SomeInitialized(s.inited)
    requires var s2 := Run(Step(s, TickEvent(ctx)), es);
             RoundRobin.SomeInitialized(s2.inited) && Tick(s2, ctx').scheduled == s.scheduled
    ensures var s3 := Tick(Run(Step(s, TickEvent(ctx)), es), ctx');
            && Inv(s3) && Settled(s3) && s3.current == s.current && s3.esp0 == s.esp0
            && s3.tables.dir[USER_SPACE_DIR_NUM] == s.tables.dir[USER_SPACE_DIR_NUM]
            && s3.pcbs[s3.current.value].suspended == ctx
  {
    var t, pid := s.scheduled, s.activePid[s.scheduled];
    var s1 := Tick(s, ctx);
    StepKeepsInv(s, TickEvent(ctx));
    TickMakesWaiting(s, ctx);
    RunLeavesWaiting(s1, es, t, pid, ctx);
    var s2 := Run(s1, es);
    TickResumes(s2, t, pid, ctx, ctx');
    SamePage(s, Tick(s2, ctx'));
  }

  /** With two terminals in use, every second tick resumes the same process where it was interrupted. */
  lemma TwoTicksResume(s: KState, ctx: Context, ctx': Context)
    requires Inv(s) && Coherent(s) && RoundRobin.SomeInitialized(s.inited)
    requires RoundRobin.Next(s.inited, s.scheduled) != s.scheduled
    requires RoundRobin.Next(s.inited, RoundRobin.Next(s.inited, s.scheduled)) == s.scheduled
    ensures Inv(Tick(s, ctx))
    ensures var s2 := Tick(Tick(s, ctx), ctx');
            s2.current == s.current && s2.current.value < NUM_PIDS && s2.pcbs[s2.current.value].suspended == ctx
  {
    TickKeepsInv(s, ctx);
    TickKeepsInv(Tick(s, ctx), ctx');
    assert Run(Step(s, TickEvent(ctx)), []) == Tick(s, ctx);
    ResumesWhereInterrupted(s, ctx, [], ctx');
  }

  lemma TickMakesWaiting(s: KState, ctx: Context)
    requires Inv(s) && Coherent(s) && RoundRobin.SomeInitialized(s.inited) && Tick(s, ctx).scheduled != s.scheduled
    ensures Inv(Tick(s, ctx)) && Waiting(Tick(s, ctx), s.scheduled, s.activePid[s.scheduled], ctx)
  {
    TickKeepsInv(s, ctx);
    TopsKnowTheirPid(ProcsOf(s), ChainsOf(s));
    TopsDiffer(s, s.scheduled, Tick(s, ctx).scheduled);
  }

  lemma TickResumes(s: KState, t: nat, pid: nat, ctx: Context, c: Context)
    requires Inv(s) && t < MAX_TERMINALS && Waiting(s, t, pid, ctx)
    requires RoundRobin.SomeInitialized(s.inited) && Tick(s, c).scheduled == t
    ensures Inv(Tick(s, c)) && Settled(Tick(s, c)) && Tick(s, c).activePid[t] == pid
    ensures Tick(s, c).current == Some(pid) && Tick(s, c).pcbs[pid].suspended == ctx
  {
    TickKeepsInv(s, c);
  }

  // ---------------------------------------------------------------- the first launch of a terminal

  /**
    Whose context a tick saves: that of the scheduled terminal's process exactly if it is the
    current one. During the first launch of a terminal it is not.
   */
  lemma TickSavesContext(s: KState)
    requires Inv(s)
    ensures RoundRobin.SomeInitialized(s.inited)
    ensures (forall ctx :: Tick(s, ctx).pcbs[s.activePid[s.scheduled]].suspended == ctx)
            <==> s.current == Some(s.activePid[s.scheduled])
  {
    assert s.inited[0];
    var p := s.activePid[s.scheduled];
    if s.current != Some(p) {
      var other := Context(s.pcbs[p].suspended.esp + 1, 0);
      assert Tick(s, other).pcbs[p].suspended == s.pcbs[p].suspended != other;
    }
  }

  /** In r, the process of s's scheduled terminal has been put aside for the first shell of target. */
  ghost predicate Launching(s: KState, r: KState, target: nat)
    requires Wf(s) && Inv(r) && target < MAX_TERMINALS
  {
    var p := s.activePid[s.scheduled];
    && r.scheduled == s.scheduled && r.inited[r.scheduled] && r.inited[target] && target != r.scheduled
    && r.activePid[r.scheduled] == p && r.current == Some(target) && p != target
    && r.pcbs[p].suspended == s.pcbs[p].suspended
  }

  lemma SwitchLaunches(s: KState, target: nat, c: Context)
    requires Inv(s) && Coherent(s) && target < MAX_TERMINALS && !s.inited[target]
    ensures Inv(Switch(s, target, c)) && Launching(s, Switch(s, target, c), target)
  {
    SwitchKeepsInv(s, target, c);
    SwitchIs(s, target, c);
    TopsKnowTheirPid(ProcsOf(s), ChainsOf(s));
    if s.activePid[s.scheduled] < MAX_TERMINALS {
      BaseAlone(ProcsOf(s), ChainsOf(s), s.scheduled);
    }
    SpawnRewrites(Swapped(s, target), target, c, s.activePid[s.scheduled]);
  }

  lemma TickAfterLaunch(s: KState, r: KState, target: nat, ctx: Context)
    requires Wf(s) && Inv(r) && target < MAX_TERMINALS && Launching(s, r, target)
    ensures RoundRobin.SomeInitialized(r.inited) && Tick(r, ctx).scheduled != s.scheduled
    ensures var p := s.activePid[s.scheduled];
            && Tick(r, ctx).pcbs[target].suspended == ctx
            && Tick(r, ctx).pcbs[p].suspended == s.pcbs[p].suspended
  {
    RoundRobin.TurnPassesOn(r.inited, r.scheduled, target);
    TickKeepsInv(r, ctx);
  }

  /**
    The first use of a terminal makes its shell current before it is scheduled: the next tick saves
    the interrupted context with the new shell, and not with the process that was running.
   */
  lemma LaunchLosesContext(s: KState, target: nat, c: Context, ctx: Context)
    requires Inv(s) && Coherent(s) && target < MAX_TERMINALS && !s.inited[target]
    ensures var r, p := Switch(s, target, c), s.activePid[s.scheduled];
            && Inv(r) && RoundRobin.SomeInitialized(r.inited) && target != p
            && Tick(r, ctx).pcbs[target].suspended == ctx
            && Tick(r, ctx).pcbs[p].suspended == s.pcbs[p].suspended
  {
    SwitchLaunches(s, target, c);
    TickAfterLaunch(s, Switch(s, target, c), target, ctx);
  }

  /**
    What follows from it: the process that was running when a terminal was first used is not
    resumed where it was interrupted, but in the context that was last saved for it, if any was.
   */
  lemma LaunchResumesElsewhere(s: KState, target: nat, c: Context, ctx: Context, es: seq<Event>, ctx': Context)
    requires Inv(s) && Coherent(s) && target < MAX_TERMINALS && !s.inited[target]
    requires Inv(Switch(s, target, c)) && RoundRobin.SomeInitialized(Switch(s, target, c).inited)
    requires var r := Tick(Switch(s, target, c), ctx); Inv(r) && Runnable(r, es) && NeverScheduled(r, es, s.scheduled)
    requires var u := Run(Tick(Switch(s, target, c), ctx), es);
             RoundRobin.SomeInitialized(u.inited) && Tick(u, ctx').scheduled == s.scheduled
    ensures var u, p := Run(Tick(Switch(s, target, c), ctx), es), s.activePid[s.scheduled];
            Tick(u, ctx').current == Some(p) && Tick(u, ctx').pcbs[p].suspended == s.pcbs[p].suspended
  {
    SwitchLaunches(s, target, c);
    ResumedElsewhere(s, Switch(s, target, c), target, ctx, es, ctx');
  }

  lemma ResumedElsewhere(s: KState, r: KState, target: nat, ctx: Context, es: seq<Event>, ctx': Context)
    requires Wf(s) && Inv(r) && target < MAX_TERMINALS && Launching(s, r, target)
    requires RoundRobin.SomeInitialized(r.inited)
    requires Inv(Tick(r, ctx)) && Runnable(Tick(r, ctx), es) && NeverScheduled(Tick(r, ctx), es, s.scheduled)
    requires RoundRobin.SomeInitialized(Run(Tick(r, ctx), es).inited)
    requires Tick(Run(Tick(r, ctx), es), ctx').scheduled == s.scheduled
    ensures var s3, p := Tick(Run(Tick(r, ctx), es), ctx'), s.activePid[s.scheduled];
            s3.current == Some(p) && s3.pcbs[p].suspended == s.pcbs[p].suspended
  {
    var t, p := s.scheduled, s.activePid[s.scheduled];
    var stale := s.pcbs[p].suspended;
    TickAfterLaunch(s, r, target, ctx);
    TickLeavesWaiting(r, t, p, stale, ctx);
    RunLeavesWaiting(Tick(r, ctx), es, t, p, stale);
    TickResumes(Run(Tick(r, ctx), es), t, p, stale, ctx');
  }

  // ---------------------------------------------------------------- cursors

  function CursorOf(s: KState, t: nat): Cursor
    requires t < |s.saved|
  {
    if t == s.scheduled then s.cursor else s.saved[t]
  }

  /** A tick leaves every cursor where it was, unless it has to restore one that does not fit in eight bits. */
  lemma TickKeepsCursors(s: KState, ctx: Context, t: nat)
    requires Inv(s) && t < MAX_TERMINALS
    ensures RoundRobin.SomeInitialized(s.inited) && Inv(Tick(s, ctx))
    ensures CursorOf(Tick(s, ctx), t) == CursorOf(s, t)
            <==> t != RoundRobin.Next(s.inited, s.scheduled) ||
                 (0 <= CursorOf(s, t).x < 0x100 && 0 <= CursorOf(s, t).y < 0x100)
  {
    TickKeepsInv(s, ctx);
  }
}
