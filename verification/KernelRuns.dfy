/**
  Theorems about whole runs of the kernel: ticks, terminal switches, execute and halt by any
  process, prints and keys, interleaved in any enabled order.
 */
module KernelRuns {
  import opened Bytes
  import opened Paging
  import opened KernelState
  import opened ProcessForest
  import opened KernelInvariant
  import RoundRobin

  /** The events can happen one after the other, starting from s. */
  ghost predicate Runnable(s: KState, es: seq<Event>)
    requires Inv(s)
    decreases |es|
  {
    es == [] || (Enabled(s, es[0]) && (StepKeepsInv(s, es[0]); Runnable(Step(s, es[0]), es[1..])))
  }

  /** Safety over whole runs: the invariant holds in every state a run can reach. */
  ghost function Run(s: KState, es: seq<Event>): (r: KState)
    requires Inv(s) && Runnable(s, es)
    ensures Inv(r)
    decreases |es|
  {
    if es == [] then s
    else
      StepKeepsInv(s, es[0]);
      Run(Step(s, es[0]), es[1..])
  }

  /** One event of a run, and what the rest of the run has to start from. */
  lemma RunFirst(s: KState, e: Event, es: seq<Event>, r: KState)
    requires Inv(s) && Enabled(s, e) && r == Step(s, e) && Inv(r) && Runnable(r, es)
    ensures Runnable(s, [e] + es) && Run(s, [e] + es) == Run(r, es)
  {
    assert ([e] + es)[1..] == es;
  }

  // ---------------------------------------------------------------- calls return to their caller

  ghost function ChainOf(s: KState, t: nat): seq<nat>
    requires Inv(s) && t < MAX_TERMINALS
  {
    ChainsOf(s)[t]
  }

  lemma InitializedByChain(r: KState, t: nat)
    requires Inv(r) && t < MAX_TERMINALS
    ensures r.inited[t] <==> |ChainsOf(r)[t]| > 0
  {
    assert ChainOk(ProcsOf(r), ChainsOf(r)[t], t);
  }

  /** What an event in terminal a does to the chain of terminal t. */
  lemma ApplyIsLocal(cs: Chains, f: Effect, t: nat)
    requires t < |cs|
    ensures f.NoEffect? || f.t != t ==> Apply(cs, f)[t] == cs[t]
    ensures f.Push? && f.t == t ==> Apply(cs, f)[t] == [f.pid] + cs[t]
    ensures f.Pop? && f.t == t && |cs[t]| > 0 ==> Apply(cs, f)[t] == cs[t][1..]
  {
  }

  lemma BeginsElsewhere(s: KState, e: Event, t: nat)
    requires Inv(s) && Enabled(s, e) && t < MAX_TERMINALS && s.inited[t]
    ensures EffectOf(s, e) != Begin(t)
    ensures EffectOf(s, e) == Pop(t) ==> e.HaltEvent? && s.scheduled == t && |ChainOf(s, t)| >= 2
  {
    if s.activePid[t] >= MAX_TERMINALS {
      ParentOnChain(ProcsOf(s), ChainsOf(s), t);
    }
  }

  /** The part of a PCB that halt needs to get back to the parent. */
  ghost predicate SameReturn(a: Pcb, b: Pcb) {
    SameLinks(a, b) && a.caller == b.caller
  }

  /** The pid whose PCB an event rewrites, apart from the context the scheduler saves. */
  ghost predicate Rewrites(s: KState, e: Event, p: nat)
    requires Inv(s) && Enabled(s, e)
  {
    match e
    case SwitchEvent(target, _) => p == target && !s.inited[target]
    case ExecuteEvent(_, _) => p == FirstFree(s.pcbs, 0)
    case HaltEvent(_) => s.current == Some(p)
    case _ => false
  }

  lemma StepRewrites(s: KState, e: Event, p: nat)
    requires Inv(s) && Enabled(s, e) && p < NUM_PIDS && s.pcbs[p].inUse && !Rewrites(s, e, p)
    ensures Inv(Step(s, e)) && SameReturn(s.pcbs[p], Step(s, e).pcbs[p])
  {
    StepKeepsInv(s, e);
    match e
    case TickEvent(ctx) => TickRewrites(s, ctx, p);
    case SwitchEvent(target, ctx) => SwitchRewrites(s, target, ctx, p);
    case ExecuteEvent(_, _) => FirstFreeIsFresh(ProcsOf(s), ChainsOf(s));
    case HaltEvent(ctx) => HaltRewrites(s, ctx, p);
    case StoreEvent(addr, b) => StoreKeepsInv(s, true, addr, b);
    case VideoEvent(off, b) => StoreOnlyMemory(s, false, VIDEO + off, b);
    case CursorEvent(_, _) =>
    case PutcEvent(c) => PutcOnlyMemory(s, c);
    case ClearEvent =>
    case BackspaceEvent =>
  }

  lemma TickRewrites(s: KState, ctx: Context, p: nat)
    requires Wf(s) && RoundRobin.SomeInitialized(s.inited) && s.current.Some? && s.current.value < NUM_PIDS
    requires p < NUM_PIDS
    ensures SameReturn(s.pcbs[p], Tick(s, ctx).pcbs[p])
  {
  }

  lemma SwitchRewrites(s: KState, target: nat, ctx: Context, p: nat)
    requires Inv(s) && target < MAX_TERMINALS && p < NUM_PIDS && (p != target || s.inited[target])
    requires s.pcbs[p].inUse
    ensures Wf(Switch(s, target, ctx)) && SameReturn(s.pcbs[p], Switch(s, target, ctx).pcbs[p])
  {
    SwitchIs(s, target, ctx);
    if s.active != target && !s.inited[target] {
      SpawnRewrites(Swapped(s, target), target, ctx, p);
    }
  }

  lemma SpawnRewrites(s: KState, pid: nat, ctx: Context, p: nat)
    requires Wf(s) && pid < NUM_PIDS && p < NUM_PIDS && p != pid && s.pcbs[p].inUse
    ensures Wf(Spawn(s, pid, ctx)) && SameReturn(s.pcbs[p], Spawn(s, pid, ctx).pcbs[p])
    ensures Spawn(s, pid, ctx).pcbs[p].suspended == s.pcbs[p].suspended
  {
  }

  lemma HaltRewrites(s: KState, ctx: Context, p: nat)
    requires Inv(s) && Coherent(s) && p < NUM_PIDS && s.current != Some(p)
    requires s.activePid[s.scheduled] < MAX_TERMINALS ==> s.active == s.scheduled
    requires s.pcbs[p].inUse
    ensures SameReturn(s.pcbs[p], Step(s, HaltEvent(ctx)).pcbs[p])
  {
    HaltIsDefined(s);
    if s.activePid[s.scheduled] < MAX_TERMINALS {
      BaseShellKeepsPid(s);
    }
  }

  /** Which processes of terminal t an event can touch: only a halting one, at the top. */
  lemma RewritesOnChain(s: KState, e: Event, t: nat, p: nat)
    requires Inv(s) && Enabled(s, e) && t < MAX_TERMINALS && s.inited[t] && p in ChainOf(s, t) && Rewrites(s, e, p)
    ensures e.HaltEvent? && s.scheduled == t && p == ChainOf(s, t)[0]
  {
    var cs := ChainsOf(s);
    PidsInRange(ProcsOf(s), cs, t);
    if e.ExecuteEvent? {
      FirstFreeIsFresh(ProcsOf(s), cs);
    } else if e.HaltEvent? {
      assert ChainOk(ProcsOf(s), cs[s.scheduled], s.scheduled);
      assert p == cs[s.scheduled][0];
      ChainsApart(cs, t, s.scheduled, p);
    }
  }

  /** keep is the lower part of a chain. */
  ghost predicate IsSuffix(keep: seq<nat>, c: seq<nat>) {
    |keep| <= |c| && c[|c| - |keep|..] == keep
  }

  /** During the run, a process of t only halts while more than depth processes are on t's chain. */
  ghost predicate StaysAbove(s: KState, es: seq<Event>, t: nat, depth: nat)
    requires Inv(s) && Runnable(s, es) && t < MAX_TERMINALS
    decreases |es|
  {
    es == []
    || ((es[0].HaltEvent? && s.scheduled == t ==> |ChainOf(s, t)| > depth)
        && (StepKeepsInv(s, es[0]); StaysAbove(Step(s, es[0]), es[1..], t, depth)))
  }

  /** What one event does to the chain of a terminal in use. */
  lemma StepOnChain(s: KState, e: Event, t: nat)
    requires Inv(s) && Enabled(s, e) && t < MAX_TERMINALS && s.inited[t]
    ensures Inv(Step(s, e)) && Step(s, e).inited[t]
    ensures var c, c', pid := ChainOf(s, t), ChainOf(Step(s, e), t), FirstFree(s.pcbs, 0);
      c' == c || (pid >= 0 && c' == [pid] + c) || (e.HaltEvent? && s.scheduled == t && c != [] && c' == c[1..])
  {
    StepKeepsInv(s, e);
    BeginsElsewhere(s, e, t);
    ApplyIsLocal(ChainsOf(s), EffectOf(s, e), t);
    InitializedByChain(s, t);
    InitializedByChain(Step(s, e), t);
  }

  lemma StepKeepsSuffix(s: KState, e: Event, t: nat, keep: seq<nat>)
    requires Inv(s) && Enabled(s, e) && t < MAX_TERMINALS && s.inited[t]
    requires |keep| > 0 && IsSuffix(keep, ChainOf(s, t))
    requires e.HaltEvent? && s.scheduled == t ==> |ChainOf(s, t)| > |keep|
    ensures Inv(Step(s, e)) && Step(s, e).inited[t] && IsSuffix(keep, ChainOf(Step(s, e), t))
  {
    StepOnChain(s, e, t);
    SuffixSteps(keep, ChainOf(s, t), FirstFree(s.pcbs, 0));
  }

  lemma StepKeepsCallers(s: KState, e: Event, t: nat, keep: seq<nat>)
    requires Inv(s) && Enabled(s, e) && t < MAX_TERMINALS && s.inited[t] && IsSuffix(keep, ChainOf(s, t))
    requires e.HaltEvent? && s.scheduled == t ==> |ChainOf(s, t)| > |keep|
    ensures Inv(Step(s, e))
    ensures forall p :: p in keep ==> p < NUM_PIDS && SameReturn(s.pcbs[p], Step(s, e).pcbs[p])
  {
    StepKeepsInv(s, e);
    PidsInRange(ProcsOf(s), ChainsOf(s), t);
    SuffixSteps(keep, ChainOf(s, t), 0);
    forall p | p in keep
      ensures SameReturn(s.pcbs[p], Step(s, e).pcbs[p])
    {
      if Rewrites(s, e, p) {
        RewritesOnChain(s, e, t, p);
        TopNotInSuffix(ChainsOf(s), t, keep);
      }
      StepRewrites(s, e, p);
    }
  }

  lemma SuffixSteps(keep: seq<nat>, c: seq<nat>, pid: int)
    requires IsSuffix(keep, c)
    ensures pid >= 0 ==> IsSuffix(keep, [pid] + c)
    ensures |c| > |keep| ==> IsSuffix(keep, c[1..])
    ensures forall p :: p in keep ==> p in c
  {
    if |c| > |keep| {
      assert c[1..][|c| - 1 - |keep|..] == c[|c| - |keep|..];
    }
  }

  lemma TopNotInSuffix(cs: Chains, t: nat, keep: seq<nat>)
    requires t < |cs| && Disjoint(cs) && IsSuffix(keep, cs[t]) && |cs[t]| > |keep|
    ensures cs[t][0] !in keep
  {
    forall i | 0 <= i < |keep|
      ensures keep[i] != cs[t][0]
    {
      assert keep[i] == cs[t][|cs[t]| - |keep| + i];
    }
  }

  /** In r, terminal t still has the processes keep at the bottom, ready to be returned to. */
  ghost predicate KeptBelow(s: KState, r: KState, t: nat, keep: seq<nat>)
    requires Inv(s) && Inv(r) && t < MAX_TERMINALS
  {
    && r.inited[t] && IsSuffix(keep, ChainOf(r, t))
    && forall p :: p in keep ==> p < NUM_PIDS && SameReturn(s.pcbs[p], r.pcbs[p])
  }

  lemma KeptBelowTrans(a: KState, b: KState, c: KState, t: nat, keep: seq<nat>)
    requires Inv(a) && Inv(b) && Inv(c) && t < MAX_TERMINALS && KeptBelow(a, b, t, keep) && KeptBelow(b, c, t, keep)
    ensures KeptBelow(a, c, t, keep)
  {
  }

  lemma StepKeepsBelow(s: KState, e: Event, t: nat, keep: seq<nat>)
    requires Inv(s) && Enabled(s, e) && t < MAX_TERMINALS && s.inited[t]
    requires |keep| > 0 && IsSuffix(keep, ChainOf(s, t))
    requires e.HaltEvent? && s.scheduled == t ==> |ChainOf(s, t)| > |keep|
    ensures Inv(Step(s, e)) && KeptBelow(s, Step(s, e), t, keep)
  {
    StepKeepsSuffix(s, e, t, keep);
    StepKeepsCallers(s, e, t, keep);
  }

  /**
    Whatever else runs, in this terminal and in the others: as long as the processes started in
    terminal t after s only halt down to where the run began, the processes below are untouched
    and will return where they were called from.
   */
  lemma {:induction false} CallersAreKept(s: KState, es: seq<Event>, t: nat, keep: seq<nat>)
    requires Inv(s) && Runnable(s, es) && t < MAX_TERMINALS && s.inited[t]
    requires |keep| > 0 && IsSuffix(keep, ChainOf(s, t)) && StaysAbove(s, es, t, |keep|)
    ensures KeptBelow(s, Run(s, es), t, keep)
    decreases |es|
  {
    if es == [] {
      PidsInRange(ProcsOf(s), ChainsOf(s), t);
      SuffixSteps(keep, ChainOf(s, t), 0);
    } else {
      var r := Step(s, es[0]);
      StepKeepsBelow(s, es[0], t, keep);
      CallersAreKept(r, es[1..], t, keep);
      KeptBelowTrans(s, r, Run(r, es[1..]), t, keep);
    }
  }

  /** The net number of processes a run starts in terminal t. */
  ghost function Depth(s: KState, es: seq<Event>, t: nat): int
    requires Inv(s) && Runnable(s, es) && t < MAX_TERMINALS
    decreases |es|
  {
    if es == [] then 0
    else
      StepKeepsInv(s, es[0]);
      (match EffectOf(s, es[0])
       case Push(a, _) => if a == t then 1 else 0
       case Pop(a) => if a == t then -1 else 0
       case _ => 0)
      + Depth(Step(s, es[0]), es[1..], t)
  }

  lemma {:induction false} DepthIsLength(s: KState, es: seq<Event>, t: nat)
    requires Inv(s) && Runnable(s, es) && t < MAX_TERMINALS && s.inited[t]
    ensures |ChainOf(Run(s, es), t)| == |ChainOf(s, t)| + Depth(s, es, t)
    decreases |es|
  {
    if es != [] {
      StepKeepsInv(s, es[0]);
      BeginsElsewhere(s, es[0], t);
      ApplyIsLocal(ChainsOf(s), EffectOf(s, es[0]), t);
      InitializedByChain(s, t);
      InitializedByChain(Step(s, es[0]), t);
      DepthIsLength(Step(s, es[0]), es[1..], t);
    }
  }

  /** In r, terminal t is as it was in s, and its process is running again. */
  ghost predicate GivenBack(s: KState, r: KState, t: nat)
    requires Inv(s) && Inv(r) && t < MAX_TERMINALS
  {
    && Coherent(r) && r.scheduled == t && ChainOf(r, t) == ChainOf(s, t)
    && r.activePid[t] == s.activePid[t] && r.current == s.current && r.esp0 == s.esp0
    && r.tables.dir[USER_SPACE_DIR_NUM] == s.tables.dir[USER_SPACE_DIR_NUM]
    && forall p :: p in ChainOf(s, t) ==> p < NUM_PIDS && SameReturn(s.pcbs[p], r.pcbs[p])
  }

  /**
    LIFO return: the program that a process starts in terminal t, and everything that program
    starts in turn, gives the terminal back exactly as it was. When the halts balance the
    executes and the program itself halts, the caller is the active process again with its own
    program page and kernel stack, and the context handed back is the one execute was called from.
   */
  lemma ExecuteReturns(s: KState, ctx: Context, es: seq<Event>, ctx': Context)
    requires Inv(s) && Coherent(s) && s.active == s.scheduled && FirstFree(s.pcbs, 0) != -1
    requires var s1 := Execute(s, true, ctx);
             && Inv(s1) && Runnable(s1, es) && StaysAbove(s1, es, s.scheduled, |ChainOf(s1, s.scheduled)|)
             && Depth(s1, es, s.scheduled) == 0
    requires var s2 := Run(Execute(s, true, ctx), es);
             Coherent(s2) && s2.scheduled == s.scheduled
    ensures var t, s2 := s.scheduled, Run(Execute(s, true, ctx), es);
            && s2.pcbs[s2.current.value].caller == ctx
            && Enabled(s2, HaltEvent(ctx'))
            && Inv(Step(s2, HaltEvent(ctx'))) && GivenBack(s, Step(s2, HaltEvent(ctx')), t)
  {
    var t, s1 := s.scheduled, Execute(s, true, ctx);
    var pid, c := FirstFree(s.pcbs, 0), ChainOf(s, t);
    ExecuteKeepsInv(s, true, ctx);
    FirstFreeIsFresh(ProcsOf(s), ChainsOf(s));
    assert ChainOf(s1, t) == [pid] + c;
    CallersAreKept(s1, es, t, [pid] + c);
    DepthIsLength(s1, es, t);
    var s2 := Run(s1, es);
    assert ChainOf(s2, t) == [pid] + c;
    assert s2.activePid[t] == pid by { assert ChainOk(ProcsOf(s2), ChainOf(s2, t), t); }
    assert pid in [pid] + c;
    assert s1.pcbs[pid].caller == ctx;
    CallerIsBack(s, s1, s2, ctx, ctx', pid);
  }

  /** The shortest such run: a program that is started and halts at once. */
  lemma ExecuteThenHalt(s: KState, ctx: Context, ctx': Context)
    requires Inv(s) && Coherent(s) && s.active == s.scheduled && FirstFree(s.pcbs, 0) != -1
    ensures var s1 := Execute(s, true, ctx);
            Inv(s1) && Enabled(s1, HaltEvent(ctx')) && Inv(Step(s1, HaltEvent(ctx')))
            && GivenBack(s, Step(s1, HaltEvent(ctx')), s.scheduled)
  {
    ExecuteKeepsInv(s, true, ctx);
    assert Run(Execute(s, true, ctx), []) == Execute(s, true, ctx);
    FirstFreeIsFresh(ProcsOf(s), ChainsOf(s));
    ExecuteReturns(s, ctx, [], ctx');
  }

  lemma CallerIsBack(s: KState, s1: KState, s2: KState, ctx: Context, ctx': Context, pid: nat)
    requires Inv(s) && Coherent(s) && s.active == s.scheduled && pid == FirstFree(s.pcbs, 0) && pid >= MAX_TERMINALS
    requires s1 == Execute(s, true, ctx)
    requires Inv(s2) && Coherent(s2) && s2.scheduled == s.scheduled && s2.activePid[s.scheduled] == pid
    requires ChainOf(s2, s.scheduled) == [pid] + ChainOf(s, s.scheduled)
    requires forall p :: p in ChainOf(s, s.scheduled) ==> p < NUM_PIDS && SameReturn(s1.pcbs[p], s2.pcbs[p])
    ensures Enabled(s2, HaltEvent(ctx')) && Inv(Step(s2, HaltEvent(ctx')))
    ensures GivenBack(s, Step(s2, HaltEvent(ctx')), s.scheduled)
  {
    var t, e := s.scheduled, HaltEvent(ctx');
    HaltInPlace(s2, ctx');
    StepKeepsInv(s2, e);
    ApplyIsLocal(ChainsOf(s2), EffectOf(s2, e), t);
    forall p | p in ChainOf(s, t)
      ensures p < NUM_PIDS && SameReturn(s.pcbs[p], Step(s2, e).pcbs[p])
    {
      CallerUntouched(s, s1, s2, ctx, ctx', pid, p);
    }
    InitializedByChain(s, t);
    BackInPlace(s, Step(s2, e), t);
  }

  lemma BackInPlace(s: KState, r: KState, t: nat)
    requires Inv(s) && Inv(r) && Coherent(s) && Coherent(r) && s.scheduled == r.scheduled == t
    requires ChainOf(r, t) == ChainOf(s, t) && |ChainOf(s, t)| > 0
    requires forall p :: p in ChainOf(s, t) ==> p < NUM_PIDS && SameReturn(s.pcbs[p], r.pcbs[p])
    ensures GivenBack(s, r, t)
  {
    TopOfChain(s, t);
    TopOfChain(r, t);
    SamePage(s, r);
  }

  lemma HaltInPlace(s: KState, ctx: Context)
    requires Inv(s) && Coherent(s) && s.activePid[s.scheduled] >= MAX_TERMINALS
    ensures Enabled(s, HaltEvent(ctx)) && EffectOf(s, HaltEvent(ctx)) == Pop(s.scheduled)
    ensures Inv(Step(s, HaltEvent(ctx))) && Coherent(Step(s, HaltEvent(ctx)))
    ensures Step(s, HaltEvent(ctx)).scheduled == s.scheduled
  {
    HaltKeepsInv(s, ctx);
  }

  lemma TopOfChain(s: KState, t: nat)
    requires Inv(s) && t < MAX_TERMINALS && |ChainOf(s, t)| > 0
    ensures s.activePid[t] == ChainOf(s, t)[0]
  {
    assert ChainOk(ProcsOf(s), ChainOf(s, t), t);
  }

  lemma CallerUntouched(s: KState, s1: KState, s2: KState, ctx: Context, ctx': Context, pid: nat, p: nat)
    requires Inv(s) && Coherent(s) && s.active == s.scheduled && pid == FirstFree(s.pcbs, 0) && pid >= MAX_TERMINALS
    requires s1 == Execute(s, true, ctx) && p in ChainOf(s, s.scheduled)
    requires Inv(s2) && Coherent(s2) && s2.scheduled == s.scheduled && s2.activePid[s.scheduled] == pid
    requires p < NUM_PIDS && SameReturn(s1.pcbs[p], s2.pcbs[p])
    ensures Enabled(s2, HaltEvent(ctx')) && Inv(Step(s2, HaltEvent(ctx')))
    ensures SameReturn(s.pcbs[p], Step(s2, HaltEvent(ctx')).pcbs[p])
  {
    PidsInRange(ProcsOf(s), ChainsOf(s), s.scheduled);
    assert p != pid;
    StepRewrites(s, ExecuteEvent(true, ctx), p);
    StepRewrites(s2, HaltEvent(ctx'), p);
  }

  lemma SamePage(s: KState, r: KState)
    requires Inv(s) && Inv(r) && Coherent(s) && Coherent(r) && s.scheduled == r.scheduled
    requires s.activePid[s.scheduled] == r.activePid[s.scheduled]
    ensures s.current == r.current && s.esp0 == r.esp0
    ensures s.tables.dir[USER_SPACE_DIR_NUM] == r.tables.dir[USER_SPACE_DIR_NUM]
  {
  }

  /** A run that is balanced in every terminal restores the set of used slots. */
  lemma BalancedRunFreesSlots(s: KState, es: seq<Event>)
    requires Inv(s) && Runnable(s, es)
    requires forall t :: 0 <= t < MAX_TERMINALS && s.inited[t] ==>
               StaysAbove(s, es, t, |ChainOf(s, t)|) && Depth(s, es, t) == 0
    requires Run(s, es).inited == s.inited
    ensures ChainsOf(Run(s, es)) == ChainsOf(s)
    ensures forall p :: 0 <= p < NUM_PIDS ==> Run(s, es).pcbs[p].inUse == s.pcbs[p].inUse
  {
    var r := Run(s, es);
    forall t | 0 <= t < MAX_TERMINALS
      ensures ChainsOf(r)[t] == ChainsOf(s)[t]
    {
      InitializedByChain(s, t);
      InitializedByChain(r, t);
      if s.inited[t] {
        CallersAreKept(s, es, t, ChainOf(s, t));
        DepthIsLength(s, es, t);
      }
    }
    SameChainsSameSlots(s, r);
  }

  lemma SameChainsSameSlots(s: KState, r: KState)
    requires Inv(s) && Inv(r) && forall t :: 0 <= t < MAX_TERMINALS ==> ChainsOf(r)[t] == ChainsOf(s)[t]
    ensures ChainsOf(r) == ChainsOf(s)
    ensures forall p :: 0 <= p < NUM_PIDS ==> r.pcbs[p].inUse == s.pcbs[p].inUse
  {
    assert Forest(ProcsOf(s), ChainsOf(s)) && Forest(ProcsOf(r), ChainsOf(r));
  }
}
