/** Runs from boot that reach the states in which the kernel does not do what it should. */
module KernelExamples {
  import opened Bytes
  import opened Paging
  import opened KernelState
  import opened ProcessForest
  import opened KernelInvariant
  import opened KernelRuns
  import opened KernelScheduling
  import opened KernelInterrupts
  import RoundRobin

  /** The state a kernel boots into: one shell, in the terminal shown. */
  ghost predicate JustBooted(s: KState) {
    Inv(s) && Settled(s) && s.active == s.scheduled == 0 && ChainsOf(s) == [[0], [], []]
  }

  lemma OneShell(s: KState)
    requires JustBooted(s)
    ensures s.inited == [true, false, false] && s.current == Some(0) && s.activePid[0] == 0
  {
    InitializedByChain(s, 0);
    InitializedByChain(s, 1);
    InitializedByChain(s, 2);
    TopOfChain(s, 0);
  }

  lemma AfterLaunch(s: KState, c: Context)
    requires JustBooted(s)
    ensures Enabled(s, SwitchEvent(1, c))
    ensures var r := Step(s, SwitchEvent(1, c));
      Inv(r) && r.active == 1 && r.scheduled == 0 && r.inited == [true, true, false] && ChainsOf(r) == [[0], [1], []]
  {
    OneShell(s);
    SwitchKeepsInv(s, 1, c);
    SwitchIs(s, 1, c);
    SpawnedShell(Swapped(s, 1), 1, c);
    assert s.inited[1 := true] == [true, true, false];
  }

  lemma SpawnedShell(m: KState, pid: nat, c: Context)
    requires Wf(m) && 0 < pid < NUM_PIDS
    ensures var r := Spawn(m, pid, c);
      r.active == m.active && r.scheduled == m.scheduled && r.inited == m.inited[m.active := true]
  {
  }

  /** A tick with terminals 0 and 1 in use passes from one to the other. */
  lemma AfterTick(s: KState, c: Context)
    requires Inv(s) && s.inited == [true, true, false] && s.scheduled < 2
    ensures var r := Step(s, TickEvent(c));
      && Inv(r) && Settled(r) && r.active == s.active && r.scheduled == 1 - s.scheduled && r.inited == s.inited
      && ChainsOf(r) == ChainsOf(s)
  {
    TickKeepsInv(s, c);
    RoundRobin.TurnPassesOn(s.inited, s.scheduled, 1 - s.scheduled);
  }

  /** The run: Alt-F2, and two ticks. */
  function LookElsewhere(c: Context): seq<Event> {
    [SwitchEvent(1, c)] + ([TickEvent(c)] + ([TickEvent(c)] + []))
  }

  lemma ElsewhereIsReached(s: KState, c: Context)
    requires JustBooted(s)
    ensures Runnable(s, LookElsewhere(c))
    ensures var r := Run(s, LookElsewhere(c));
      Settled(r) && r.active == 1 && r.scheduled == 0 && ChainsOf(r) == [[0], [1], []]
  {
    AfterLaunch(s, c);
    var s1 := Step(s, SwitchEvent(1, c));
    AfterTick(s1, c);
    var s2 := Step(s1, TickEvent(c));
    AfterTick(s2, c);
    var s3 := Step(s2, TickEvent(c));
    assert Runnable(s3, []) && Run(s3, []) == s3;
    RunFirst(s2, TickEvent(c), [], s3);
    RunFirst(s1, TickEvent(c), [TickEvent(c)] + [], s2);
    RunFirst(s, SwitchEvent(1, c), [TickEvent(c)] + ([TickEvent(c)] + []), s1);
  }

  /**
    From boot, Alt-F2 and two ticks lead to a settled state in which the first shell runs while the
    second terminal is shown, and there are free slots. A program that the shell starts there, and
    its own end, leave a state that is not good.
   */
  lemma ExecuteElsewhereBreaks(s: KState, c: Context, ctx: Context)
    requires JustBooted(s)
    ensures Runnable(s, LookElsewhere(c))
    ensures var r := Run(s, LookElsewhere(c));
      && Settled(r) && r.active == 1 && r.scheduled == 0 && r.activePid[0] == 0 && FirstFree(r.pcbs, 0) != -1
      && r.current.Some? && r.current.value < NUM_PIDS && r.pcbs[r.current.value].pid == 0
      && !StaysGood(r, Execute(r, true, ctx)) && !StaysGood(r, Halt(r, ctx))
  {
    ElsewhereIsReached(s, c);
    BreaksElsewhere(Run(s, LookElsewhere(c)), ctx);
  }

  lemma BreaksElsewhere(r: KState, ctx: Context)
    requires Inv(r) && Settled(r) && r.active == 1 && r.scheduled == 0 && ChainsOf(r) == [[0], [1], []]
    ensures r.activePid[0] == 0 && FirstFree(r.pcbs, 0) != -1
    ensures r.current.Some? && r.current.value < NUM_PIDS && r.pcbs[r.current.value].pid == 0
    ensures !StaysGood(r, Execute(r, true, ctx)) && !StaysGood(r, Halt(r, ctx))
  {
    InitializedByChain(r, 0);
    TopOfChain(r, 0);
    BaseAlone(ProcsOf(r), ChainsOf(r), 0);
    assert !r.pcbs[3].inUse by {
      assert Forest(ProcsOf(r), ChainsOf(r));
      assert !OnSomeChain(ChainsOf(r), 3);
    }
    NeedsActiveTerminal(r, ctx);
  }

  lemma SlotIsFree(s: KState)
    requires JustBooted(s)
    ensures FirstFree(s.pcbs, 0) != -1
  {
    assert !s.pcbs[3].inUse by {
      assert Forest(ProcsOf(s), ChainsOf(s));
      assert !OnSomeChain(ChainsOf(s), 3);
    }
  }

  lemma TickInOneTerminal(m: KState, c: Context)
    requires Inv(m) && m.inited == [true, false, false] && m.scheduled == 0
    ensures Tick(m, c).scheduled == 0 && Tick(m, c).active == m.active && Tick(m, c).current == Some(m.activePid[0])
  {
    TickKeepsInv(m, c);
  }

  /**
    A tick inside execute, in the only terminal in use: the shell is interrupted after it has mapped
    the page of the program it starts, and goes on at once. The program is started in the shell's page.
   */
  lemma TickInsideExecute(s: KState, c: Context, ctx: Context)
    requires JustBooted(s)
    ensures FirstFree(s.pcbs, 0) != -1 && Inv(ExecuteBegins(s)) && Runnable(ExecuteBegins(s), [TickEvent(c)])
    ensures var pid, u := FirstFree(s.pcbs, 0), Run(ExecuteBegins(s), [TickEvent(c)]);
            && u.scheduled == s.scheduled && u.active == s.active && u.current == s.current
            && !Coherent(ExecuteEnds(u, pid, ctx))
            && ExecuteEnds(u, pid, ctx).tables.dir[USER_SPACE_DIR_NUM].frame == PhysFrame(0)
  {
    OneShell(s);
    SlotIsFree(s);
    BeginKeepsInv(s);
    var m, e := ExecuteBegins(s), TickEvent(c);
    TickInOneTerminal(m, c);
    TickKeepsInv(m, c);
    assert Runnable(Tick(m, c), []) && Run(Tick(m, c), []) == Tick(m, c);
    RunFirst(m, e, [], Tick(m, c));
    assert [e] + [] == [e];
    assert Ticks([e]) == 1;
    ExecuteInterrupted(s, [e], ctx);
  }
}
