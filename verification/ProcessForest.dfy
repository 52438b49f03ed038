/**
  The shape of the process table: per initialized terminal, one chain of parents from its active
  process down to its base shell. execute pushes on a chain and halt pops it.
 */
module ProcessForest {
  import opened Paging
  import opened KernelState

  /** The part of the state that execute and halt keep their bookkeeping in. */
  datatype Procs = Procs(inited: seq<bool>, activePid: seq<nat>, pcbs: seq<Pcb>)
  {
    predicate Wf() {
      |inited| == |activePid| == MAX_TERMINALS && |pcbs| == NUM_PIDS
    }
  }

  /** The pids met when following the parents, one sequence per terminal. */
  type Chains = seq<seq<nat>>

  /** c follows the parent links from pid top to base shell t. */
  ghost predicate IsChain(pcbs: seq<Pcb>, top: nat, c: seq<nat>, t: nat)
    requires |pcbs| == NUM_PIDS
  {
    && |c| > 0 && c[0] == top && c[|c| - 1] == t
    && (forall i :: 0 <= i < |c| ==> c[i] < NUM_PIDS && pcbs[c[i]].inUse && pcbs[c[i]].pid == c[i])
    && (forall i :: 0 <= i < |c| - 1 ==> c[i] >= MAX_TERMINALS && pcbs[c[i]].parent == c[i + 1])
    && pcbs[t].parent == -1
  }

  ghost predicate ChainOk(s: Procs, c: seq<nat>, t: nat)
    requires s.Wf() && t < MAX_TERMINALS
  {
    if s.inited[t] then IsChain(s.pcbs, s.activePid[t], c, t) else c == []
  }

  /** No pid occurs twice, be it in one chain or in two. */
  ghost predicate Disjoint(cs: Chains) {
    forall t, i, u, j {:trigger cs[t][i], cs[u][j]} ::
      (0 <= t < |cs| && 0 <= i < |cs[t]| && 0 <= u < |cs| && 0 <= j < |cs[u]| && cs[t][i] == cs[u][j])
      ==> (t == u && i == j)
  }

  ghost predicate OnSomeChain(cs: Chains, p: nat) {
    exists t :: 0 <= t < |cs| && p in cs[t]
  }

  /** In use are the three base slots and exactly the pids on the chains. */
  ghost predicate Forest(s: Procs, cs: Chains)
    requires s.Wf()
  {
    && |cs| == MAX_TERMINALS
    && (forall t :: 0 <= t < MAX_TERMINALS ==> ChainOk(s, cs[t], t))
    && (forall p :: 0 <= p < MAX_TERMINALS ==> s.pcbs[p].inUse)
    && Disjoint(cs)
    && (forall p :: MAX_TERMINALS <= p < NUM_PIDS ==> (s.pcbs[p].inUse <==> OnSomeChain(cs, p)))
  }

  // ---------------------------------------------------------------- chains are determined

  lemma {:induction false} ChainsAgree(pcbs: seq<Pcb>, top: nat, c: seq<nat>, d: seq<nat>, t: nat, i: nat)
    requires |pcbs| == NUM_PIDS && IsChain(pcbs, top, c, t) && IsChain(pcbs, top, d, t) && t < MAX_TERMINALS && i < |c|
    ensures i < |d| && c[..i + 1] == d[..i + 1]
  {
    if i > 0 {
      ChainsAgree(pcbs, top, c, d, t, i - 1);
      assert c[i - 1] == c[..i][i - 1] == d[..i][i - 1] == d[i - 1];
      assert c[..i + 1] == c[..i] + [c[i]] && d[..i + 1] == d[..i] + [d[i]];
    }
  }

  lemma ChainIsUnique(pcbs: seq<Pcb>, top: nat, c: seq<nat>, d: seq<nat>, t: nat)
    requires |pcbs| == NUM_PIDS && IsChain(pcbs, top, c, t) && IsChain(pcbs, top, d, t) && t < MAX_TERMINALS
    ensures c == d
  {
    ChainsAgree(pcbs, top, c, d, t, |c| - 1);
    ChainsAgree(pcbs, top, d, c, t, |d| - 1);
    assert c == c[..|c|] && d == d[..|d|];
  }

  /** There is only one way to follow the parents, so one may speak of the chain of a terminal. */
  lemma ForestIsUnique(s: Procs, cs: Chains, ds: Chains)
    requires s.Wf() && Forest(s, cs) && Forest(s, ds)
    ensures cs == ds
  {
    forall t | 0 <= t < MAX_TERMINALS
      ensures cs[t] == ds[t]
    {
      assert ChainOk(s, cs[t], t) && ChainOk(s, ds[t], t);
      if s.inited[t] {
        ChainIsUnique(s.pcbs, s.activePid[t], cs[t], ds[t], t);
      }
    }
  }

  // ---------------------------------------------------------------- framing

  ghost predicate SameLinks(a: Pcb, b: Pcb) {
    a.inUse == b.inUse && a.pid == b.pid && a.parent == b.parent
  }

  lemma ChainFramed(pcbs: seq<Pcb>, pcbs': seq<Pcb>, top: nat, c: seq<nat>, t: nat)
    requires |pcbs| == |pcbs'| == NUM_PIDS && IsChain(pcbs, top, c, t) && t < MAX_TERMINALS
    requires forall p :: p in c ==> p < NUM_PIDS && SameLinks(pcbs[p], pcbs'[p])
    ensures IsChain(pcbs', top, c, t)
  {
    assert c[|c| - 1] in c;
  }

  lemma ForestFramed(s: Procs, r: Procs, cs: Chains)
    requires s.Wf() && r.Wf() && Forest(s, cs)
    requires s.inited == r.inited && s.activePid == r.activePid
    requires forall p :: 0 <= p < NUM_PIDS ==> SameLinks(s.pcbs[p], r.pcbs[p])
    ensures Forest(r, cs)
  {
    forall t | 0 <= t < MAX_TERMINALS
      ensures ChainOk(r, cs[t], t)
    {
      assert ChainOk(s, cs[t], t);
      if s.inited[t] {
        ChainFramed(s.pcbs, r.pcbs, s.activePid[t], cs[t], t);
      }
    }
  }

  lemma PidsInRange(s: Procs, cs: Chains, t: nat)
    requires s.Wf() && Forest(s, cs) && t < MAX_TERMINALS
    ensures forall p :: p in cs[t] ==> p < NUM_PIDS && s.pcbs[p].inUse && (p >= MAX_TERMINALS || p == t)
  {
    assert ChainOk(s, cs[t], t);
  }

  lemma ChainsApart(cs: Chains, t: nat, u: nat, p: nat)
    requires Disjoint(cs) && t < |cs| && u < |cs| && p in cs[t] && p in cs[u]
    ensures t == u
  {
    var i :| 0 <= i < |cs[t]| && cs[t][i] == p;
    var j :| 0 <= j < |cs[u]| && cs[u][j] == p;
  }

  // ---------------------------------------------------------------- pushing

  /** The process table after pid was made the active process of a, over the former one. */
  ghost predicate Pushed(s: Procs, r: Procs, a: nat, pid: nat)
    requires s.Wf() && r.Wf() && a < MAX_TERMINALS && pid < NUM_PIDS
  {
    && r.inited == s.inited[a := true] && r.activePid == s.activePid[a := pid]
    && r.pcbs[pid].inUse && r.pcbs[pid].pid == pid
    && r.pcbs[pid].parent == (if s.inited[a] then s.activePid[a] else -1)
    && forall p :: 0 <= p < NUM_PIDS && p != pid ==> SameLinks(s.pcbs[p], r.pcbs[p])
  }

  lemma OnChainAfterPush(cs: Chains, a: nat, pid: nat, p: nat)
    requires a < |cs|
    ensures OnSomeChain(cs[a := [pid] + cs[a]], p) <==> p == pid || OnSomeChain(cs, p)
  {
    var ds := cs[a := [pid] + cs[a]];
    assert pid in ds[a];
    if OnSomeChain(cs, p) {
      var t :| 0 <= t < |cs| && p in cs[t];
      assert p in ds[t];
    }
    if OnSomeChain(ds, p) && p != pid {
      var t :| 0 <= t < |ds| && p in ds[t];
      assert p in cs[t];
    }
  }

  lemma DisjointAfterPush(cs: Chains, a: nat, pid: nat)
    requires a < |cs| && Disjoint(cs) && !OnSomeChain(cs, pid)
    ensures Disjoint(cs[a := [pid] + cs[a]])
  {
    var ds := cs[a := [pid] + cs[a]];
    forall t, i, u, j | 0 <= t < |ds| && 0 <= i < |ds[t]| && 0 <= u < |ds| && 0 <= j < |ds[u]| && ds[t][i] == ds[u][j]
      ensures t == u && i == j
    {
      var i', j' := if t == a then i - 1 else i, if u == a then j - 1 else j;
      assert i' >= 0 ==> cs[t][i'] == ds[t][i];
      assert j' >= 0 ==> cs[u][j'] == ds[u][j];
    }
  }

  lemma PushedChain(pcbs: seq<Pcb>, c: seq<nat>, t: nat, pid: nat)
    requires |pcbs| == NUM_PIDS && t < MAX_TERMINALS && MAX_TERMINALS <= pid < NUM_PIDS
    requires c != [] && IsChain(pcbs, c[0], c, t)
    requires pcbs[pid].inUse && pcbs[pid].pid == pid && pcbs[pid].parent == c[0]
    ensures IsChain(pcbs, pid, [pid] + c, t)
  {
  }

  lemma ChainAfterPush(s: Procs, r: Procs, c: seq<nat>, a: nat, pid: nat, t: nat)
    requires s.Wf() && r.Wf() && a < MAX_TERMINALS && pid < NUM_PIDS && Pushed(s, r, a, pid)
    requires t < MAX_TERMINALS && ChainOk(s, c, t) && pid !in c
    requires if s.inited[a] then pid >= MAX_TERMINALS else pid == a
    ensures ChainOk(r, if t == a then [pid] + c else c, t)
  {
    if s.inited[t] {
      ChainFramed(s.pcbs, r.pcbs, s.activePid[t], c, t);
      if t == a {
        PushedChain(r.pcbs, c, t, pid);
      }
    }
  }

  lemma FreshPid(s: Procs, cs: Chains, a: nat, pid: nat)
    requires s.Wf() && Forest(s, cs) && a < MAX_TERMINALS && pid < NUM_PIDS
    requires if s.inited[a] then pid >= MAX_TERMINALS && !s.pcbs[pid].inUse else pid == a
    ensures forall t :: 0 <= t < MAX_TERMINALS ==> pid !in cs[t]
  {
    forall t | 0 <= t < MAX_TERMINALS
      ensures pid !in cs[t]
    {
      PidsInRange(s, cs, t);
      assert ChainOk(s, cs[t], t);
    }
  }

  lemma PushKeepsForest(s: Procs, r: Procs, cs: Chains, a: nat, pid: nat)
    requires s.Wf() && r.Wf() && Forest(s, cs) && a < MAX_TERMINALS && pid < NUM_PIDS && Pushed(s, r, a, pid)
    requires if s.inited[a] then pid >= MAX_TERMINALS && !s.pcbs[pid].inUse else pid == a
    ensures Forest(r, cs[a := [pid] + cs[a]])
  {
    var ds := cs[a := [pid] + cs[a]];
    FreshPid(s, cs, a, pid);
    forall t | 0 <= t < MAX_TERMINALS
      ensures ChainOk(r, ds[t], t)
    {
      ChainAfterPush(s, r, cs[t], a, pid, t);
    }
    DisjointAfterPush(cs, a, pid);
    forall p | MAX_TERMINALS <= p < NUM_PIDS
      ensures r.pcbs[p].inUse <==> OnSomeChain(ds, p)
    {
      OnChainAfterPush(cs, a, pid, p);
    }
  }

  // ---------------------------------------------------------------- popping

  /** The process table after the active process of a went away and its parent took over. */
  ghost predicate Popped(s: Procs, r: Procs, a: nat)
    requires s.Wf() && r.Wf() && a < MAX_TERMINALS && s.activePid[a] < NUM_PIDS
  {
    var pid := s.activePid[a];
    && r.inited == s.inited && |r.activePid| == MAX_TERMINALS
    && r.activePid[a] == s.pcbs[pid].parent
    && (forall t :: 0 <= t < MAX_TERMINALS && t != a ==> r.activePid[t] == s.activePid[t])
    && !r.pcbs[pid].inUse
    && forall p :: 0 <= p < NUM_PIDS && p != pid ==> SameLinks(s.pcbs[p], r.pcbs[p])
  }

  lemma DisjointAfterPop(cs: Chains, a: nat)
    requires a < |cs| && |cs[a]| > 0 && Disjoint(cs)
    ensures Disjoint(cs[a := cs[a][1..]])
  {
    var ds := cs[a := cs[a][1..]];
    forall t, i, u, j | 0 <= t < |ds| && 0 <= i < |ds[t]| && 0 <= u < |ds| && 0 <= j < |ds[u]| && ds[t][i] == ds[u][j]
      ensures t == u && i == j
    {
      var i', j' := if t == a then i + 1 else i, if u == a then j + 1 else j;
      assert cs[t][i'] == ds[t][i] && cs[u][j'] == ds[u][j];
    }
  }

  lemma OnChainAfterPop(cs: Chains, a: nat, p: nat)
    requires a < |cs| && |cs[a]| > 0 && Disjoint(cs)
    ensures OnSomeChain(cs[a := cs[a][1..]], p) <==> p != cs[a][0] && OnSomeChain(cs, p)
  {
    var ds := cs[a := cs[a][1..]];
    if p != cs[a][0] && OnSomeChain(cs, p) {
      var t :| 0 <= t < |cs| && p in cs[t];
      assert p in ds[t];
    }
    if OnSomeChain(ds, p) {
      var t :| 0 <= t < |ds| && p in ds[t];
      assert p in cs[t];
      var j :| 0 <= j < |ds[t]| && ds[t][j] == p;
      assert cs[t][if t == a then j + 1 else j] == p;
      assert p != cs[a][0];
    }
  }

  /** The parent of an active process that is not a base shell is the next one on its chain. */
  lemma ParentOnChain(s: Procs, cs: Chains, a: nat)
    requires s.Wf() && Forest(s, cs) && a < MAX_TERMINALS && s.inited[a] && s.activePid[a] >= MAX_TERMINALS
    ensures |cs[a]| >= 2 && cs[a][0] == s.activePid[a] < NUM_PIDS && s.pcbs[s.activePid[a]].pid == s.activePid[a]
    ensures s.pcbs[s.activePid[a]].parent == cs[a][1] < NUM_PIDS && cs[a][1] != s.activePid[a]
    ensures s.pcbs[cs[a][1]].pid == cs[a][1]
  {
    assert ChainOk(s, cs[a], a);
    assert cs[a][0] != cs[a][1] by { assert Disjoint(cs); }
  }

  lemma PopKeepsForest(s: Procs, r: Procs, cs: Chains, a: nat)
    requires s.Wf() && r.Wf() && Forest(s, cs) && a < MAX_TERMINALS && s.inited[a]
    requires MAX_TERMINALS <= s.activePid[a] < NUM_PIDS && Popped(s, r, a)
    ensures |cs[a]| >= 2 && Forest(r, cs[a := cs[a][1..]])
  {
    ParentOnChain(s, cs, a);
    var ds := cs[a := cs[a][1..]];
    forall t | 0 <= t < MAX_TERMINALS
      ensures ChainOk(r, ds[t], t)
    {
      assert ChainOk(s, cs[t], t);
      if s.inited[t] {
        OnlyOnTop(cs, a, t);
        PidsInRange(s, cs, t);
        if t == a {
          TailIsChain(s.pcbs, s.activePid[a], cs[a], a);
        }
        ChainFramed(s.pcbs, r.pcbs, r.activePid[t], ds[t], t);
      }
    }
    DisjointAfterPop(cs, a);
    forall p | MAX_TERMINALS <= p < NUM_PIDS
      ensures r.pcbs[p].inUse <==> OnSomeChain(ds, p)
    {
      OnChainAfterPop(cs, a, p);
    }
  }

  lemma OnlyOnTop(cs: Chains, a: nat, t: nat)
    requires a < |cs| && t < |cs| && |cs[a]| > 0 && Disjoint(cs)
    ensures cs[a][0] !in cs[a := cs[a][1..]][t]
  {
  }

  lemma TailIsChain(pcbs: seq<Pcb>, top: nat, c: seq<nat>, t: nat)
    requires |pcbs| == NUM_PIDS && IsChain(pcbs, top, c, t) && |c| >= 2 && t < MAX_TERMINALS
    ensures IsChain(pcbs, c[1], c[1..], t)
  {
  }

  // ---------------------------------------------------------------- base shells

  /** The chain of a terminal whose base shell is active is that shell alone. */
  lemma BaseAlone(s: Procs, cs: Chains, a: nat)
    requires s.Wf() && Forest(s, cs) && a < MAX_TERMINALS && s.inited[a] && s.activePid[a] < MAX_TERMINALS
    ensures s.activePid[a] == a && cs[a] == [a] && s.pcbs[a].pid == a && s.pcbs[a].inUse
  {
    assert ChainOk(s, cs[a], a);
    assert cs[a][0] == s.activePid[a];
  }

  /** Replacing a base shell that is alone on its chain by a new one with the same pid keeps the forest. */
  lemma RestartedForest(s: Procs, r: Procs, cs: Chains, a: nat)
    requires s.Wf() && r.Wf() && Forest(s, cs) && a < MAX_TERMINALS && cs[a] == [a]
    requires r.inited == s.inited && r.activePid == s.activePid
    requires r.pcbs[a].inUse && r.pcbs[a].pid == a && r.pcbs[a].parent == -1
    requires forall p :: 0 <= p < NUM_PIDS && p != a ==> SameLinks(s.pcbs[p], r.pcbs[p])
    ensures Forest(r, cs)
  {
    forall t | 0 <= t < MAX_TERMINALS
      ensures ChainOk(r, cs[t], t)
    {
      assert ChainOk(s, cs[t], t);
      if s.inited[t] && t != a {
        PidsInRange(s, cs, t);
        ChainFramed(s.pcbs, r.pcbs, s.activePid[t], cs[t], t);
      }
    }
  }

  /** With every other base slot taken, the first free pid is the base slot just released. */
  lemma FirstFreeIsBase(pcbs: seq<Pcb>, b: nat)
    requires |pcbs| == NUM_PIDS && b < MAX_TERMINALS && !pcbs[b].inUse
    requires forall p :: 0 <= p < MAX_TERMINALS && p != b ==> pcbs[p].inUse
    ensures FirstFree(pcbs, 0) == b
  {
  }

  /** With every base slot taken, the first free pid is not a base slot and is on no chain. */
  lemma FirstFreeIsFresh(s: Procs, cs: Chains)
    requires s.Wf() && Forest(s, cs)
    ensures FirstFree(s.pcbs, 0) == -1 <==> forall p :: 0 <= p < NUM_PIDS ==> s.pcbs[p].inUse
    ensures FirstFree(s.pcbs, 0) != -1 ==>
              MAX_TERMINALS <= FirstFree(s.pcbs, 0) < NUM_PIDS && !s.pcbs[FirstFree(s.pcbs, 0)].inUse
              && !OnSomeChain(cs, FirstFree(s.pcbs, 0))
  {
  }
}
