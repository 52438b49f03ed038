/**
  The choice of the next terminal in scheduler(): a cyclic search over the initialized flags.
  Everything here holds for any number of terminals.
 */
module RoundRobin {

  /** The index after i on a ring of n; equal to (i + 1) % n. */
  function Succ(i: nat, n: nat): (r: nat)
    requires i < n
    ensures r < n
  {
    if i + 1 == n then 0 else i + 1
  }

  /** The index reached from i in d steps around the ring. */
  function Advance(i: nat, n: nat, d: nat): (r: nat)
    requires i < n
    ensures r < n
  {
    if d == 0 then i else Succ(Advance(i, n, d - 1), n)
  }

  lemma {:induction false} AdvanceOnce(i: nat, n: nat, d: nat)
    requires i < n && d <= n
    ensures Advance(i, n, d) == if i + d < n then i + d else i + d - n
  {
    if d > 0 {
      AdvanceOnce(i, n, d - 1);
    }
  }

  ghost predicate SomeInitialized(inited: seq<bool>) {
    exists t :: 0 <= t < |inited| && inited[t]
  }

  /** next is the first initialized terminal met when walking the ring from cur + 1. */
  ghost predicate IsNext(inited: seq<bool>, cur: nat, next: nat)
    requires cur < |inited|
  {
    exists d: nat :: 1 <= d <= |inited| && FirstAt(inited, cur, d) && next == Advance(cur, |inited|, d)
  }

  ghost predicate FirstAt(inited: seq<bool>, cur: nat, d: nat)
    requires cur < |inited|
  {
    && inited[Advance(cur, |inited|, d)]
    && forall e: nat :: 1 <= e < d ==> !inited[Advance(cur, |inited|, e)]
  }

  /** How many steps beyond d the search takes. */
  function Distance(inited: seq<bool>, cur: nat, d: nat): (r: nat)
    requires cur < |inited| && 1 <= d <= |inited| && SomeInitialized(inited)
    requires forall e: nat :: 1 <= e < d ==> !inited[Advance(cur, |inited|, e)]
    ensures d <= r <= |inited| && FirstAt(inited, cur, r)
    decreases |inited| - d
  {
    if inited[Advance(cur, |inited|, d)] then d
    else
      NotTheLastStep(inited, cur, d);
      Distance(inited, cur, d + 1)
  }

  lemma NotTheLastStep(inited: seq<bool>, cur: nat, d: nat)
    requires cur < |inited| && 1 <= d <= |inited| && SomeInitialized(inited)
    requires forall e: nat :: 1 <= e <= d ==> !inited[Advance(cur, |inited|, e)]
    ensures d < |inited|
  {
    var t :| 0 <= t < |inited| && inited[t];
    var e := if t > cur then t - cur else t - cur + |inited|;
    AdvanceOnce(cur, |inited|, e);
    assert Advance(cur, |inited|, e) == t;
  }

  /** The terminal the search finds. */
  function Next(inited: seq<bool>, cur: nat): (next: nat)
    requires cur < |inited| && SomeInitialized(inited)
    ensures next < |inited| && inited[next] && IsNext(inited, cur, next)
  {
    Advance(cur, |inited|, Distance(inited, cur, 1))
  }

  lemma NextIsUnique(inited: seq<bool>, cur: nat, next: nat)
    requires cur < |inited| && SomeInitialized(inited) && IsNext(inited, cur, next)
    ensures next == Next(inited, cur)
  {
    var d: nat :| 1 <= d <= |inited| && FirstAt(inited, cur, d) && next == Advance(cur, |inited|, d);
    var e := Distance(inited, cur, 1);
    assert d == e;
  }

  /** In numbers: no initialized terminal lies between cur and the one found, going upwards and around. */
  lemma NextIsFirst(inited: seq<bool>, cur: nat)
    requires cur < |inited| && SomeInitialized(inited)
    ensures var next := Next(inited, cur);
            forall t :: 0 <= t < |inited| && inited[t] ==>
              if cur < next then t <= cur || next <= t else next <= t <= cur
  {
    var n, d := |inited|, Distance(inited, cur, 1);
    AdvanceOnce(cur, n, d);
    forall t | 0 <= t < n && inited[t]
      ensures var next := Next(inited, cur); if cur < next then t <= cur || next <= t else next <= t <= cur
    {
      var e := if t > cur then t - cur else t - cur + n;
      AdvanceOnce(cur, n, e);
      assert Advance(cur, n, e) == t;
    }
  }

  /** As long as another terminal is initialized, the turn passes on. */
  lemma TurnPassesOn(inited: seq<bool>, cur: nat, t: nat)
    requires cur < |inited| && t < |inited| && inited[t] && t != cur
    ensures SomeInitialized(inited) && Next(inited, cur) != cur
  {
    var n := |inited|;
    var d := Distance(inited, cur, 1);
    var e := if t > cur then t - cur else t - cur + n;
    AdvanceOnce(cur, n, d);
    AdvanceOnce(cur, n, e);
  }

  lemma SuccIsMod(i: nat, n: nat)
    requires i < n
    ensures (i + 1) % n == Succ(i, n)
  {
  }

  /** The loop of scheduler(), which ends because some terminal is initialized. */
  method FindNext(inited: seq<bool>, cur: nat) returns (next: nat)
    requires cur < |inited| && SomeInitialized(inited)
    ensures next == Next(inited, cur)
  {
    SuccIsMod(cur, |inited|);
    next := (cur + 1) % |inited|;
    ghost var d := 1;
    assert Advance(cur, |inited|, 1) == Succ(Advance(cur, |inited|, 0), |inited|);
    while !inited[next]
      invariant 1 <= d <= |inited| && next == Advance(cur, |inited|, d)
      invariant forall e: nat :: 1 <= e < d ==> !inited[Advance(cur, |inited|, e)]
      decreases |inited| - d
    {
      NotTheLastStep(inited, cur, d);
      SuccIsMod(next, |inited|);
      next := next + 1;
      next := next % |inited|;
      d := d + 1;
    }
    NextIsUnique(inited, cur, next);
  }

  // ---------------------------------------------------------------- fairness

  /** The terminal scheduled after k ticks. */
  function Scheduled(inited: seq<bool>, cur: nat, k: nat): (r: nat)
    requires cur < |inited| && SomeInitialized(inited)
    ensures r < |inited| && (k > 0 ==> inited[r])
  {
    if k == 0 then cur else Next(inited, Scheduled(inited, cur, k - 1))
  }

  /** How often terminal t is the one scheduled by the first k ticks. */
  function Visits(inited: seq<bool>, cur: nat, k: nat, t: nat): nat
    requires cur < |inited| && SomeInitialized(inited)
  {
    if k == 0 then 0
    else Visits(inited, cur, k - 1, t) + if Scheduled(inited, cur, k) == t then 1 else 0
  }

  /** How often index t is met in the first d steps around the ring. */
  function Hits(n: nat, i: nat, d: nat, t: nat): nat
    requires i < n
  {
    if d == 0 then 0 else Hits(n, i, d - 1, t) + if Advance(i, n, d) == t then 1 else 0
  }

  function Inside(r: nat, t: nat, u: nat): int { if t <= r < u then 1 else 0 }

  lemma {:induction false} HitsAlternate(n: nat, i: nat, d: nat, t: nat, u: nat)
    requires i < n && t < u < n
    ensures Hits(n, i, d, t) - Hits(n, i, d, u) == Inside(Advance(i, n, d), t, u) - Inside(i, t, u)
  {
    if d > 0 {
      HitsAlternate(n, i, d - 1, t, u);
    }
  }

  lemma {:induction false} AdvanceTwice(i: nat, n: nat, d: nat, e: nat)
    requires i < n
    ensures Advance(Advance(i, n, d), n, e) == Advance(i, n, d + e)
  {
    if e > 0 {
      AdvanceTwice(i, n, d, e - 1);
    }
  }

  /** Skipping over terminals that are not t adds no hit of t. */
  lemma {:induction false} HitsSkip(n: nat, i: nat, d: nat, e: nat, t: nat)
    requires i < n
    requires forall x: nat :: 1 <= x <= e ==> Advance(Advance(i, n, d), n, x) != t
    ensures Hits(n, i, d + e, t) == Hits(n, i, d, t)
  {
    if e > 0 {
      HitsSkip(n, i, d, e - 1, t);
      AdvanceTwice(i, n, d, e);
    }
  }

  /** After k ticks the walk has gone some distance d, and ticks counted the hits on the way. */
  lemma {:induction false} VisitsAreHits(inited: seq<bool>, cur: nat, k: nat) returns (d: nat)
    requires cur < |inited| && SomeInitialized(inited)
    ensures Scheduled(inited, cur, k) == Advance(cur, |inited|, d)
    ensures forall t: nat :: t < |inited| && inited[t] ==> Visits(inited, cur, k, t) == Hits(|inited|, cur, d, t)
  {
    if k == 0 {
      d := 0;
    } else {
      var d0 := VisitsAreHits(inited, cur, k - 1);
      var n, at := |inited|, Scheduled(inited, cur, k - 1);
      var e := Distance(inited, at, 1);
      d := d0 + e;
      AdvanceTwice(cur, n, d0, e);
      forall t: nat | t < n && inited[t]
        ensures Visits(inited, cur, k, t) == Hits(n, cur, d, t)
      {
        HitsSkip(n, cur, d0, e - 1, t);
      }
    }
  }

  function CountTo(inited: seq<bool>, j: nat): nat
    requires j <= |inited|
  {
    if j == 0 then 0 else CountTo(inited, j - 1) + if inited[j - 1] then 1 else 0
  }

  /** The number of initialized terminals. */
  function Count(inited: seq<bool>): nat { CountTo(inited, |inited|) }

  function SumTo(inited: seq<bool>, cur: nat, k: nat, j: nat): nat
    requires cur < |inited| && SomeInitialized(inited) && j <= |inited|
  {
    if j == 0 then 0
    else SumTo(inited, cur, k, j - 1) + if inited[j - 1] then Visits(inited, cur, k, j - 1) else 0
  }

  lemma {:induction false} OneMoreVisit(inited: seq<bool>, cur: nat, k: nat, j: nat)
    requires cur < |inited| && SomeInitialized(inited) && j <= |inited| && k > 0
    ensures SumTo(inited, cur, k, j)
            == SumTo(inited, cur, k - 1, j) + if Scheduled(inited, cur, k) < j then 1 else 0
  {
    if j > 0 {
      OneMoreVisit(inited, cur, k, j - 1);
    }
  }

  lemma {:induction false} VisitsAddUp(inited: seq<bool>, cur: nat, k: nat, j: nat)
    requires cur < |inited| && SomeInitialized(inited) && (j == |inited| || (j < |inited| && k == 0))
    ensures SumTo(inited, cur, k, j) == k
    decreases k, j
  {
    if k > 0 {
      VisitsAddUp(inited, cur, k - 1, j);
      OneMoreVisit(inited, cur, k, j);
    } else if j > 0 {
      VisitsAddUp(inited, cur, 0, j - 1);
    }
  }

  lemma {:induction false} SumBounds(inited: seq<bool>, cur: nat, k: nat, j: nat, t: nat)
    requires cur < |inited| && SomeInitialized(inited) && j <= |inited| && t < |inited| && inited[t]
    requires forall u: nat :: u < |inited| && inited[u] ==>
      -1 <= Visits(inited, cur, k, u) - Visits(inited, cur, k, t) <= 1
    ensures CountTo(inited, j) * (Visits(inited, cur, k, t) - 1) + (if t < j then 1 else 0) <= SumTo(inited, cur, k, j)
    ensures SumTo(inited, cur, k, j) <= CountTo(inited, j) * (Visits(inited, cur, k, t) + 1) - (if t < j then 1 else 0)
  {
    if j > 0 {
      SumBounds(inited, cur, k, j - 1, t);
      OneMoreTerm(CountTo(inited, j - 1), Visits(inited, cur, k, t) - 1);
      OneMoreTerm(CountTo(inited, j - 1), Visits(inited, cur, k, t) + 1);
    }
  }

  lemma OneMoreTerm(c: nat, x: int)
    ensures (c + 1) * x == c * x + x
  {
  }

  lemma Monotone(a: int, b: int, m: nat)
    requires a <= b
    ensures m * a <= m * b
  {
    assert m * b - m * a == m * (b - a);
  }

  lemma FloorBound(k: nat, m: nat, v: int)
    requires m > 0 && k < m * (v + 1)
    ensures k / m <= v
  {
    var q := k / m;
    if q > v {
      Monotone(v + 1, q, m);
    }
  }

  lemma CeilingBound(k: nat, m: nat, v: int)
    requires m > 0 && m * (v - 1) < k
    ensures v <= (k + m - 1) / m
  {
    var q := (k + m - 1) / m;
    if v > q {
      Monotone(q, v - 1, m);
    }
  }

  lemma FairFromBounds(k: nat, m: nat, v: nat)
    requires m > 0 && m * (v - 1) < k < m * (v + 1)
    ensures FairShare(k, m, v)
  {
    FloorBound(k, m, v);
    CeilingBound(k, m, v);
  }

  lemma {:induction false} CountPositive(inited: seq<bool>, j: nat, t: nat)
    requires t < j <= |inited| && inited[t]
    ensures CountTo(inited, j) > 0
  {
    if t < j - 1 {
      CountPositive(inited, j - 1, t);
    }
  }

  /** v is k/m rounded down or up. */
  predicate FairShare(k: nat, m: nat, v: nat) { m > 0 && k / m <= v <= (k + m - 1) / m }

  /**
    Round-robin fairness: while the set of initialized terminals is fixed, k ticks schedule each
    of the m initialized terminals either floor(k/m) or ceil(k/m) times, from any starting point.
   */
  lemma Fairness(inited: seq<bool>, cur: nat, k: nat, t: nat)
    requires cur < |inited| && t < |inited| && inited[t]
    ensures FairShare(k, Count(inited), Visits(inited, cur, k, t))
  {
    var n := |inited|;
    var d := VisitsAreHits(inited, cur, k);
    forall u: nat | u < n && inited[u]
      ensures -1 <= Visits(inited, cur, k, u) - Visits(inited, cur, k, t) <= 1
    {
      if u < t {
        HitsAlternate(n, cur, d, u, t);
      } else if t < u {
        HitsAlternate(n, cur, d, t, u);
      }
    }
    CountPositive(inited, n, t);
    SumBounds(inited, cur, k, n, t);
    VisitsAddUp(inited, cur, k, n);
    FairFromBounds(k, CountTo(inited, n), Visits(inited, cur, k, t));
  }
}
