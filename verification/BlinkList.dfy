/**
  The linked list of blinking elements: slots in a static array, linked through their NEXT
  fields from mp1_list_head, with a slot free when its location is 0.
 */
module BlinkList {
  import opened Bytes
  import opened BlinkSpec

  const NULL := -1

  /** One slot of blink_array; next is the index of another slot, or NULL. */
  datatype Slot = Slot(elem: Elem, next: int)

  /** What memset(..., 0, ...) makes of a slot. */
  const ZEROED := Slot(Elem(0, 0, 0, 0, 0, 0, 0), NULL)

  /** mp1_malloc: the first free slot from i on, or NULL. */
  function FirstFree(slots: seq<Slot>, i: nat): (r: int)
    requires i <= |slots|
    ensures r == NULL || (i <= r < |slots| && slots[r].elem.location == 0)
    ensures r == NULL <==> forall k :: i <= k < |slots| ==> slots[k].elem.location != 0
    ensures forall k :: i <= k < r ==> slots[k].elem.location != 0
    decreases |slots| - i
  {
    if i == |slots| then NULL else if slots[i].elem.location == 0 then i else FirstFree(slots, i + 1)
  }

  /** The value of the link that leads to position i of the chain. */
  function LinkAt(order: seq<nat>, i: nat): int { if i < |order| then order[i] else NULL }

  ghost predicate InRange(slots: seq<Slot>, order: seq<nat>) { forall i :: 0 <= i < |order| ==> order[i] < |slots| }

  /** order lists, from head on, the slots met when following the links, ending in NULL. */
  ghost predicate Linked(slots: seq<Slot>, head: int, order: seq<nat>) {
    && InRange(slots, order)
    && head == LinkAt(order, 0)
    && forall i :: 0 <= i < |order| ==> slots[order[i]].next == LinkAt(order, i + 1)
  }

  ghost predicate NoRepeats(order: seq<nat>) {
    forall i, j :: 0 <= i < |order| && 0 <= j < |order| && order[i] == order[j] ==> i == j
  }

  /** The chain is acyclic and visits exactly the slots in use, all of them on the screen. */
  ghost predicate WellFormed(slots: seq<Slot>, head: int, order: seq<nat>) {
    |slots| == SLOTS && Linked(slots, head, order) && NoRepeats(order) && UsesExactly(slots, order)
  }

  ghost predicate UsesExactly(slots: seq<Slot>, order: seq<nat>) {
    forall p :: 0 <= p < |slots| ==> (p in order <==> slots[p].elem.location != 0) && slots[p].elem.location < SLOTS
  }

  ghost function ElemsOf(slots: seq<Slot>, order: seq<nat>): (l: seq<Elem>)
    requires InRange(slots, order)
    ensures |l| == |order|
  {
    seq(|order|, i requires 0 <= i < |order| => slots[order[i]].elem)
  }

  function Below(n: nat): (s: set<nat>)
    ensures forall p: nat :: p in s <==> p < n
    ensures |s| == n
  {
    if n == 0 then {} else Below(n - 1) + {n - 1}
  }

  lemma {:induction false} Members(order: seq<nat>) returns (s: set<nat>)
    requires NoRepeats(order)
    ensures |s| == |order| && forall p :: p in s <==> p in order
  {
    if order == [] {
      s := {};
    } else {
      var k := |order| - 1;
      var t := Members(order[..k]);
      s := t + {order[k]};
      assert order == order[..k] + [order[k]];
    }
  }

  lemma CoversAll(order: seq<nat>, n: nat)
    requires NoRepeats(order) && forall p :: p in order ==> p < n
    ensures |order| == n <==> forall p: nat :: p < n ==> p in order
  {
    var s := Members(order);
    var all := Below(n);
    if |order| == n {
      SubsetOfSameSize(s, all);
    }
    if forall p: nat :: p < n ==> p in order {
      assert s == all;
    }
  }

  lemma AtMostAll(order: seq<nat>, n: nat)
    requires NoRepeats(order) && forall p :: p in order ==> p < n
    ensures |order| <= n
  {
    var s := Members(order);
    SubsetIsSmaller(s, Below(n));
  }

  /** All slots are in use exactly when there are 2000 elements. */
  lemma FullIffAllTaken(slots: seq<Slot>, head: int, order: seq<nat>)
    requires WellFormed(slots, head, order)
    ensures FirstFree(slots, 0) == NULL <==> |order| == SLOTS
  {
    CoversAll(order, |slots|);
    if |order| == SLOTS {
      assert forall p: nat :: p < |slots| ==> p in order;
    }
    if FirstFree(slots, 0) == NULL {
      assert forall p: nat :: p < |slots| ==> p in order;
    }
  }

  lemma SubsetOfSameSize(s: set<nat>, all: set<nat>)
    requires s <= all && |s| == |all|
    ensures s == all
  {
    if p :| p in all && p !in s {
      assert s <= all - {p};
      SubsetIsSmaller(s, all - {p});
    }
  }

  lemma {:induction false} SubsetIsSmaller(s: set<nat>, t: set<nat>)
    requires s <= t
    ensures |s| <= |t|
    decreases |s|
  {
    if s != {} {
      var p :| p in s;
      SubsetIsSmaller(s - {p}, t - {p});
    }
  }

  /** A free slot linked in front of the chain. */
  lemma LinkedInFront(slots: seq<Slot>, head: int, order: seq<nat>, p: nat, s: Slot)
    requires Linked(slots, head, order) && p < |slots| && p !in order && s.next == head
    ensures Linked(slots[p := s], p, [p] + order)
  {
    var r, o := slots[p := s], [p] + order;
    forall i | 0 <= i < |o|
      ensures o[i] < |r| && r[o[i]].next == LinkAt(o, i + 1)
    {
      if i > 0 {
        assert o[i] == order[i - 1] && order[i - 1] in order;
        assert LinkAt(o, i + 1) == LinkAt(order, i);
      } else {
        assert LinkAt(o, 1) == LinkAt(order, 0);
      }
    }
  }

  lemma NoRepeatsInFront(order: seq<nat>, p: nat)
    requires NoRepeats(order) && p !in order
    ensures NoRepeats([p] + order)
  {
    var o := [p] + order;
    forall i, j | 0 <= i < |o| && 0 <= j < |o| && o[i] == o[j]
      ensures i == j
    {
      assert i > 0 ==> o[i] == order[i - 1] && order[i - 1] in order;
      assert j > 0 ==> o[j] == order[j - 1] && order[j - 1] in order;
    }
  }

  lemma ElemsInFront(slots: seq<Slot>, order: seq<nat>, p: nat, s: Slot)
    requires InRange(slots, order) && p < |slots| && p !in order
    ensures InRange(slots[p := s], [p] + order)
    ensures ElemsOf(slots[p := s], [p] + order) == [s.elem] + ElemsOf(slots, order)
  {
    var r, o := slots[p := s], [p] + order;
    forall i | 0 <= i < |o|
      ensures o[i] < |r| && r[o[i]].elem == ([s.elem] + ElemsOf(slots, order))[i]
    {
      assert i > 0 ==> o[i] == order[i - 1] && order[i - 1] in order;
    }
  }

  lemma UsesInFront(slots: seq<Slot>, order: seq<nat>, p: nat, s: Slot)
    requires UsesExactly(slots, order) && p < |slots| && slots[p].elem.location == 0 && s.elem.location < SLOTS
    ensures UsesExactly(slots[p := s], [p] + order) <==> s.elem.location != 0
  {
    var r, o := slots[p := s], [p] + order;
    assert o[0] == p;
    assert forall q :: q in o <==> q == p || q in order;
    if s.elem.location == 0 {
      assert p in o && r[p].elem.location == 0;
    }
  }

  /** Linking a free slot in front keeps the chain well formed, unless its location is 0. */
  lemma PushedInFront(slots: seq<Slot>, head: int, order: seq<nat>, p: nat, e: Elem)
    requires WellFormed(slots, head, order) && p < SLOTS && slots[p].elem.location == 0 && e.location < SLOTS
    ensures WellFormed(slots[p := Slot(e, head)], p, [p] + order) <==> e.location != 0
    ensures InRange(slots, order) && InRange(slots[p := Slot(e, head)], [p] + order)
    ensures ElemsOf(slots[p := Slot(e, head)], [p] + order) == [e] + ElemsOf(slots, order)
  {
    var s := Slot(e, head);
    LinkedInFront(slots, head, order, p, s);
    NoRepeatsInFront(order, p);
    UsesInFront(slots, order, p, s);
    ElemsInFront(slots, order, p, s);
  }

  // ---------------------------------------------------------------- unlinking

  /** Where the k-th of what is left was before the i-th was taken away. */
  function Skip(k: nat, i: nat): nat { if k < i then k else k + 1 }

  function Without(order: seq<nat>, i: nat): (o: seq<nat>)
    requires i < |order|
    ensures IsWithout(order, i, o)
  {
    seq(|order| - 1, k requires 0 <= k < |order| - 1 => order[Skip(k, i)])
  }

  /** o is the chain order without its slot at index i. */
  ghost predicate IsWithout(order: seq<nat>, i: nat, o: seq<nat>) {
    i < |order| && |o| == |order| - 1 && forall k :: 0 <= k < |o| ==> o[k] == order[Skip(k, i)]
  }

  /** r is what slots become when the slot at index i of the chain is bypassed and zeroed. */
  ghost predicate IsUnlinked(slots: seq<Slot>, order: seq<nat>, i: nat, r: seq<Slot>)
    requires i < |order| && InRange(slots, order)
  {
    && |r| == |slots| && r[order[i]] == ZEROED
    && forall q :: 0 <= q < |r| && q != order[i] ==> r[q] == Bypassed(slots, order, i, q)
  }

  function Bypassed(slots: seq<Slot>, order: seq<nat>, i: nat, q: nat): Slot
    requires i < |order| && order[i] < |slots| && q < |slots|
  {
    if i > 0 && q == order[i - 1] then slots[q].(next := slots[order[i]].next) else slots[q]
  }

  lemma UnlinkedNoRepeats(order: seq<nat>, i: nat, o: seq<nat>)
    requires NoRepeats(order) && IsWithout(order, i, o)
    ensures NoRepeats(o)
  {
    forall j, k | 0 <= j < |o| && 0 <= k < |o| && o[j] == o[k]
      ensures j == k
    {
      assert order[Skip(j, i)] == order[Skip(k, i)];
    }
  }

  lemma UnlinkedMember(order: seq<nat>, i: nat, o: seq<nat>, q: nat)
    requires NoRepeats(order) && IsWithout(order, i, o)
    ensures q in o <==> q in order && q != order[i]
  {
    if q in o {
      var k :| 0 <= k < |o| && o[k] == q;
      assert order[Skip(k, i)] == q;
    }
    if q in order && q != order[i] {
      var k :| 0 <= k < |order| && order[k] == q;
      assert o[if k < i then k else k - 1] == q;
    }
  }

  lemma UnlinkedUses(slots: seq<Slot>, order: seq<nat>, i: nat, r: seq<Slot>, o: seq<nat>)
    requires UsesExactly(slots, order) && NoRepeats(order) && InRange(slots, order)
    requires IsWithout(order, i, o) && IsUnlinked(slots, order, i, r)
    ensures UsesExactly(r, o)
  {
    forall q | 0 <= q < |r|
      ensures (q in o <==> r[q].elem.location != 0) && r[q].elem.location < SLOTS
    {
      UnlinkedMember(order, i, o, q);
      assert q != order[i] ==> r[q].elem == slots[q].elem;
    }
  }

  lemma UnlinkedIsLinked(slots: seq<Slot>, head: int, order: seq<nat>, i: nat, r: seq<Slot>, o: seq<nat>)
    requires Linked(slots, head, order) && NoRepeats(order)
    requires IsWithout(order, i, o) && IsUnlinked(slots, order, i, r)
    ensures Linked(r, if i == 0 then slots[order[i]].next else head, o)
  {
    assert slots[order[i]].next == LinkAt(order, i + 1);
    assert LinkAt(o, 0) == LinkAt(order, if i == 0 then 1 else 0);
    forall k | 0 <= k < |o|
      ensures o[k] < |r| && r[o[k]].next == LinkAt(o, k + 1)
    {
      var j := Skip(k, i);
      assert o[k] == order[j] && order[j] != order[i];
      assert slots[order[j]].next == LinkAt(order, j + 1);
      assert LinkAt(o, k + 1) == LinkAt(order, Skip(k + 1, i));
      assert i > 0 && order[j] == order[i - 1] ==> j == i - 1;
    }
  }

  lemma UnlinkedElems(slots: seq<Slot>, order: seq<nat>, i: nat, r: seq<Slot>, o: seq<nat>)
    requires InRange(slots, order) && NoRepeats(order) && IsWithout(order, i, o) && IsUnlinked(slots, order, i, r)
    ensures InRange(r, o) && ElemsOf(r, o) == ElemsOf(slots, order)[..i] + ElemsOf(slots, order)[i + 1..]
  {
    var l := ElemsOf(slots, order);
    forall k | 0 <= k < |o|
      ensures o[k] < |r| && r[o[k]].elem == l[Skip(k, i)] == (l[..i] + l[i + 1..])[k]
    {
      assert o[k] == order[Skip(k, i)] && order[Skip(k, i)] != order[i];
    }
  }

  /** Unlinking an element and zeroing its slot keeps the chain well formed. */
  lemma Unlinked(slots: seq<Slot>, head: int, order: seq<nat>, i: nat, r: seq<Slot>, o: seq<nat>)
    requires WellFormed(slots, head, order) && IsWithout(order, i, o) && IsUnlinked(slots, order, i, r)
    ensures WellFormed(r, if i == 0 then slots[order[i]].next else head, o)
    ensures ElemsOf(r, o) == ElemsOf(slots, order)[..i] + ElemsOf(slots, order)[i + 1..]
  {
    UnlinkedNoRepeats(order, i, o);
    UnlinkedIsLinked(slots, head, order, i, r, o);
    UnlinkedUses(slots, order, i, r, o);
    UnlinkedElems(slots, order, i, r, o);
  }

  class BlinkList {
    const slots: array<Slot>
    const vmem: array<byte>
    var head: int
    ghost var order: seq<nat>

    ghost predicate Valid()
      reads this, slots, vmem
    {
      vmem.Length >= 2 * SLOTS && WellFormed(slots[..], head, order)
    }

    /** The elements of the list, the most recently added first. */
    ghost function Elements(): (l: seq<Elem>)
      requires Valid()
      reads this, slots, vmem
      ensures OnScreen(l) && |l| <= SLOTS
    {
      AtMostAll(order, SLOTS);
      ElemsOf(slots[..], order)
    }

    /** The zeroed array, over the text-mode page. */
    constructor (vmem: array<byte>)
      requires vmem.Length >= 2 * SLOTS
      ensures Valid() && fresh(slots) && this.vmem == vmem && Elements() == []
    {
      slots := new Slot[SLOTS](_ => ZEROED);
      this.vmem := vmem;
      head, order := NULL, [];
    }

    /** mp1_malloc. */
    method Malloc() returns (p: int)
      requires slots.Length == SLOTS
      ensures p == FirstFree(slots[..], 0)
    {
      p := 0;
      while p < SLOTS
        invariant 0 <= p <= SLOTS && FirstFree(slots[..], p) == FirstFree(slots[..], 0)
      {
        if slots[p].elem.location == 0 {
          return;
        }
        p := p + 1;
      }
      p := NULL;
    }

    /** mp1_find_helper: the slot of the first element at a location, or NULL. */
    method FindHelper(loc: word) returns (p: int)
      requires Valid()
      ensures var i := Find(Elements(), loc); p == LinkAt(order, i)
    {
      p := head;
      ghost var i := 0;
      while p != NULL && slots[p].elem.location != loc
        invariant 0 <= i <= |order| && p == LinkAt(order, i)
        invariant forall k :: 0 <= k < i ==> Elements()[k].location != loc
        decreases |order| - i
      {
        assert Elements()[i] == slots[..][order[i]].elem;
        p := slots[p].next;
        i := i + 1;
      }
      FindIs(Elements(), loc, i);
    }

    /**
      mp1_ioctl_add. A location of 2000 or more is refused, and so is any element when all slots
      are in use. Location 0 is not refused, although it marks a slot as free: the list stays well
      formed exactly when the location is not 0, and otherwise the next slot to be handed out is
      the one at the head of the list.
     */
    method Add(u: Elem) returns (rc: int)
      requires Valid()
      modifies this, slots, vmem
      ensures rc == 0 || rc == -1
      ensures rc == -1 <==> u.location >= 2000 || |old(Elements())| == 2000
      ensures rc == -1 ==> Valid() && Elements() == old(Elements()) && vmem[..] == old(vmem[..])
      ensures rc == 0 ==> (Valid() <==> u.location != 0)
      ensures rc == 0 && u.location != 0 ==>
                Elements() == [Started(u)] + old(Elements()) && vmem[..] == Poke(old(vmem[..]), u.location, u.onChar)
      ensures rc == 0 && u.location == 0 ==> slots.Length == SLOTS && FirstFree(slots[..], 0) == head
    {
      if u.location >= SLOTS {
        return -1;
      }
      var e := u.(status := 1, countdown := u.onLength);
      FullIffAllTaken(slots[..], head, order);
      var p := Malloc();
      if p == NULL {
        return -1;
      }
      PushedInFront(slots[..], head, order, p, e);
      if e.location == 0 {
        FirstFreeKept(slots[..], p, Slot(e, head));
      }
      ghost var was := slots[..];
      slots[p] := Slot(e, slots[p].next);
      slots[p] := slots[p].(next := head);
      assert slots[..] == was[p := Slot(e, head)];
      head := p;
      order := [p] + order;
      vmem[2 * e.location] := e.onChar;
      return 0;
    }

    /** mp1_ioctl_remove. */
    method Remove(loc: word) returns (rc: int)
      requires Valid()
      modifies this, slots
      ensures Valid() && Elements() == Removed(old(Elements()), loc)
      ensures rc == if Find(old(Elements()), loc) < |old(Elements())| then 0 else -1
    {
      var p := FindHelper(loc);
      if p == NULL {
        return -1;
      }
      ghost var i := Find(Elements(), loc);
      ghost var was, h, o := slots[..], head, order;
      Unlink(p, i);
      order := Without(o, i);
      Unlinked(was, h, o, i, slots[..], order);
      return 0;
    }

    /** The slot is bypassed, by its predecessor's link or mp1_list_head, and zeroed. */
    method Unlink(p: nat, ghost i: nat)
      requires Valid() && i < |order| && p == order[i]
      modifies this`head, slots
      ensures IsUnlinked(old(slots[..]), order, i, slots[..])
      ensures head == if i == 0 then old(slots[p].next) else old(head)
    {
      var prev := FindPrev(p, i);
      if prev == NULL {
        head := slots[p].next;
      } else {
        slots[prev] := slots[prev].(next := slots[p].next);
      }
      slots[p] := ZEROED;
    }

    /** The loop at remove_find_prev: the slot whose link points at p, or NULL for mp1_list_head. */
    method FindPrev(p: int, ghost i: nat) returns (prev: int)
      requires Valid() && i < |order| && p == order[i]
      ensures prev == if i == 0 then NULL else order[i - 1]
    {
      prev := NULL;
      var target := head;
      ghost var k := 0;
      while target != p
        invariant 0 <= k <= i && target == order[k] && prev == (if k == 0 then NULL else order[k - 1])
        decreases i - k
      {
        prev := target;
        target := slots[prev].next;
        k := k + 1;
      }
    }

    /** mp1_ioctl_find: a copy of the first element at the location, or None. */
    method FindElem(loc: word) returns (r: Option<Elem>)
      requires Valid()
      ensures r == if At(Elements(), loc) == [] then None else Some(At(Elements(), loc)[0])
    {
      FindIsTop(Elements(), loc);
      var p := FindHelper(loc);
      if p == NULL {
        return None;
      }
      assert Elements()[Find(Elements(), loc)] == slots[..][p].elem;
      return Some(slots[p].elem);
    }

    /** mp1_ioctl_sync: the first element at dst takes over the timing of the first one at src. */
    method Sync(src: word, dst: word) returns (rc: int)
      requires Valid()
      modifies slots, vmem
      ensures Valid() && Elements() == Synced(old(Elements()), src, dst)
      ensures var l := old(Elements());
              var i, j := Find(l, src), Find(l, dst);
              && rc == (if i < |l| && j < |l| then 0 else -1)
              && vmem[..] == if rc == 0 then Poke(old(vmem[..]), l[j].location, l[j].offChar) else old(vmem[..])
    {
      var p := FindHelper(src);
      if p == NULL {
        return -1;
      }
      var q := FindHelper(dst);
      if q == NULL {
        return -1;
      }
      ghost var i, j, l := Find(Elements(), src), Find(Elements(), dst), Elements();
      assert l[i] == slots[..][p].elem && l[j] == slots[..][q].elem;
      ghost var was := slots[..];
      slots[q] := slots[q].(elem := WithTiming(slots[q].elem, slots[p].elem));
      Rewritten(was, slots[..], head, order, j);
      vmem[2 * slots[q].elem.location] := slots[q].elem.offChar;
      return 0;
    }

    /** The body of the tasklet's loop. */
    method TickSlot(p: nat)
      requires p < slots.Length && slots[p].elem.location < SLOTS && vmem.Length >= 2 * SLOTS
      modifies slots, vmem
      ensures var e := old(slots[p].elem);
              && slots[..] == old(slots[..])[p := old(slots[p]).(elem := TickElem(e))]
              && vmem[..] == if Toggles(e) then Poke(old(vmem[..]), e.location, CharOf(TickElem(e))) else old(vmem[..])
    {
      var e := slots[p].elem;
      slots[p] := slots[p].(elem := e.(countdown := Decremented(e.countdown)));
      if !Positive(slots[p].elem.countdown) {
        if e.status % 2 == 1 {
          vmem[2 * e.location] := e.offChar;
          slots[p] := slots[p].(elem := slots[p].elem.(countdown := e.offLength));
        } else {
          vmem[2 * e.location] := e.onChar;
          slots[p] := slots[p].(elem := slots[p].elem.(countdown := e.onLength));
        }
        slots[p] := slots[p].(elem := slots[p].elem.(status := Flipped(e.status)));
      }
    }

    /** mp1_rtc_tasklet: one timer tick, along the list. */
    method Tick()
      requires Valid()
      modifies slots, vmem
      ensures Valid() && Elements() == Ticked(old(Elements()))
      ensures vmem[..] == TickScreen(old(Elements()), |old(Elements())|, old(vmem[..]))
    {
      ghost var l, v := Elements(), vmem[..];
      ghost var i := 0;
      var p := head;
      while p != NULL
        invariant Valid() && order == old(order) && head == old(head) && |order| == |l| && 0 <= i <= |l|
                  && p == LinkAt(order, i)
        invariant Elements() == TickedUpTo(l, i)
        invariant vmem[..] == TickScreen(l, i, v)
        decreases |l| - i
      {
        ghost var was := slots[..];
        assert Elements()[i] == was[p].elem == l[i];
        TickSlot(p);
        Rewritten(was, slots[..], head, order, i);
        OneMoreTicked(l, i);
        p := slots[p].next;
        i := i + 1;
      }
    }
  }

  /** A list of which the first i elements have made a tick. */
  function TickedUpTo(l: seq<Elem>, i: nat): (r: seq<Elem>)
    ensures |r| == |l|
  {
    seq(|l|, k requires 0 <= k < |l| => if k < i then TickElem(l[k]) else l[k])
  }

  lemma OneMoreTicked(l: seq<Elem>, i: nat)
    requires i < |l|
    ensures TickedUpTo(l, i)[i := TickElem(l[i])] == TickedUpTo(l, i + 1)
  {
  }

  lemma FirstFreeKept(slots: seq<Slot>, p: nat, s: Slot)
    requires FirstFree(slots, 0) == p && p < |slots| && s.elem.location == 0
    ensures FirstFree(slots[p := s], 0) == p
  {
    FirstFreeKeptFrom(slots, 0, p, s);
  }

  lemma {:induction false} FirstFreeKeptFrom(slots: seq<Slot>, i: nat, p: nat, s: Slot)
    requires i <= p < |slots| && FirstFree(slots, i) == p && s.elem.location == 0
    ensures FirstFree(slots[p := s], i) == p
    decreases p - i
  {
    if i < p {
      FirstFreeKeptFrom(slots, i + 1, p, s);
    }
  }

  /** Changing an element in place, but not its location nor its link, keeps the chain. */
  lemma Rewritten(slots: seq<Slot>, r: seq<Slot>, head: int, order: seq<nat>, i: nat)
    requires WellFormed(slots, head, order) && i < |order| && |r| == |slots|
    requires r[order[i]].next == slots[order[i]].next && r[order[i]].elem.location == slots[order[i]].elem.location
    requires forall p :: 0 <= p < |r| && p != order[i] ==> r[p] == slots[p]
    ensures WellFormed(r, head, order) && ElemsOf(r, order) == ElemsOf(slots, order)[i := r[order[i]].elem]
  {
  }
}
