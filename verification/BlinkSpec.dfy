/**
  Blinking screen elements, as fish keeps them: what a list of elements is, what adding,
  removing, synchronizing and a timer tick do to it, and how an element blinks over time. The
  class in BlinkList does these things on a linked list in an array of slots.
 */
module BlinkSpec {
  import opened Bytes

  const SLOTS := 2000

  /** The fields of struct mp1_blink_struct, but for the link. */
  datatype Elem = Elem(
    location: word, onChar: byte, offChar: byte, onLength: word, offLength: word, countdown: word, status: word)

  predicate IsOn(e: Elem) { e.status % 2 == 1 }

  // ---------------------------------------------------------------- blinking

  /** A new element is on, with its whole on-time ahead of it. */
  function Started(e: Elem): Elem { e.(status := 1, countdown := e.onLength) }

  /** decw. */
  function Decremented(c: word): word { if c == 0 then 0xFFFF else c - 1 }

  /** cmpw $0 and jg: the word is positive as a signed number. */
  predicate Positive(c: word) { 0 < c < 0x8000 }

  /** xorw $1. */
  function Flipped(status: word): word { if status % 2 == 1 then status - 1 else status + 1 }

  predicate Toggles(e: Elem) { !Positive(Decremented(e.countdown)) }

  /** One timer tick of one element. */
  function TickElem(e: Elem): Elem {
    if !Toggles(e) then e.(countdown := Decremented(e.countdown))
    else e.(status := Flipped(e.status), countdown := if IsOn(e) then e.offLength else e.onLength)
  }

  function TickTimes(e: Elem, n: nat): Elem {
    if n == 0 then e else TickElem(TickTimes(e, n - 1))
  }

  /**
    How many ticks a countdown of c lasts. The counter is decremented before it is compared, as a
    signed word: 0 and everything above 0x8000 expire at once.
   */
  function Lasts(c: word): nat { if 1 <= c <= 0x8000 then c else 1 }

  lemma ModStep(n: nat, m: nat)
    requires m > 0
    ensures (n + 1) % m == if n % m == m - 1 then 0 else n % m + 1
  {
    var q, r := n / m, n % m;
    assert n + 1 == m * q + (r + 1);
    if r == m - 1 {
      ModIs(n + 1, m, q + 1, 0);
    } else {
      ModIs(n + 1, m, q, r + 1);
    }
  }

  lemma TimesAtLeast(m: nat, d: int)
    requires d >= 1
    ensures m * d >= m
  {
    assert m * d == m * (d - 1) + m;
  }

  lemma ModIs(x: nat, m: nat, q: nat, r: nat)
    requires m > 0 && r < m && x == m * q + r
    ensures x % m == r
  {
    var d := x / m - q;
    assert m * d == m * (x / m) - m * q == r - x % m;
    if d >= 1 {
      TimesAtLeast(m, d);
    } else if d <= -1 {
      TimesAtLeast(m, -d);
    }
  }

  /**
    The timing of an element, for all lengths and at every tick: it is on during the first
    Lasts(onLength) ticks of every period and off during the remaining Lasts(offLength), and the
    countdown always lasts to the next change.
   */
  lemma {:induction false} BlinkTiming(e: Elem, n: nat)
    ensures var a: nat := if 1 <= e.onLength <= 32768 then e.onLength else 1;
            var b: nat := if 1 <= e.offLength <= 32768 then e.offLength else 1;
            var p, t := n % (a + b), TickTimes(Started(e), n);
            && (IsOn(t) <==> p < a)
            && Lasts(t.countdown) == (if p < a then a - p else a + b - p)
            && t == e.(status := t.status, countdown := t.countdown) && t.status < 2
  {
    if n > 0 {
      BlinkTiming(e, n - 1);
      ModStep(n - 1, Lasts(e.onLength) + Lasts(e.offLength));
    }
  }

  /** For the lengths a program would ask for, on for onLength ticks and off for offLength ticks. */
  lemma BlinkTimingInRange(e: Elem, n: nat)
    requires 1 <= e.onLength <= 32767 && 1 <= e.offLength <= 32767
    ensures IsOn(TickTimes(Started(e), n)) <==> n % (e.onLength + e.offLength) < e.onLength
  {
    BlinkTiming(e, n);
  }

  // ---------------------------------------------------------------- lists of elements

  /** The index of the first element at a location, or the length of the list. */
  function Find(l: seq<Elem>, loc: word): (i: nat)
    ensures i <= |l| && (i < |l| ==> l[i].location == loc)
    ensures forall k :: 0 <= k < i ==> l[k].location != loc
  {
    if l == [] || l[0].location == loc then 0 else 1 + Find(l[1..], loc)
  }

  lemma FindIs(l: seq<Elem>, loc: word, i: nat)
    requires i <= |l| && (i < |l| ==> l[i].location == loc) && forall k :: 0 <= k < i ==> l[k].location != loc
    ensures Find(l, loc) == i
  {
  }

  /** The list without the first element at a location. */
  function Removed(l: seq<Elem>, loc: word): seq<Elem> {
    var i := Find(l, loc);
    if i < |l| then l[..i] + l[i + 1..] else l
  }

  /** d with the timing of s. */
  function WithTiming(d: Elem, s: Elem): Elem {
    d.(onLength := s.onLength, offLength := s.offLength, countdown := s.countdown, status := s.status)
  }

  /** The list after the first element at dst was synchronized with the first one at src. */
  function Synced(l: seq<Elem>, src: word, dst: word): seq<Elem> {
    var i, j := Find(l, src), Find(l, dst);
    if i < |l| && j < |l| then l[j := WithTiming(l[j], l[i])] else l
  }

  function Ticked(l: seq<Elem>): seq<Elem> {
    seq(|l|, i requires 0 <= i < |l| => TickElem(l[i]))
  }

  function TickedTimes(l: seq<Elem>, n: nat): (r: seq<Elem>)
    ensures |r| == |l|
  {
    if n == 0 then l else Ticked(TickedTimes(l, n - 1))
  }

  // ---------------------------------------------------------------- locations are stacks

  /** The elements at one location, the most recently added first. */
  function At(l: seq<Elem>, loc: word): seq<Elem> {
    if l == [] then [] else OneAt(l[0], loc) + At(l[1..], loc)
  }

  function OneAt(e: Elem, loc: word): seq<Elem> { if e.location == loc then [e] else [] }

  lemma {:induction false} AtConcat(a: seq<Elem>, b: seq<Elem>, loc: word)
    ensures At(a + b, loc) == At(a, loc) + At(b, loc)
  {
    if a == [] {
      assert a + b == b;
    } else {
      assert (a + b)[1..] == a[1..] + b;
      AtConcat(a[1..], b, loc);
    }
  }

  lemma {:induction false} AtNone(l: seq<Elem>, loc: word)
    requires forall k :: 0 <= k < |l| ==> l[k].location != loc
    ensures At(l, loc) == []
  {
    if l != [] {
      AtNone(l[1..], loc);
    }
  }

  lemma SplitAround(l: seq<Elem>, i: nat)
    requires i < |l|
    ensures l == l[..i] + ([l[i]] + l[i + 1..])
  {
  }

  /** What find finds, and remove removes, is the most recently added element at the location. */
  lemma FindIsTop(l: seq<Elem>, loc: word)
    ensures Find(l, loc) < |l| <==> At(l, loc) != []
    ensures Find(l, loc) < |l| ==> At(l, loc)[0] == l[Find(l, loc)]
  {
    var i := Find(l, loc);
    if i < |l| {
      AtNone(l[..i], loc);
      SplitAround(l, i);
      AtConcat(l[..i], [l[i]] + l[i + 1..], loc);
    } else {
      AtNone(l, loc);
    }
  }

  lemma AtAround(a: seq<Elem>, e: Elem, b: seq<Elem>, loc: word)
    ensures At(a + ([e] + b), loc) == At(a, loc) + (OneAt(e, loc) + At(b, loc))
  {
    AtConcat(a, [e] + b, loc);
    assert ([e] + b)[1..] == b;
  }

  lemma RemovedAround(a: seq<Elem>, e: Elem, b: seq<Elem>, loc: word)
    requires forall k :: 0 <= k < |a| ==> a[k].location != e.location
    ensures loc == e.location ==> At(a + ([e] + b), loc) == [e] + At(b, loc) && At(a + b, loc) == At(b, loc)
    ensures loc != e.location ==> At(a + ([e] + b), loc) == At(a + b, loc)
  {
    AtAround(a, e, b, loc);
    AtConcat(a, b, loc);
    if loc == e.location {
      AtNone(a, loc);
    }
  }

  /** Removing pops the stack of one location and leaves every other location alone. */
  lemma RemovePops(l: seq<Elem>, k: word, loc: word)
    ensures At(Removed(l, k), loc) == if loc == k && At(l, k) != [] then At(l, k)[1..] else At(l, loc)
  {
    var i := Find(l, k);
    if i < |l| {
      SplitAround(l, i);
      RemovedAround(l[..i], l[i], l[i + 1..], loc);
    } else {
      AtNone(l, k);
    }
  }

  // ---------------------------------------------------------------- synchronizing

  /** What sync changes: the timing of the first element at dst, which becomes that of the first at src. */
  lemma SyncedIs(l: seq<Elem>, src: word, dst: word, k: nat)
    requires k < |l|
    ensures |Synced(l, src, dst)| == |l|
    ensures var i, j, r := Find(l, src), Find(l, dst), Synced(l, src, dst)[k];
            if i < |l| && k == j
            then SameTiming(r, l[i]) && r.location == l[k].location
                 && r.onChar == l[k].onChar && r.offChar == l[k].offChar
            else r == l[k]
  {
  }

  ghost predicate SameTiming(a: Elem, b: Elem) {
    a.onLength == b.onLength && a.offLength == b.offLength && a.countdown == b.countdown && a.status == b.status
  }

  /** After sync, the two elements stay in step at every later tick. */
  lemma {:induction false} SyncStaysInStep(l: seq<Elem>, src: word, dst: word, n: nat)
    requires Find(l, src) < |l| && Find(l, dst) < |l|
    ensures SameTiming(TickedTimes(Synced(l, src, dst), n)[Find(l, src)],
              TickedTimes(Synced(l, src, dst), n)[Find(l, dst)])
  {
    if n > 0 {
      SyncStaysInStep(l, src, dst, n - 1);
    }
  }

  // ---------------------------------------------------------------- the screen

  /** The character an element should be showing. */
  function CharOf(e: Elem): byte { if IsOn(e) then e.onChar else e.offChar }

  predicate OnScreen(l: seq<Elem>) { forall i :: 0 <= i < |l| ==> l[i].location < SLOTS }

  /** mp1_poke at a location. */
  function Poke(v: seq<byte>, loc: word, c: byte): seq<byte>
    requires |v| >= 2 * SLOTS && loc < SLOTS
  {
    v[2 * loc := c]
  }

  /** The screen after a tick has drawn the elements that toggled among the first k. */
  function TickScreen(l: seq<Elem>, k: nat, v: seq<byte>): (r: seq<byte>)
    requires |v| >= 2 * SLOTS && OnScreen(l) && k <= |l|
    ensures |r| == |v|
  {
    if k == 0 then v
    else
      var r := TickScreen(l, k - 1, v);
      if Toggles(l[k - 1]) then Poke(r, l[k - 1].location, CharOf(TickElem(l[k - 1]))) else r
  }

  ghost predicate Distinct(l: seq<Elem>) {
    forall i, j :: 0 <= i < |l| && 0 <= j < |l| && l[i].location == l[j].location ==> i == j
  }

  /** Every element is drawn on the screen with the character of its present status. */
  ghost predicate Shown(l: seq<Elem>, v: seq<byte>)
    requires |v| >= 2 * SLOTS && OnScreen(l)
  {
    forall i :: 0 <= i < |l| ==> v[2 * l[i].location] == CharOf(l[i])
  }

  lemma {:induction false} TickDraws(l: seq<Elem>, k: nat, v: seq<byte>, i: nat)
    requires |v| >= 2 * SLOTS && OnScreen(l) && Distinct(l) && k <= |l| && i < |l|
    ensures TickScreen(l, k, v)[2 * l[i].location]
            == if i < k && Toggles(l[i]) then CharOf(TickElem(l[i])) else v[2 * l[i].location]
  {
    if k > 0 {
      TickDraws(l, k - 1, v, i);
      assert l[k - 1].location == l[i].location ==> k - 1 == i;
    }
  }

  /** From element i on, none that toggles is in the cell of a byte. */
  ghost predicate NoneDraws(l: seq<Elem>, i: nat, k: nat, at: nat)
    requires k <= |l|
  {
    forall j :: i <= j < k && Toggles(l[j]) ==> at != 2 * l[j].location
  }

  lemma {:induction false} TickLeaves(l: seq<Elem>, i: nat, k: nat, v: seq<byte>, at: nat)
    requires |v| >= 2 * SLOTS && OnScreen(l) && i <= k <= |l| && at < |v| && NoneDraws(l, i, k, at)
    ensures TickScreen(l, k, v)[at] == TickScreen(l, i, v)[at]
  {
    if i < k {
      TickLeaves(l, i, k - 1, v, at);
    }
  }

  lemma TickDrawsHere(l: seq<Elem>, v: seq<byte>, i: nat)
    requires |v| >= 2 * SLOTS && OnScreen(l) && i < |l| && Toggles(l[i])
    ensures TickScreen(l, i + 1, v)[2 * l[i].location] == CharOf(TickElem(l[i]))
  {
  }

  lemma CharAfterToggle(e: Elem)
    requires Toggles(e)
    ensures CharOf(TickElem(e)) == if IsOn(e) then e.offChar else e.onChar
  {
  }

  /** A tick of any list: the last element at a location that toggles is the one that is seen. */
  lemma TickDrawsTheLast(l: seq<Elem>, v: seq<byte>, i: nat)
    requires |v| >= 2 * SLOTS && OnScreen(l) && i < |l| && Toggles(l[i]) && NoneDraws(l, i + 1, |l|, 2 * l[i].location)
    ensures TickScreen(l, |l|, v)[2 * l[i].location] == if IsOn(l[i]) then l[i].offChar else l[i].onChar
  {
    var at: nat := 2 * l[i].location;
    assert TickScreen(l, i + 1, v)[at] == CharOf(TickElem(l[i])) by {
      TickDrawsHere(l, v, i);
    }
    TickLeaves(l, i + 1, |l|, v, at);
    CharAfterToggle(l[i]);
  }

  /** A byte that is in the cell of no element that toggles stays as it is. */
  lemma TickDrawsNoMore(l: seq<Elem>, v: seq<byte>, at: nat)
    requires |v| >= 2 * SLOTS && OnScreen(l) && at < |v| && NoneDraws(l, 0, |l|, at)
    ensures TickScreen(l, |l|, v)[at] == v[at]
  {
    TickLeaves(l, 0, |l|, v, at);
  }

  /** Drawing writes the character of one cell: of two bytes for every cell, the even one. */
  lemma PokeIs(v: seq<byte>, loc: word, c: byte, at: nat)
    requires |v| >= 2 * SLOTS && loc < SLOTS && at < |v|
    ensures Poke(v, loc, c)[at] == if at == 2 * loc then c else v[at]
  {
  }

  lemma TickedInPlace(l: seq<Elem>)
    requires OnScreen(l) && Distinct(l)
    ensures OnScreen(Ticked(l)) && Distinct(Ticked(l))
  {
    assert forall i :: 0 <= i < |l| ==> Ticked(l)[i].location == l[i].location;
  }

  /** A tick keeps the screen right. */
  lemma TickShows(l: seq<Elem>, v: seq<byte>)
    requires |v| >= 2 * SLOTS && OnScreen(l) && Distinct(l) && Shown(l, v)
    ensures OnScreen(Ticked(l)) && Distinct(Ticked(l)) && Shown(Ticked(l), TickScreen(l, |l|, v))
  {
    TickedInPlace(l);
    forall i | 0 <= i < |l|
      ensures TickScreen(l, |l|, v)[2 * Ticked(l)[i].location] == CharOf(Ticked(l)[i])
    {
      TickDraws(l, |l|, v, i);
    }
  }

  /** Adding an element at a location not yet in use keeps the screen right. */
  lemma AddShows(l: seq<Elem>, v: seq<byte>, e: Elem)
    requires |v| >= 2 * SLOTS && OnScreen(l) && Distinct(l) && Shown(l, v)
    requires e.location < SLOTS && Find(l, e.location) == |l|
    ensures var r := [Started(e)] + l; OnScreen(r) && Distinct(r) && Shown(r, Poke(v, e.location, e.onChar))
  {
    var r, w := [Started(e)] + l, Poke(v, e.location, e.onChar);
    forall i | 0 <= i < |r|
      ensures r[i].location < SLOTS && w[2 * r[i].location] == CharOf(r[i])
    {
      assert i > 0 ==> r[i] == l[i - 1] && l[i - 1].location != e.location;
    }
    forall i, j | 0 <= i < |r| && 0 <= j < |r| && r[i].location == r[j].location
      ensures i == j
    {
      assert i > 0 ==> r[i] == l[i - 1] && l[i - 1].location != e.location;
      assert j > 0 ==> r[j] == l[j - 1] && l[j - 1].location != e.location;
    }
  }

  /**
    sync draws the off character of its second element whatever the status: the conditional move
    that should choose never does. The screen stays right exactly if the element is off after the
    synchronization, or its two characters are the same.
   */
  lemma SyncShows(l: seq<Elem>, v: seq<byte>, src: word, dst: word)
    requires |v| >= 2 * SLOTS && OnScreen(l) && Distinct(l) && Shown(l, v)
    requires Find(l, src) < |l| && Find(l, dst) < |l|
    ensures OnScreen(Synced(l, src, dst))
    ensures var j := Find(l, dst);
            Shown(Synced(l, src, dst), Poke(v, l[j].location, l[j].offChar))
            <==> !IsOn(l[Find(l, src)]) || l[j].onChar == l[j].offChar
  {
    var i, j := Find(l, src), Find(l, dst);
    var r, w := Synced(l, src, dst), Poke(v, l[j].location, l[j].offChar);
    assert w[2 * r[j].location] == l[j].offChar;
    forall k | 0 <= k < |r| && k != j
      ensures w[2 * r[k].location] == CharOf(r[k])
    {
      assert l[k].location != l[j].location;
    }
  }
}
