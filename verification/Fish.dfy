/**
  What becomes of the list of blinking elements and of the screen when fish adds the elements of
  its two frames, one call after the other.
 */
module Fish {
  import opened Bytes
  import opened BlinkSpec
  import opened BlinkList
  import Frames

  /** The on and off lengths of every element of a frame. */
  const LENGTH: word := 15

  /** The structure passed to add; its countdown and status are not looked at. */
  function ElemOf(c: Frames.Call): Elem { Elem(c.location, c.onChar, c.offChar, LENGTH, LENGTH, 0, 0) }

  // ---------------------------------------------------------------- any calls

  /** The list and the text-mode page. */
  datatype Board = Board(list: seq<Elem>, video: seq<byte>)

  ghost predicate BoardOk(b: Board) { |b.list| <= SLOTS && |b.video| >= 2 * SLOTS }

  /** One call to add: refused, or the element on top; None if the list is no longer well formed. */
  function AddOne(b: Board, c: Frames.Call): (r: Option<Board>)
    requires BoardOk(b)
    ensures r.Some? ==> BoardOk(r.value)
  {
    if c.location >= SLOTS || |b.list| == SLOTS then Some(b)
    else if c.location == 0 then None
    else Some(Board([Started(ElemOf(c))] + b.list, Poke(b.video, c.location, c.onChar)))
  }

  function AddMany(b: Board, cs: seq<Frames.Call>): (r: Option<Board>)
    requires BoardOk(b)
    ensures r.Some? ==> BoardOk(r.value)
  {
    if cs == [] then Some(b)
    else
      match AddMany(b, cs[..|cs| - 1])
      case None => None
      case Some(r) => AddOne(r, cs[|cs| - 1])
  }

  lemma {:induction false} BrokenStaysBroken(b: Board, cs: seq<Frames.Call>, n: nat)
    requires BoardOk(b) && n <= |cs| && AddMany(b, cs[..n]).None?
    ensures AddMany(b, cs).None?
    decreases |cs|
  {
    if n < |cs| {
      assert cs[..|cs| - 1][..n] == cs[..n];
      BrokenStaysBroken(b, cs[..|cs| - 1], n);
    } else {
      assert cs[..n] == cs;
    }
  }

  /** The calls whose location is on the screen. */
  function OnScreenCalls(cs: seq<Frames.Call>): (r: seq<Frames.Call>)
    ensures |r| <= |cs|
  {
    if cs == [] then []
    else OnScreenCalls(cs[..|cs| - 1]) + if cs[|cs| - 1].location < SLOTS then [cs[|cs| - 1]] else []
  }

  /** The elements of some calls as they lie on the list, the last one on top. */
  function Stacked(cs: seq<Frames.Call>): seq<Elem> {
    seq(|cs|, i requires 0 <= i < |cs| => Started(ElemOf(cs[|cs| - 1 - i])))
  }

  function FirstOf(cs: seq<Frames.Call>, n: nat): seq<Frames.Call> { if |cs| <= n then cs else cs[..n] }

  /** A call for location 0 that comes while fewer than room calls on the screen have been made. */
  ghost predicate MeetsZero(cs: seq<Frames.Call>, room: nat) {
    exists i :: 0 <= i < |cs| && cs[i].location == 0 && |OnScreenCalls(cs[..i])| < room
  }

  lemma MeetsZeroOfMore(cs: seq<Frames.Call>, room: nat)
    requires cs != []
    ensures var init := cs[..|cs| - 1];
      MeetsZero(cs, room) <==> MeetsZero(init, room) || (cs[|cs| - 1].location == 0 && |OnScreenCalls(init)| < room)
  {
    var init := cs[..|cs| - 1];
    assert forall i {:trigger cs[..i]} :: 0 <= i < |cs| ==> cs[..i] == init[..i];
    if MeetsZero(init, room) {
      var i :| 0 <= i < |init| && init[i].location == 0 && |OnScreenCalls(init[..i])| < room;
      assert cs[i].location == 0 && cs[..i] == init[..i];
    }
    if MeetsZero(cs, room) {
      var i :| 0 <= i < |cs| && cs[i].location == 0 && |OnScreenCalls(cs[..i])| < room;
      assert cs[..i] == init[..i];
      assert i < |init| ==> init[i].location == 0;
    }
    assert cs[..|init|] == init;
  }

  lemma StackedOnTop(cs: seq<Frames.Call>, c: Frames.Call)
    ensures Stacked(cs + [c]) == [Started(ElemOf(c))] + Stacked(cs)
  {
  }

  lemma OneMoreStacked(cs: seq<Frames.Call>, c: Frames.Call, room: nat, l: seq<Elem>)
    ensures |cs| >= room ==> FirstOf(cs + [c], room) == FirstOf(cs, room)
    ensures |cs| < room ==>
              Stacked(FirstOf(cs + [c], room)) + l == [Started(ElemOf(c))] + (Stacked(FirstOf(cs, room)) + l)
  {
    StackedOnTop(cs, c);
  }

  /**
    What is on the list after any calls. It is broken exactly if a call for location 0 comes while
    there is room; otherwise the calls on the screen have been pushed, as many as there was room for.
   */
  lemma {:induction false} ListAfterCalls(b: Board, cs: seq<Frames.Call>)
    requires BoardOk(b)
    ensures var room := SLOTS - |b.list|;
            && (AddMany(b, cs).None? <==> MeetsZero(cs, room))
            && (AddMany(b, cs).Some?
               ==> AddMany(b, cs).value.list == Stacked(FirstOf(OnScreenCalls(cs), room)) + b.list)
    decreases |cs|
  {
    if cs != [] {
      var init, c, room := cs[..|cs| - 1], cs[|cs| - 1], SLOTS - |b.list|;
      ListAfterCalls(b, init);
      MeetsZeroOfMore(cs, room);
      OneMoreStacked(OnScreenCalls(init), c, room, b.list);
      assert OnScreenCalls(init) + [] == OnScreenCalls(init);
    } else {
      assert Stacked([]) + b.list == b.list;
    }
  }

  /** The calls are made on the list; ok is false once the list is broken. */
  method AddAll(list: BlinkList, cs: seq<Frames.Call>) returns (ok: bool)
    requires list.Valid()
    modifies list, list.slots, list.vmem
    ensures var r := AddMany(old(Board(list.Elements(), list.vmem[..])), cs);
            if ok then r.Some? && list.Valid() && r.value == Board(list.Elements(), list.vmem[..])
            else r.None? && !list.Valid()
  {
    ghost var b := Board(list.Elements(), list.vmem[..]);
    var i := 0;
    while i < |cs|
      invariant 0 <= i <= |cs| && list.Valid() && BoardOk(b)
      invariant AddMany(b, cs[..i]) == Some(Board(list.Elements(), list.vmem[..]))
    {
      assert cs[..i + 1][..i] == cs[..i];
      var rc := list.Add(ElemOf(cs[i]));
      i := i + 1;
      if rc == 0 && cs[i - 1].location == 0 {
        BrokenStaysBroken(b, cs, i);
        return false;
      }
    }
    assert cs[..i] == cs;
    return true;
  }

  // ---------------------------------------------------------------- the calls for two frames

  /** The list breaks on two frames only if one of them has something in a cell 40 short of a multiple of 65536. */
  lemma FrameMeetsZero(f0: seq<byte>, f1: seq<byte>, ps: seq<Frames.Placed>)
    requires Frames.AreElementsOf(f0, f1, ps)
    ensures (exists i :: 0 <= i < |ps| && Frames.Calls(ps)[i].location == 0)
            <==> exists r: nat, c: nat ::
                   Frames.HasElement(f0, f1, r, c) && (80 * r + c + 40) % 65536 == 0
  {
    forall r: nat, c: nat | Frames.HasElement(f0, f1, r, c) && (80 * r + c + 40) % 65536 == 0
      ensures exists i :: 0 <= i < |ps| && Frames.Calls(ps)[i].location == 0
    {
      var p := Frames.Placed(r, c, Frames.CallFor(f0, f1, r, c));
      assert Frames.Fits(f0, f1, p);
      var i :| 0 <= i < |ps| && ps[i] == p;
      assert Frames.Calls(ps)[i] == p.call;
    }
    forall i | 0 <= i < |ps| && Frames.Calls(ps)[i].location == 0
      ensures exists r: nat, c: nat ::
        Frames.HasElement(f0, f1, r, c) && (80 * r + c + 40) % 65536 == 0
    {
      assert ps[i] in ps && Frames.Fits(f0, f1, ps[i]);
      assert Frames.HasElement(f0, f1, ps[i].row, ps[i].col);
    }
  }

  ghost predicate Increasing(cs: seq<Frames.Call>) {
    && (forall i :: 0 <= i < |cs| ==> 0 < cs[i].location < SLOTS)
    && forall i, j :: 0 <= i < j < |cs| ==> cs[i].location < cs[j].location
  }

  lemma {:induction false} IncreasingCount(cs: seq<Frames.Call>)
    requires Increasing(cs) && cs != []
    ensures |cs| <= cs[|cs| - 1].location
    decreases |cs|
  {
    if |cs| > 1 {
      IncreasingCount(cs[..|cs| - 1]);
    }
  }

  lemma NotYetUsed(cs: seq<Frames.Call>, c: Frames.Call)
    requires forall i :: 0 <= i < |cs| ==> cs[i].location < c.location
    ensures Find(Stacked(cs), c.location) == |cs|
  {
    forall k | 0 <= k < |cs| ensures Stacked(cs)[k].location != c.location {
      assert Stacked(cs)[k].location == cs[|cs| - 1 - k].location;
    }
    FindIs(Stacked(cs), c.location, |cs|);
  }

  /** The board after calls for different locations that were all accepted. */
  ghost predicate Accepted(r: Option<Board>, cs: seq<Frames.Call>) {
    && r.Some? && BoardOk(r.value) && r.value.list == Stacked(cs) && |r.value.list| == |cs|
    && OnScreen(r.value.list) && Distinct(r.value.list) && Shown(r.value.list, r.value.video)
  }

  lemma OneMoreAccepted(b: Board, cs: seq<Frames.Call>, c: Frames.Call)
    requires Accepted(Some(b), cs) && Increasing(cs + [c]) && |cs| < SLOTS
    ensures Accepted(AddOne(b, c), cs + [c])
  {
    assert (cs + [c])[|cs|] == c;
    assert forall i :: 0 <= i < |cs| ==> (cs + [c])[i] == cs[i];
    NotYetUsed(cs, c);
    AddShows(b.list, b.video, ElemOf(c));
    StackedOnTop(cs, c);
  }

  /** Calls for ever higher locations are all accepted, and leave the screen right. */
  lemma {:induction false} IncreasingAccepted(v: seq<byte>, cs: seq<Frames.Call>)
    requires |v| >= 2 * SLOTS && Increasing(cs)
    ensures Accepted(AddMany(Board([], v), cs), cs)
    decreases |cs|
  {
    if cs != [] {
      var init, c := cs[..|cs| - 1], cs[|cs| - 1];
      assert cs == init + [c];
      IncreasingAccepted(v, init);
      IncreasingCount(cs);
      OneMoreAccepted(AddMany(Board([], v), init).value, init, c);
    }
  }

  function Place(p: Frames.Placed): nat { p.row * Frames.COLUMNS + p.col + Frames.OFFSET }

  /** Every element has its cell on the screen, and no row is wider than the screen. */
  ghost predicate FitOnScreen(ps: seq<Frames.Placed>) {
    forall p :: p in ps ==> p.col < Frames.COLUMNS && Place(p) < SLOTS
  }

  lemma PlacesGrow(p: Frames.Placed, q: Frames.Placed)
    requires Frames.Before(p, q) && p.col < Frames.COLUMNS
    ensures Place(p) < Place(q)
  {
  }

  lemma PlaceOfCall(f0: seq<byte>, f1: seq<byte>, ps: seq<Frames.Placed>, i: nat)
    requires Frames.AreElementsOf(f0, f1, ps) && FitOnScreen(ps) && i < |ps|
    ensures Frames.Calls(ps)[i].location == Place(ps[i]) && ps[i].col < Frames.COLUMNS && 0 < Place(ps[i]) < SLOTS
  {
    assert ps[i] in ps && Frames.Fits(f0, f1, ps[i]);
  }

  lemma PlacesIncrease(f0: seq<byte>, f1: seq<byte>, ps: seq<Frames.Placed>)
    requires Frames.AreElementsOf(f0, f1, ps) && FitOnScreen(ps)
    ensures Increasing(Frames.Calls(ps))
  {
    forall i | 0 <= i < |ps| ensures 0 < Frames.Calls(ps)[i].location < SLOTS {
      PlaceOfCall(f0, f1, ps, i);
    }
    forall i, j | 0 <= i < j < |ps| ensures Frames.Calls(ps)[i].location < Frames.Calls(ps)[j].location {
      PlaceOfCall(f0, f1, ps, i);
      PlaceOfCall(f0, f1, ps, j);
      PlacesGrow(ps[i], ps[j]);
    }
  }

  /** The element for a cell: it has just begun to show the first frame's character, for 15 ticks. */
  ghost predicate IsNewElement(e: Elem, f0: seq<byte>, f1: seq<byte>, row: nat, col: nat) {
    && e.onChar == Frames.Cell(f0, row, col) && e.offChar == Frames.Cell(f1, row, col)
    && e.location == 80 * row + col + 40 && e.onLength == 15 && e.offLength == 15
    && e.countdown == 15 && e.status == 1
  }

  lemma NewElementAt(f0: seq<byte>, f1: seq<byte>, ps: seq<Frames.Placed>, i: nat)
    requires Frames.AreElementsOf(f0, f1, ps) && FitOnScreen(ps) && i < |ps|
    ensures IsNewElement(Stacked(Frames.Calls(ps))[|ps| - 1 - i], f0, f1, ps[i].row, ps[i].col)
  {
    PlaceOfCall(f0, f1, ps, i);
    assert ps[i] in ps && Frames.Fits(f0, f1, ps[i]);
    assert Stacked(Frames.Calls(ps))[|ps| - 1 - i] == Started(ElemOf(ps[i].call));
  }

  /**
    Two frames that fit on the screen end up on it: after the calls for them, there is one element
    for every cell in which one of them has something to show, it is on with its whole on-time ahead
    of it, and the screen shows it.
   */
  lemma FramesAreShown(f0: seq<byte>, f1: seq<byte>, ps: seq<Frames.Placed>, v: seq<byte>)
    requires Frames.AreElementsOf(f0, f1, ps) && FitOnScreen(ps) && |v| >= 2 * SLOTS
    ensures var r := AddMany(Board([], v), Frames.Calls(ps));
            && r.Some? && |r.value.list| == |ps| && OnScreen(r.value.list)
            && Distinct(r.value.list) && Shown(r.value.list, r.value.video)
            && forall i :: 0 <= i < |ps| ==>
                 IsNewElement(r.value.list[|ps| - 1 - i], f0, f1, ps[i].row, ps[i].col)
  {
    PlacesIncrease(f0, f1, ps);
    IncreasingAccepted(v, Frames.Calls(ps));
    forall i | 0 <= i < |ps|
      ensures IsNewElement(Stacked(Frames.Calls(ps))[|ps| - 1 - i], f0, f1, ps[i].row, ps[i].col)
    {
      NewElementAt(f0, f1, ps, i);
    }
  }
}
