/**
  ece391grep: searching a file line by line through a buffer of 1024 bytes, refilled with the
  unfinished last line carried over to its front.
 */
module Grep {
  import opened Bytes
  import opened Text

  const BUFSIZE := 1024
  const COLON: byte := 58

  /** "file open failed" and a newline. */
  const OPEN_FAILED: seq<byte> := [102, 105, 108, 101, 32, 111, 112, 101, 110, 32, 102, 97, 105, 108, 101, 100, 10]

  // ---------------------------------------------------------------- what grep is for

  /** Where the line after it starts. */
  function NextLine(f: seq<byte>, at: nat): (e: nat)
    requires at < |f|
    ensures at < e <= |f|
  {
    if LineEnd(f, at) < |f| then LineEnd(f, at) + 1 else |f|
  }

  /** The lines of f from position at on; a last line need not end in a newline. */
  function Lines(f: seq<byte>, at: nat): seq<seq<byte>>
    requires at <= |f|
    decreases |f| - at
  {
    if at == |f| then [] else [f[at..LineEnd(f, at)]] + Lines(f, NextLine(f, at))
  }

  function Joined(ls: seq<seq<byte>>): seq<byte> {
    if ls == [] then [] else ls[0] + [NEWLINE] + Joined(ls[1..])
  }

  lemma {:induction false} LinesHaveNoNewline(f: seq<byte>, at: nat, l: seq<byte>)
    requires at <= |f| && l in Lines(f, at)
    ensures NEWLINE !in l
    decreases |f| - at
  {
    if l != f[at..LineEnd(f, at)] {
      LinesHaveNoNewline(f, NextLine(f, at), l);
    }
  }

  lemma JoinedCons(l: seq<byte>, ls: seq<seq<byte>>, rest: seq<byte>, tail: seq<byte>)
    requires Joined(ls) == rest + tail
    ensures Joined([l] + ls) == l + [NEWLINE] + rest + tail
  {
    assert ([l] + ls)[1..] == ls;
  }

  lemma SplitAt(f: seq<byte>, at: nat, e: nat)
    requires at <= e < |f| && f[e] == NEWLINE
    ensures f[at..] == f[at..e] + [NEWLINE] + f[e + 1..]
  {
  }

  lemma LastLine(f: seq<byte>, at: nat)
    requires at < |f| && LineEnd(f, at) == |f|
    ensures Joined(Lines(f, at)) == f[at..] + [NEWLINE]
  {
    assert Lines(f, at) == [f[at..|f|]] + Lines(f, |f|);
    assert Lines(f, |f|) == [] && f[at..|f|] == f[at..];
    assert Lines(f, at) == [f[at..]];
    assert Joined([]) == [];
    assert [f[at..]][1..] == [];
  }

  lemma FirstLineJoined(f: seq<byte>, at: nat, e: nat, tail: seq<byte>)
    requires at < |f| && e == LineEnd(f, at) < |f| && Joined(Lines(f, e + 1)) == f[e + 1..] + tail
    ensures Joined(Lines(f, at)) == f[at..] + tail
  {
    JoinedCons(f[at..e], Lines(f, e + 1), f[e + 1..], tail);
    SplitAt(f, at, e);
  }

  /** Lines is what it should be: its newline-free pieces, each ended by a newline, make up the file. */
  lemma {:induction false} LinesMakeUpTheFile(f: seq<byte>, at: nat) returns (tail: seq<byte>)
    requires at <= |f|
    ensures Joined(Lines(f, at)) == f[at..] + tail
    ensures tail == [] || tail == [NEWLINE]
    decreases |f| - at
  {
    var e := LineEnd(f, at);
    if at == |f| {
      tail := [];
    } else if e < |f| {
      tail := LinesMakeUpTheFile(f, e + 1);
      FirstLineJoined(f, at, e, tail);
    } else {
      tail := [NEWLINE];
      LastLine(f, at);
    }
  }

  ghost predicate OccursAt(line: seq<byte>, s: seq<byte>, i: nat) {
    i + |s| <= |line| && line[i..i + |s|] == s
  }

  /** The line contains the (non-empty) pattern. */
  ghost predicate Matches(line: seq<byte>, s: seq<byte>) {
    s != [] && exists i: nat :: OccursAt(line, s, i)
  }

  /** A test of a line. What follows is about any such test that no empty line passes. */
  type Test = seq<byte> -> bool

  ghost function Containing(s: seq<byte>): Test { l => Matches(l, s) }

  /** The lines that pass, in order. */
  ghost function Selected(ls: seq<seq<byte>>, m: Test): seq<seq<byte>> {
    if ls == [] then []
    else IfMatches(ls[0], m) + Selected(ls[1..], m)
  }

  /** What is printed for the given lines. */
  function Reports(fname: seq<byte>, ls: seq<seq<byte>>): seq<byte> {
    if ls == [] then [] else fname + [COLON] + ls[0] + [NEWLINE] + Reports(fname, ls[1..])
  }

  ghost function IfMatches(l: seq<byte>, m: Test): seq<seq<byte>> { if m(l) then [l] else [] }

  lemma SelectedCons(l: seq<byte>, ls: seq<seq<byte>>, m: Test)
    ensures Selected([l] + ls, m) == IfMatches(l, m) + Selected(ls, m)
  {
    assert ([l] + ls)[1..] == ls;
  }

  lemma SelectedOne(l: seq<byte>, m: Test)
    ensures Selected([], m) == [] && Selected([l], m) == if m(l) then [l] else []
  {
    assert [l] + [] == [l];
    SelectedCons(l, [], m);
  }

  /** The lines selected are those that pass, in the order of the list. */
  lemma {:induction false} SelectedAddUp(a: seq<seq<byte>>, b: seq<seq<byte>>, m: Test)
    ensures Selected(a + b, m) == Selected(a, m) + Selected(b, m)
  {
    if a == [] {
      assert a + b == b;
    } else {
      var ls := a[1..];
      SelectedAddUp(ls, b, m);
      assert a + b == [a[0]] + (ls + b) && a == [a[0]] + ls;
      SelectedCons(a[0], ls + b, m);
      SelectedCons(a[0], ls, m);
    }
  }

  lemma ReportsCons(fname: seq<byte>, l: seq<byte>, ls: seq<seq<byte>>)
    ensures Reports(fname, [l] + ls) == fname + [58] + l + [10] + Reports(fname, ls)
  {
    assert ([l] + ls)[1..] == ls;
  }

  /** A line is printed after the name of its file and a colon, and one line after the other. */
  lemma {:induction false} ReportsAddUp(fname: seq<byte>, a: seq<seq<byte>>, b: seq<seq<byte>>)
    ensures Reports(fname, []) == [] && (|a| == 1 ==> Reports(fname, a) == fname + [58] + a[0] + [10])
    ensures Reports(fname, a + b) == Reports(fname, a) + Reports(fname, b)
  {
    if a == [] {
      assert a + b == b;
    } else {
      var ls := a[1..];
      ReportsAddUp(fname, ls, b);
      assert a + b == [a[0]] + (ls + b) && a == [a[0]] + ls;
      ReportsCons(fname, a[0], ls + b);
      ReportsCons(fname, a[0], ls);
    }
  }

  // ---------------------------------------------------------------- what the buffer makes of it

  /** Where the piece that starts at at ends: at the first newline, or after 1024 bytes. */
  function PieceEnd(f: seq<byte>, at: nat): (e: nat)
    requires at <= |f|
    ensures at <= e <= |f| && e - at <= BUFSIZE
  {
    if LineEnd(f, at) <= at + BUFSIZE then LineEnd(f, at) else at + BUFSIZE
  }

  /** Where the piece after it starts. */
  function NextPiece(f: seq<byte>, at: nat): (e: nat)
    requires at < |f|
    ensures at < e <= |f|
  {
    var e := PieceEnd(f, at);
    if e < |f| && e - at < BUFSIZE then e + 1 else e
  }

  /** The file cut the way the buffer cuts it. */
  function Pieces(f: seq<byte>, at: nat): seq<seq<byte>>
    requires at <= |f|
    decreases |f| - at
  {
    if at == |f| then [] else [f[at..PieceEnd(f, at)]] + Pieces(f, NextPiece(f, at))
  }

  /** Pieces put together again: those that do not fill the buffer were ended by a newline. */
  function Rejoined(ps: seq<seq<byte>>): seq<byte> {
    if ps == [] then [] else ps[0] + EndOf(ps[0]) + Rejoined(ps[1..])
  }

  function EndOf(p: seq<byte>): seq<byte> { if |p| < 1024 then [NEWLINE] else [] }

  lemma {:induction false} PieceIsWhole(f: seq<byte>, at: nat, p: seq<byte>)
    requires at <= |f| && p in Pieces(f, at)
    ensures |p| <= 1024 && 10 !in p
    decreases |f| - at
  {
    if p != f[at..PieceEnd(f, at)] {
      PieceIsWhole(f, NextPiece(f, at), p);
    }
  }

  lemma RejoinedCons(p: seq<byte>, ps: seq<seq<byte>>, rest: seq<byte>, tail: seq<byte>)
    requires Rejoined(ps) == rest + tail
    ensures Rejoined([p] + ps) == p + EndOf(p) + rest + tail
  {
    assert ([p] + ps)[1..] == ps;
  }

  lemma PieceSplits(f: seq<byte>, at: nat)
    requires at < |f|
    ensures PieceEnd(f, at) < |f| || PieceEnd(f, at) - at == BUFSIZE ==>
              f[at..] == f[at..PieceEnd(f, at)] + EndOf(f[at..PieceEnd(f, at)]) + f[NextPiece(f, at)..]
    ensures PieceEnd(f, at) == |f| ==> NextPiece(f, at) == |f| && f[at..PieceEnd(f, at)] == f[at..]
  {
  }

  /** The pieces make up the file: each is ended by a newline, by the end of the file, or by the end of the buffer. */
  lemma {:induction false} PiecesMakeUpTheFile(f: seq<byte>, at: nat) returns (tail: seq<byte>)
    requires at <= |f|
    ensures Rejoined(Pieces(f, at)) == f[at..] + tail
    ensures tail == [] || tail == [NEWLINE]
    decreases |f| - at
  {
    tail := [];
    if at < |f| {
      var p, next := f[at..PieceEnd(f, at)], NextPiece(f, at);
      PieceSplits(f, at);
      var more := PiecesMakeUpTheFile(f, next);
      RejoinedCons(p, Pieces(f, next), f[next..], more);
      tail := if PieceEnd(f, at) < |f| || |p| == 1024 then more else [NEWLINE];
    }
  }

  /** What is printed for one line. */
  ghost function ReportIf(fname: seq<byte>, m: Test, line: seq<byte>): seq<byte> {
    if m(line) then fname + [COLON] + line + [NEWLINE] else []
  }

  /** What do_one_file prints from position at of the file on, piece by piece. */
  ghost function Grepped(fname: seq<byte>, m: Test, f: seq<byte>, at: nat): seq<byte>
    requires at <= |f|
    decreases |f| - at
  {
    if at == |f| then []
    else ReportIf(fname, m, f[at..PieceEnd(f, at)]) + Grepped(fname, m, f, NextPiece(f, at))
  }

  lemma {:induction false} GreppedIsReports(fname: seq<byte>, m: Test, f: seq<byte>, at: nat)
    requires at <= |f|
    ensures Grepped(fname, m, f, at) == Reports(fname, Selected(Pieces(f, at), m))
    decreases |f| - at
  {
    if at < |f| {
      GreppedIsReports(fname, m, f, NextPiece(f, at));
      var piece, rest := f[at..PieceEnd(f, at)], Selected(Pieces(f, NextPiece(f, at)), m);
      SelectedCons(piece, Pieces(f, NextPiece(f, at)), m);
      assert ([piece] + rest)[1..] == rest;
      assert [] + rest == rest;
    }
  }

  ghost predicate ShortLines(f: seq<byte>, at: nat)
    requires at <= |f|
  {
    forall l :: l in Lines(f, at) ==> |l| <= BUFSIZE
  }

  lemma FirstLine(f: seq<byte>, at: nat)
    requires at < |f| && ShortLines(f, at)
    ensures LineEnd(f, at) <= at + BUFSIZE && ShortLines(f, NextLine(f, at))
  {
    assert Lines(f, at)[0] == f[at..LineEnd(f, at)];
    forall l | l in Lines(f, NextLine(f, at))
      ensures |l| <= BUFSIZE
    {
      assert l in Lines(f, at);
    }
  }

  /** The search, line by line, from position at on. */
  ghost function SelectedLines(f: seq<byte>, at: nat, m: Test): seq<seq<byte>>
    requires at <= |f|
    decreases |f| - at
  {
    if at == |f| then [] else IfMatches(f[at..LineEnd(f, at)], m) + SelectedLines(f, NextLine(f, at), m)
  }

  /** The search, piece by piece, from position at on. */
  ghost function SelectedPieces(f: seq<byte>, at: nat, m: Test): seq<seq<byte>>
    requires at <= |f|
    decreases |f| - at
  {
    if at == |f| then [] else IfMatches(f[at..PieceEnd(f, at)], m) + SelectedPieces(f, NextPiece(f, at), m)
  }

  lemma {:induction false} SelectedLinesIs(f: seq<byte>, at: nat, m: Test)
    requires at <= |f|
    ensures SelectedLines(f, at, m) == Selected(Lines(f, at), m)
    decreases |f| - at
  {
    if at < |f| {
      SelectedCons(f[at..LineEnd(f, at)], Lines(f, NextLine(f, at)), m);
      SelectedLinesIs(f, NextLine(f, at), m);
    }
  }

  lemma {:induction false} SelectedPiecesIs(f: seq<byte>, at: nat, m: Test)
    requires at <= |f|
    ensures SelectedPieces(f, at, m) == Selected(Pieces(f, at), m)
    decreases |f| - at
  {
    if at < |f| {
      SelectedCons(f[at..PieceEnd(f, at)], Pieces(f, NextPiece(f, at)), m);
      SelectedPiecesIs(f, NextPiece(f, at), m);
    }
  }

  /** A line that fills the buffer leaves its newline to be taken for an empty piece. */
  lemma FullBuffer(f: seq<byte>, e: nat, m: Test)
    requires e < |f| && f[e] == NEWLINE && !m([])
    ensures SelectedPieces(f, e, m) == SelectedPieces(f, e + 1, m)
  {
    assert f[e..e] == [];
    assert PieceEnd(f, e) == e;
  }

  lemma PieceIsLine(f: seq<byte>, at: nat)
    requires at < |f| && LineEnd(f, at) <= at + BUFSIZE
    ensures PieceEnd(f, at) == LineEnd(f, at)
    ensures NextPiece(f, at) == NextLine(f, at) || (LineEnd(f, at) < |f| && NextPiece(f, at) == LineEnd(f, at))
  {
  }

  lemma {:induction false} PiecesAgree(f: seq<byte>, at: nat, m: Test)
    requires at <= |f| && ShortFrom(f, at) && !m([])
    ensures SelectedPieces(f, at, m) == SelectedLines(f, at, m)
    decreases |f| - at
  {
    if at < |f| {
      PieceIsLine(f, at);
      PiecesAgree(f, NextLine(f, at), m);
      if NextPiece(f, at) != NextLine(f, at) {
        FullBuffer(f, LineEnd(f, at), m);
      }
    }
  }

  /** Every line from position at on fits in the buffer. */
  ghost predicate ShortFrom(f: seq<byte>, at: nat)
    requires at <= |f|
    decreases |f| - at
  {
    at == |f| || (LineEnd(f, at) <= at + BUFSIZE && ShortFrom(f, NextLine(f, at)))
  }

  lemma {:induction false} ShortFromIs(f: seq<byte>, at: nat)
    requires at <= |f| && ShortLines(f, at)
    ensures ShortFrom(f, at)
    decreases |f| - at
  {
    if at < |f| {
      FirstLine(f, at);
      ShortFromIs(f, NextLine(f, at));
    }
  }

  lemma ShortLinesAreFound(f: seq<byte>, m: Test)
    requires ShortLines(f, 0) && !m([])
    ensures Selected(Pieces(f, 0), m) == Selected(Lines(f, 0), m)
  {
    ShortFromIs(f, 0);
    PiecesAgree(f, 0, m);
    SelectedLinesIs(f, 0, m);
    SelectedPiecesIs(f, 0, m);
  }

  lemma {:induction false} PiecesAreShort(f: seq<byte>, at: nat, m: Test, l: seq<byte>)
    requires at <= |f| && l in Selected(Pieces(f, at), m)
    ensures |l| <= BUFSIZE
    decreases |f| - at
  {
    if at < |f| {
      SelectedCons(f[at..PieceEnd(f, at)], Pieces(f, NextPiece(f, at)), m);
      if l != f[at..PieceEnd(f, at)] {
        PiecesAreShort(f, NextPiece(f, at), m, l);
      }
    }
  }

  lemma {:induction false} SelectedContains(ls: seq<seq<byte>>, m: Test, l: seq<byte>)
    requires l in ls && m(l)
    ensures l in Selected(ls, m)
  {
    if l != ls[0] {
      SelectedContains(ls[1..], m, l);
    }
  }

  lemma LongLineIsCut(f: seq<byte>) returns (s: seq<byte>)
    requires !ShortLines(f, 0)
    ensures |s| == 1 && Selected(Pieces(f, 0), Containing(s)) != Selected(Lines(f, 0), Containing(s))
  {
    var l :| l in Lines(f, 0) && |l| > BUFSIZE;
    s := [l[0]];
    assert OccursAt(l, s, 0);
    SelectedContains(Lines(f, 0), Containing(s), l);
    if l in Selected(Pieces(f, 0), Containing(s)) {
      PiecesAreShort(f, 0, Containing(s), l);
    }
  }

  /**
    The buffer finds exactly the lines a simple search finds, whatever the pattern, if and only
    if no line is longer than the buffer: a longer line is searched and printed in pieces.
   */
  lemma BufferIsExactForShortLines(f: seq<byte>)
    ensures (forall s: seq<byte> :: Selected(Pieces(f, 0), Containing(s)) == Selected(Lines(f, 0), Containing(s)))
            <==> forall l :: l in Lines(f, 0) ==> |l| <= 1024
  {
    if ShortLines(f, 0) {
      forall s: seq<byte>
        ensures Selected(Pieces(f, 0), Containing(s)) == Selected(Lines(f, 0), Containing(s))
      {
        ShortLinesAreFound(f, Containing(s));
      }
    } else {
      var s := LongLineIsCut(f);
      assert Selected(Pieces(f, 0), Containing(s)) != Selected(Lines(f, 0), Containing(s));
    }
  }

  // ---------------------------------------------------------------- the program

  /** ece391_strlen of the string at index at; z is where it ends. */
  method StrlenAt(a: array<byte>, at: nat, ghost z: nat) returns (len: nat)
    requires at <= z < a.Length && a[z] == NUL && (forall k :: at <= k < z ==> a[k] != NUL)
    ensures len == z - at
  {
    len := 0;
    while a[at + len] != NUL
      invariant at + len <= z
      decreases z - len
    {
      len := len + 1;
    }
  }

  /** ece391_strcpy of the string at src to dst, further down in the same buffer: they may overlap. */
  method StrcpyDown(a: array<byte>, dst: nat, src: nat, ghost z: nat)
    requires dst <= src <= z < a.Length && a[z] == NUL && (forall k :: src <= k < z ==> a[k] != NUL)
    modifies a
    ensures forall k {:trigger a[k]} :: dst <= k <= dst + (z - src) ==> a[k] == old(a[src + (k - dst)])
    ensures forall k :: 0 <= k < a.Length && !(dst <= k <= dst + (z - src)) ==> a[k] == old(a[k])
  {
    ghost var was := a[..];
    assert forall k :: src <= k < z ==> was[k] != NUL;
    var i := 0;
    a[dst] := a[src];
    while a[dst + i] != NUL
      invariant 0 <= i && src + i <= z
      invariant forall k {:trigger a[k]} :: dst <= k <= dst + i ==> a[k] == was[src + (k - dst)]
      invariant forall k :: 0 <= k < a.Length && !(dst <= k <= dst + i) ==> a[k] == was[k]
      decreases z - i
    {
      i := i + 1;
      a[dst + i] := a[src + i];
    }
    assert src + i == z;
  }

  /** ece391_strncmp of the string at index at with the first |s| bytes of the pattern. */
  method StrncmpAt(a: array<byte>, at: nat, s: seq<byte>, ghost z: nat) returns (diff: int)
    requires at <= z < a.Length && a[z] == NUL && NUL !in s
    ensures diff == 0 <==> at + |s| <= z && a[at..at + |s|] == s
  {
    if |s| == 0 {
      assert a[at..at] == [];
      return 0;
    }
    var k, n: nat := 0, |s|;
    while a[at + k] == s[k]
      invariant 0 <= k < |s| && n == |s| - k && at + k <= z
      invariant a[at..at + k] == s[..k]
      decreases n
    {
      assert a[at + k] != NUL;
      assert a[at..at + k + 1] == s[..k + 1];
      n := n - 1;
      if n == 0 {
        return 0;
      }
      k := k + 1;
    }
    if at + |s| <= z {
      assert a[at..at + |s|][k] == a[at + k];
    }
    var c1: int, c2: int := a[at + k], s[k];
    diff := c1 - c2;
  }

  lemma SliceOfSlice(a: seq<byte>, start: nat, end: nat, i: nat, n: nat)
    requires start <= end <= |a| && i + n <= end - start
    ensures a[start..end][i..i + n] == a[start + i..start + i + n]
  {
    var line := a[start..end];
    var inner, outer := line[i..i + n], a[start + i..start + i + n];
    forall k | 0 <= k < n ensures inner[k] == outer[k] {
      assert inner[k] == line[i + k] == a[start + i + k];
    }
  }

  /** Whether the pattern occurs at a place of the line, in terms of the buffer. */
  lemma OccursInBuffer(a: seq<byte>, start: nat, end: nat, s: seq<byte>, check: nat)
    requires start <= check <= end <= |a|
    ensures OccursAt(a[start..end], s, check - start) <==> check + |s| <= end && a[check..check + |s|] == s
    ensures s != [] && OccursAt(a[start..end], s, check - start) ==> a[check] == s[0]
  {
    if check + |s| <= end {
      SliceOfSlice(a, start, end, check - start, |s|);
      assert s != [] ==> a[check..check + |s|][0] == a[check];
    }
  }

  /** The search of one line, data[start..end], whose newline has been replaced by a NUL. */
  method SearchLine(s: seq<byte>, data: array<byte>, start: nat, end: nat) returns (found: bool)
    requires start <= end < data.Length && data[end] == NUL && NUL !in s
    ensures found <==> Matches(data[start..end], s)
  {
    var check := start;
    ghost var line := data[start..end];
    assert line == data[..][start..end];
    while check < end
      invariant start <= check <= end
      invariant s != [] ==> forall i: nat :: i < check - start ==> !OccursAt(line, s, i)
    {
      OccursInBuffer(data[..], start, end, s, check);
      if |s| > 0 && s[0] == data[check] {
        var diff := StrncmpAt(data, check, s, end);
        if diff == 0 {
          assert OccursAt(line, s, check - start);
          return true;
        }
      }
      check := check + 1;
    }
    return false;
  }

  /** The end of the line that starts at start: a newline, or the end of what was read. */
  method FindEnd(data: array<byte>, start: nat, last: nat) returns (end: nat)
    requires start <= last <= data.Length
    ensures start <= end <= last && (end < last ==> data[end] == NEWLINE)
    ensures forall k :: start <= k < end ==> data[k] != NEWLINE
  {
    end := start;
    while end < last && data[end] != NEWLINE
      invariant start <= end <= last
      invariant forall k :: start <= k < end ==> data[k] != NEWLINE
    {
      end := end + 1;
    }
  }

  /** The buffer from index start to last holds the bytes of f from position at + start on. */
  ghost predicate Holds(data: array<byte>, f: seq<byte>, at: nat, start: nat, last: nat)
    requires last <= data.Length && at + last <= |f|
    reads data
  {
    forall k {:trigger data[k]} :: start <= k < last ==> data[k] == f[at + k]
  }

  /** Move the unfinished line data[start..last] to the front of the buffer. */
  method CarryOver(data: array<byte>, start: nat, last: nat, ghost f: seq<byte>, ghost at: nat)
    requires 0 < start <= last < data.Length && at + last <= |f| && NUL !in f
    requires Holds(data, f, at, start, last)
    modifies data
    ensures Holds(data, f, at + start, 0, last - start)
    ensures forall k :: last < k < data.Length ==> data[k] == old(data[k])
    ensures data[last] == NUL
  {
    data[last] := NUL;
    ghost var was := data[..];
    StrcpyDown(data, 0, start, last);
    forall k | 0 <= k < last - start
      ensures data[k] == f[at + start + k]
    {
      assert data[k] == was[start + k];
    }
  }

  /** Search one line and print it if it matches. */
  method DoLine(s: seq<byte>, fname: seq<byte>, data: array<byte>, start: nat, end: nat, ghost f: seq<byte>,
      ghost at: nat)
    returns (out: seq<byte>)
    requires start <= end < data.Length && at + end <= |f| && NUL !in f && NUL !in s
    requires Holds(data, f, at, start, end)
    modifies data
    ensures data[end] == NUL && forall k :: 0 <= k < data.Length && k != end ==> data[k] == old(data[k])
    ensures out == ReportIf(fname, Containing(s), f[at + start..at + end])
  {
    data[end] := NUL;
    assert data[start..end] == f[at + start..at + end];
    var found := SearchLine(s, data, start, end);
    out := [];
    if found {
      var len := StrlenAt(data, start, end);
      out := fname + [COLON] + data[start..start + len] + [NEWLINE];
    }
  }

  /** A newline-free stretch that ends at a newline, at the end of f, or after 1024 bytes. */
  ghost predicate IsPiece(f: seq<byte>, at: nat, e: nat) {
    && at <= e <= |f| && e - at <= BUFSIZE
    && (forall k :: at <= k < e ==> f[k] != NEWLINE)
    && (e == |f| || e - at == BUFSIZE || f[e] == NEWLINE)
  }

  function AfterPiece(f: seq<byte>, at: nat, e: nat): nat {
    if e < |f| && e - at < BUFSIZE then e + 1 else e
  }

  /** g(at) is what is still to be printed when the program stands at position at of the file. */
  ghost predicate Prints(g: nat -> seq<byte>, fname: seq<byte>, m: Test, f: seq<byte>) {
    forall at: nat, e: nat {:trigger IsPiece(f, at, e)} ::
      IsPiece(f, at, e) ==> g(at) == ReportIf(fname, m, f[at..e]) + g(AfterPiece(f, at, e))
  }

  lemma PieceIsNext(f: seq<byte>, at: nat, e: nat)
    requires IsPiece(f, at, e)
    ensures if at < |f| then PieceEnd(f, at) == e && AfterPiece(f, at, e) == NextPiece(f, at)
            else e == at && AfterPiece(f, at, e) == at
  {
  }

  lemma PieceDone(fname: seq<byte>, m: Test, f: seq<byte>, at: nat, e: nat)
    requires IsPiece(f, at, e) && !m([])
    ensures Grepped(fname, m, f, at) == ReportIf(fname, m, f[at..e]) + Grepped(fname, m, f, AfterPiece(f, at, e))
  {
    PieceIsNext(f, at, e);
    if at == |f| {
      assert f[at..e] == [];
    }
  }

  lemma Regroup(all: seq<byte>, out: seq<byte>, more: seq<byte>, rest: seq<byte>, rest': seq<byte>)
    requires all == out + rest && rest == more + rest'
    ensures all == (out + more) + rest'
  {
  }

  lemma NoNewlineIn(data: array<byte>, f: seq<byte>, at: nat, start: nat, end: nat, last: nat)
    requires start <= end <= last <= data.Length && at + last <= |f| && Holds(data, f, at, start, last)
    requires forall k :: start <= k < end ==> data[k] != NEWLINE
    ensures forall k :: at + start <= k < at + end ==> f[k] != NEWLINE
    ensures end < last ==> f[at + end] == data[end]
  {
    forall k | at + start <= k < at + end
      ensures f[k] != NEWLINE
    {
      assert data[k - at] == f[at + (k - at)];
    }
  }

  /** Printing the line that ends at buffer index end takes the output to the start of the next one. */
  lemma LineDone(g: nat -> seq<byte>, fname: seq<byte>, m: Test, f: seq<byte>, out: seq<byte>,
                 at: nat, start: nat, end: nat, last: nat)
    requires Prints(g, fname, m, f)
    requires start <= end <= last <= BUFSIZE && at + last <= |f|
    requires forall k :: at + start <= k < at + end ==> f[k] != NEWLINE
    requires if end < last then f[at + end] == NEWLINE else at + last == |f| || (start == 0 && last == BUFSIZE)
    requires g(at) == out + g(at + start)
    ensures g(at) == (out + ReportIf(fname, m, f[at + start..at + end])) + g(at + if end < last then end + 1 else last)
  {
    var next := at + if end < last then end + 1 else last;
    assert IsPiece(f, at + start, at + end) && AfterPiece(f, at + start, at + end) == next;
    Regroup(g(at), out, ReportIf(fname, m, f[at + start..at + end]), g(at + start), g(next));
  }

  /**
    The inner loop: search the lines in data[..last], which holds f from position at on, and carry
    an unfinished one to the front.
   */
  method SearchBuffer(s: seq<byte>, fname: seq<byte>, data: array<byte>, last: nat, cnt: nat,
                      ghost f: seq<byte>, ghost at: nat, ghost g: nat -> seq<byte>)
    returns (out: seq<byte>, carried: nat)
    requires Prints(g, fname, Containing(s), f)
    requires NUL !in s && NUL !in f && data.Length == BUFSIZE + 1 && data[BUFSIZE] != NEWLINE
    requires last <= BUFSIZE && at + last <= |f| && Holds(data, f, at, 0, last)
    requires last < BUFSIZE || cnt == 0 ==> at + last == |f|
    modifies data
    ensures carried <= last && carried < BUFSIZE && (cnt == 0 ==> carried == 0)
    ensures Holds(data, f, at + last - carried, 0, carried) && data[BUFSIZE] != NEWLINE
    ensures g(at) == out + g(at + last - carried)
  {
    var start := 0;
    out := [];
    while true
      invariant start <= last && (start == last ==> last == 0)
      invariant Holds(data, f, at, start, last) && data[BUFSIZE] != NEWLINE
      invariant g(at) == out + g(at + start)
      decreases last - start
    {
      var end := FindEnd(data, start, last);
      NoNewlineIn(data, f, at, start, end, last);
      if data[end] != NEWLINE && cnt != 0 && start != 0 {
        CarryOver(data, start, last, f, at);
        carried := last - start;
        return;
      }
      LineDone(g, fname, Containing(s), f, out, at, start, end, last);
      var line := DoLine(s, fname, data, start, end, f, at);
      out := out + line;
      start := end + 1;
      if start >= last {
        carried := 0;
        return;
      }
    }
  }

  /** read: as many bytes of the file as fit, appended to what the buffer holds. */
  method Refill(data: array<byte>, last: nat, f: seq<byte>, pos: nat) returns (cnt: nat)
    requires last <= pos <= |f| && last < BUFSIZE && data.Length == BUFSIZE + 1
    requires Holds(data, f, pos - last, 0, last)
    modifies data
    ensures cnt == if BUFSIZE - last <= |f| - pos then BUFSIZE - last else |f| - pos
    ensures Holds(data, f, pos - last, 0, last + cnt) && data[BUFSIZE] == old(data[BUFSIZE])
  {
    cnt := if BUFSIZE - last <= |f| - pos then BUFSIZE - last else |f| - pos;
    for i := 0 to cnt
      invariant Holds(data, f, pos - last, 0, last + i) && data[BUFSIZE] == old(data[BUFSIZE])
    {
      data[last + i] := f[pos + i];
    }
  }

  /** The outer loop: read, search, carry over, until the file is used up. */
  method SearchFile(s: seq<byte>, fname: seq<byte>, f: seq<byte>, data: array<byte>, ghost g: nat -> seq<byte>)
    returns (out: seq<byte>)
    requires Prints(g, fname, Containing(s), f) && g(|f|) == []
    requires NUL !in s && NUL !in f && data.Length == BUFSIZE + 1 && data[BUFSIZE] != NEWLINE
    modifies data
    ensures out == g(0)
  {
    var pos: nat, last: nat := 0, 0;
    out := [];
    while true
      invariant last <= pos <= |f| && last < BUFSIZE && data[BUFSIZE] != NEWLINE
      invariant Holds(data, f, pos - last, 0, last)
      invariant g(0) == out + g(pos - last)
      decreases |f| - pos
    {
      var cnt := Refill(data, last, f, pos);
      pos, last := pos + cnt, last + cnt;
      var more, carried := SearchBuffer(s, fname, data, last, cnt, f, pos - last, g);
      Regroup(g(0), out, more, g(pos - last), g(pos - carried));
      out, last := out + more, carried;
      if cnt == 0 {
        break;
      }
    }
  }

  lemma WhatIsPrinted(fname: seq<byte>, m: Test, f: seq<byte>) returns (g: nat -> seq<byte>)
    requires !m([])
    ensures Prints(g, fname, m, f) && g(|f|) == []
    ensures g(0) == Reports(fname, Selected(Pieces(f, 0), m))
    ensures ShortLines(f, 0) ==> g(0) == Reports(fname, Selected(Lines(f, 0), m))
  {
    g := at => if 0 <= at <= |f| then Grepped(fname, m, f, at) else [];
    forall at: nat, e: nat | IsPiece(f, at, e)
      ensures g(at) == ReportIf(fname, m, f[at..e]) + g(AfterPiece(f, at, e))
    {
      PieceDone(fname, m, f, at, e);
    }
    GreppedIsReports(fname, m, f, 0);
    if ShortLines(f, 0) {
      ShortLinesAreFound(f, m);
    }
  }

  /**
    do_one_file on a file without NUL bytes, or on one that cannot be opened (None). data is the
    local buffer, with whatever it happens to hold; its last byte must not be a stray newline.
   */
  method DoOneFile(s: seq<byte>, fname: seq<byte>, file: Option<seq<byte>>, data: array<byte>)
    returns (rval: int, out: seq<byte>)
    requires NUL !in s && (file.Some? ==> NUL !in file.value)
    requires data.Length == BUFSIZE + 1 && data[BUFSIZE] != NEWLINE
    modifies data
    ensures rval == if file.None? then -1 else 0
    ensures file.None? ==> out == OPEN_FAILED
    ensures file.Some? ==> out == Reports(fname, Selected(Pieces(file.value, 0), Containing(s)))
    ensures file.Some? && ShortLines(file.value, 0) ==>
              out == Reports(fname, Selected(Lines(file.value, 0), Containing(s)))
  {
    if file.None? {
      return -1, OPEN_FAILED;
    }
    ghost var g := WhatIsPrinted(fname, Containing(s), file.value);
    out := SearchFile(s, fname, file.value, data, g);
    rval := 0;
  }
}
