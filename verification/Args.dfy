/**
  The command line of the emulated system calls: execute splits a command into arguments in place,
  and getargs joins the arguments of the new program back into one string.
 */
module Args {
  import opened Bytes
  import opened Text

  const DOT: byte := 46
  const SLASH: byte := 47
  const BUF_SIZE := 1026
  const MAX_ARGS := 1024
  const MAX_COMMAND := 1023
  const NULL := -1
  const PREFIX: seq<byte> := [DOT, SLASH]

  // ---------------------------------------------------------------- words

  predicate IsBreak(c: byte) { c == SPACE || c == NEWLINE }

  /** The length of the word at the front of s. */
  function WordLength(s: seq<byte>): (n: nat)
    ensures n <= |s|
  {
    if s == [] || IsBreak(s[0]) then 0 else 1 + WordLength(s[1..])
  }

  lemma {:induction false} NoBreakInWord(s: seq<byte>)
    ensures forall k :: 0 <= k < WordLength(s) ==> !IsBreak(s[k])
  {
    if s != [] && !IsBreak(s[0]) {
      NoBreakInWord(s[1..]);
      forall k | 0 <= k < WordLength(s) ensures !IsBreak(s[k]) {
        assert k > 0 ==> s[k] == s[1..][k - 1];
      }
    }
  }

  /** What follows the first n bytes of s and the separator after them, if there is one. */
  function After(s: seq<byte>, n: nat): (t: seq<byte>)
    requires n <= |s|
    ensures s != [] ==> |t| < |s|
  {
    if n < |s| then s[n + 1..] else []
  }

  /**
    The words of s. A newline separates two words like a space does, but ends the list where a
    word would have to start.
   */
  function Words(s: seq<byte>): (ws: seq<seq<byte>>)
    ensures 2 * |ws| <= |s| + 1
    decreases |s|
  {
    if s == [] || s[0] == NEWLINE then []
    else if s[0] == SPACE then Words(s[1..])
    else [s[..WordLength(s)]] + Words(After(s, WordLength(s)))
  }

  /** The arguments of a command: the program, to be found in the current directory, and the words after it. */
  function Split(command: seq<byte>): (argv: seq<seq<byte>>)
    ensures |argv| > 0
  {
    [PREFIX + command[..WordLength(command)]] + Words(After(command, WordLength(command)))
  }

  /** An argument that can be written in a command. */
  predicate IsWord(w: seq<byte>) { w != [] && NUL !in w && SPACE !in w && NEWLINE !in w }

  function Join(ws: seq<seq<byte>>): seq<byte> {
    if ws == [] then [] else if |ws| == 1 then ws[0] else ws[0] + [SPACE] + Join(ws[1..])
  }

  lemma {:induction false} WordLengthOfPrefix(w: seq<byte>, t: seq<byte>)
    requires SPACE !in w && NEWLINE !in w && (t == [] || IsBreak(t[0]))
    ensures WordLength(w + t) == |w|
  {
    if w == [] {
      assert w + t == t;
    } else {
      assert (w + t)[0] == w[0] && w[0] in w && (w + t)[1..] == w[1..] + t;
      WordLengthOfPrefix(w[1..], t);
    }
  }

  /** Taking the first word off a joined line gives back the first argument and the joined rest. */
  lemma FirstWordOfJoin(ws: seq<seq<byte>>)
    requires ws != [] && IsWord(ws[0])
    ensures WordLength(Join(ws)) == |ws[0]| <= |Join(ws)|
    ensures Join(ws)[..|ws[0]|] == ws[0]
    ensures After(Join(ws), |ws[0]|) == Join(ws[1..])
  {
    var t := if |ws| == 1 then [] else [SPACE] + Join(ws[1..]);
    assert Join(ws) == ws[0] + t;
    WordLengthOfPrefix(ws[0], t);
  }

  /** Splitting undoes joining. */
  lemma {:induction false} WordsOfJoin(ws: seq<seq<byte>>)
    requires forall i :: 0 <= i < |ws| ==> IsWord(ws[i])
    ensures Words(Join(ws)) == ws
  {
    if ws != [] {
      FirstWordOfJoin(ws);
      assert Join(ws)[0] == ws[0][0] && ws[0][0] in ws[0];
      WordsOfJoin(ws[1..]);
    }
  }

  lemma SplitInParts(s: seq<byte>, w: seq<byte>, t: seq<byte>)
    requires |w| <= |s| && WordLength(s) == |w| && s[..|w|] == w && After(s, |w|) == t
    ensures Split(s) == [PREFIX + w] + Words(t)
  {
  }

  /** Splitting the joined command line of a program gives back the program and all its arguments. */
  lemma SplitUndoesJoin(name: seq<byte>, ws: seq<seq<byte>>)
    requires IsWord(name) && forall i :: 0 <= i < |ws| ==> IsWord(ws[i])
    ensures Split(Join([name] + ws)) == [[46, 47] + name] + ws
  {
    var line := [name] + ws;
    assert line[0] == name && line[1..] == ws;
    FirstWordOfJoin(line);
    SplitInParts(Join(line), name, Join(ws));
    WordsOfJoin(ws);
  }

  lemma {:induction false} WordsAreWords(s: seq<byte>, i: nat)
    requires NUL !in s && i < |Words(s)|
    ensures IsWord(Words(s)[i])
    decreases |s|
  {
    if s[0] == SPACE {
      WordsAreWords(s[1..], i);
    } else if i == 0 {
      NoBreakInWord(s);
    } else {
      WordsAreWords(After(s, WordLength(s)), i - 1);
    }
  }

  /** Joining the words of any command and splitting again loses nothing. */
  lemma WordsAreStable(s: seq<byte>)
    requires NUL !in s
    ensures Words(Join(Words(s))) == Words(s)
  {
    forall i | 0 <= i < |Words(s)| ensures IsWord(Words(s)[i]) {
      WordsAreWords(s, i);
    }
    WordsOfJoin(Words(s));
  }

  /** Splitting recovers exactly the arguments that can be written in a command: no others survive. */
  lemma OnlyWordsSurvive(ws: seq<seq<byte>>)
    requires NUL !in Join(ws)
    ensures Words(Join(ws)) == ws <==> forall i :: 0 <= i < |ws| ==> IsWord(ws[i])
  {
    if Words(Join(ws)) == ws {
      forall i | 0 <= i < |ws| ensures IsWord(ws[i]) {
        WordsAreWords(Join(ws), i);
      }
    } else if forall i :: 0 <= i < |ws| ==> IsWord(ws[i]) {
      WordsOfJoin(ws);
    }
  }

  /** What joining is: the words in their order with one space between any two. */
  lemma {:induction false} JoinIs(ws: seq<seq<byte>>, vs: seq<seq<byte>>)
    ensures Join([]) == [] && (|ws| == 1 ==> Join(ws) == ws[0])
    ensures ws != [] && vs != [] ==> Join(ws + vs) == Join(ws) + [32] + Join(vs)
  {
    if |ws| == 1 {
      assert (ws + vs)[1..] == vs;
    } else if ws != [] {
      JoinIs(ws[1..], vs);
      assert (ws + vs)[1..] == ws[1..] + vs;
    }
  }

  /**
    What splitting is, character by character: spaces before a word are skipped, a newline there ends
    the list, and a word ends at the next space or newline, whichever it is.
   */
  lemma WordsAre(w: seq<byte>, t: seq<byte>)
    requires 32 !in w && 10 !in w
    ensures Words([]) == [] && Words([10] + t) == [] && Words([32] + t) == Words(t)
    ensures w != [] ==> Words(w) == [w]
    ensures w != [] ==> Words(w + ([32] + t)) == [w] + Words(t) && Words(w + ([10] + t)) == [w] + Words(t)
  {
    if w != [] {
      assert w[0] in w;
      WordLengthOfPrefix(w, []);
      assert w + [] == w;
      EndedWord(w, 32, t);
      EndedWord(w, 10, t);
    }
  }

  lemma EndedWord(w: seq<byte>, c: byte, t: seq<byte>)
    requires w != [] && SPACE !in w && NEWLINE !in w && IsBreak(c)
    ensures Words(w + ([c] + t)) == [w] + Words(t)
  {
    var s := w + ([c] + t);
    assert s[0] == w[0] && w[0] in w;
    WordLengthOfPrefix(w, [c] + t);
    assert s[..|w|] == w && s[|w| + 1..] == t;
  }

  /** The program of a command is what stands before its first space or newline, whatever that is. */
  lemma SplitIs(w: seq<byte>, c: byte, t: seq<byte>)
    requires 32 !in w && 10 !in w && (c == 32 || c == 10)
    ensures Split(w) == [[46, 47] + w] && Split(w + ([c] + t)) == [[46, 47] + w] + Words(t)
  {
    WordLengthOfPrefix(w, []);
    assert w + [] == w && w[..|w|] == w;
    var s := w + ([c] + t);
    WordLengthOfPrefix(w, [c] + t);
    assert s[..|w|] == w && s[|w| + 1..] == t;
  }

  // ---------------------------------------------------------------- ece391_execute

  /** The strings that the first |ws| pointers of args point to, all ended at or before position limit. */
  ghost predicate Argv(b: seq<byte>, args: seq<int>, ws: seq<seq<byte>>, limit: nat) {
    && |ws| <= |args|
    && forall i :: 0 <= i < |ws| ==> StringAt(b, args[i], ws[i]) && args[i] + |ws[i]| <= limit
  }

  lemma StringSurvives(b: seq<byte>, at: int, w: seq<byte>, scan: nat)
    requires StringAt(b, at, w) && at + |w| <= scan < |b|
    ensures StringAt(b[scan := NUL], at, w)
  {
    assert b[scan := NUL][at..at + |w|] == b[at..at + |w|];
  }

  lemma ArgvSurvives(b: seq<byte>, args: seq<int>, ws: seq<seq<byte>>, limit: nat, scan: nat)
    requires Argv(b, args, ws, limit) && limit <= scan < |b|
    ensures Argv(b[scan := NUL], args, ws, limit)
  {
    forall i | 0 <= i < |ws| ensures StringAt(b[scan := NUL], args[i], ws[i]) {
      StringSurvives(b, args[i], ws[i], scan);
    }
  }

  /** From position scan on, the buffer still holds the rest of the command and its terminator. */
  ghost predicate Holds(b: seq<byte>, scan: nat, rest: seq<byte>) {
    && scan + |rest| < |b| && b[scan..scan + |rest|] == rest && b[scan + |rest|] == NUL && NUL !in rest
  }

  /** What the character at the scan pointer says about the rest of the command. */
  lemma HoldsStep(b: seq<byte>, scan: nat, rest: seq<byte>)
    requires Holds(b, scan, rest)
    ensures rest == [] <==> b[scan] == NUL
    ensures rest != [] ==> b[scan] == rest[0] && Holds(b, scan + 1, rest[1..])
  {
    if rest != [] {
      assert b[scan] == b[scan..scan + |rest|][0];
      assert b[scan + 1..scan + 1 + |rest[1..]|] == b[scan..scan + |rest|][1..];
      assert rest[0] in rest;
    }
  }

  /** The loop that skips to the end of a word. */
  method SkipWord(buf: array<byte>, start: nat, ghost rest: seq<byte>) returns (scan: nat)
    requires Holds(buf[..], start, rest)
    ensures scan == start + WordLength(rest) < buf.Length
    ensures Holds(buf[..], scan, rest[WordLength(rest)..])
  {
    scan := start;
    ghost var left := rest;
    HoldsStep(buf[..], scan, left);
    while buf[scan] != NUL && buf[scan] != SPACE && buf[scan] != NEWLINE
      invariant start <= scan && scan - start <= |rest| && left == rest[scan - start..]
      invariant Holds(buf[..], scan, left)
      invariant (left == [] <==> buf[scan] == NUL) && (left != [] ==> buf[scan] == left[0])
      invariant WordLength(rest) == scan - start + WordLength(left)
      decreases |left|
    {
      HoldsStep(buf[..], scan, left);
      left := left[1..];
      scan := scan + 1;
      HoldsStep(buf[..], scan, left);
    }
  }

  /** The loop that skips spaces. */
  method SkipSpaces(buf: array<byte>, start: nat, ghost rest: seq<byte>) returns (scan: nat, ghost left: seq<byte>)
    requires Holds(buf[..], start, rest)
    ensures start <= scan < buf.Length && Holds(buf[..], scan, left) && |left| <= |rest|
    ensures Words(left) == Words(rest) && (left == [] <==> buf[scan] == NUL)
    ensures left != [] ==> left[0] == buf[scan] != SPACE
  {
    scan, left := start, rest;
    HoldsStep(buf[..], scan, left);
    while buf[scan] == SPACE
      invariant start <= scan && Holds(buf[..], scan, left) && |left| <= |rest|
      invariant (left == [] <==> buf[scan] == NUL) && (left != [] ==> buf[scan] == left[0])
      invariant Words(left) == Words(rest)
      decreases |left|
    {
      HoldsStep(buf[..], scan, left);
      left := left[1..];
      scan := scan + 1;
      HoldsStep(buf[..], scan, left);
    }
  }

  method CopyString(buf: array<byte>, at: nat, s: seq<byte>)
    requires at + |s| < buf.Length && NUL !in s
    modifies buf
    ensures StringAt(buf[..], at, s)
    ensures forall k :: 0 <= k < buf.Length && !(at <= k <= at + |s|) ==> buf[k] == old(buf[k])
  {
    var i := 0;
    while i < |s|
      invariant 0 <= i <= |s|
      invariant forall k :: 0 <= k < i ==> buf[at + k] == s[k]
      invariant forall k :: 0 <= k < buf.Length && !(at <= k < at + i) ==> buf[k] == old(buf[k])
    {
      buf[at + i] := s[i];
      i := i + 1;
    }
    buf[at + |s|] := NUL;
  }

  /** A part of a string in a buffer is still there when a NUL is stored outside it. */
  lemma PartStays(b: seq<byte>, start: nat, s: seq<byte>, at: nat, i: nat, j: nat)
    requires start + |s| <= |b| && b[start..start + |s|] == s && i <= j <= |s|
    requires at < |b| && !(start + i <= at < start + j)
    ensures b[at := NUL][start + i..start + j] == s[i..j]
  {
    var r := b[at := NUL][start + i..start + j];
    forall k | 0 <= k < |r| ensures r[k] == s[i..j][k] {
      assert b[start..start + |s|][i + k] == s[i + k];
    }
  }

  /** Ending the word at the scan pointer leaves a string behind it and the rest of the command before it. */
  lemma WordTaken(b: seq<byte>, start: nat, rest: seq<byte>, scan: nat)
    requires Holds(b, start, rest) && scan == start + WordLength(rest)
    ensures StringAt(b[scan := NUL], start, rest[..WordLength(rest)])
    ensures rest[WordLength(rest)..] == [] <==> b[scan] == NUL
    ensures b[scan] == NUL ==> b[scan := NUL] == b
    ensures Holds(b[scan := NUL], if b[scan] == NUL then scan else scan + 1, After(rest, WordLength(rest)))
  {
    var n := WordLength(rest);
    var b' := b[scan := NUL];
    assert b[scan] == if n < |rest| then b[start..start + |rest|][n] else NUL;
    PartStays(b, start, rest, scan, 0, n);
    if n < |rest| {
      assert rest[n] in rest;
      PartStays(b, start, rest, scan, n + 1, |rest|);
      assert rest[n + 1..|rest|] == rest[n + 1..];
    }
  }

  /** One pointer more, to a word that has just been ended. */
  lemma ArgvGrows(b: seq<byte>, args: seq<int>, ws: seq<seq<byte>>, limit: nat, word: int, w: seq<byte>)
    requires Argv(b, args, ws, limit) && |ws| < |args|
    requires limit <= word + |w| < |b| && StringAt(b[word + |w| := NUL], word, w)
    ensures Argv(b[word + |w| := NUL], args[|ws| := word], ws + [w], word + |w|)
  {
    forall i | 0 <= i < |ws| ensures StringAt(b[word + |w| := NUL], args[i], ws[i]) {
      StringSurvives(b, args[i], ws[i], word + |w|);
    }
  }

  /** Skipping to the end of a word and ending it there, unless it is the end of the string that ends it. */
  method TakeWord(buf: array<byte>, start: nat, ghost rest: seq<byte>) returns (scan: nat, more: bool)
    requires Holds(buf[..], start, rest)
    modifies buf
    ensures start + WordLength(rest) <= scan
    ensures buf[..] == old(buf[..])[start + WordLength(rest) := NUL]
    ensures StringAt(buf[..], start, rest[..WordLength(rest)])
    ensures Holds(buf[..], scan, After(rest, WordLength(rest)))
    ensures !more ==> After(rest, WordLength(rest)) == []
  {
    scan := SkipWord(buf, start, rest);
    WordTaken(buf[..], start, rest, scan);
    more := buf[scan] != NUL;
    if more {
      buf[scan] := NUL;
      scan := scan + 1;
    }
  }

  /** Part of the way through a command: done holds the words so far, left is still to be scanned. */
  ghost predicate Parsing(b: seq<byte>, args: seq<int>, done: seq<seq<byte>>, limit: nat, scan: nat, left: seq<byte>) {
    limit <= scan && Holds(b, scan, left) && Argv(b, args, done, limit)
  }

  lemma WordIsFirst(done: seq<seq<byte>>, s: seq<byte>, w: seq<byte>, t: seq<byte>)
    requires s != [] && !IsBreak(s[0]) && w == s[..WordLength(s)] && t == After(s, WordLength(s))
    ensures done + [w] + Words(t) == done + Words(s) && |t| < |s| && |Words(s)| > 0
  {
    assert Words(s) == [w] + Words(t);
  }

  /** One word, with the pointer to it. */
  method ParseWord(buf: array<byte>, args: array<int>, n: nat, at: nat,
                   ghost done: seq<seq<byte>>, ghost limit: nat, ghost left: seq<byte>,
                   ghost w: seq<byte>, ghost t: seq<byte>) returns (scan: nat)
    requires n == |done| < args.Length && Parsing(buf[..], args[..], done, limit, at, left)
    requires w == left[..WordLength(left)] && t == After(left, WordLength(left))
    modifies buf, args
    ensures Parsing(buf[..], args[..], done + [w], at + |w|, scan, t)
  {
    ghost var pointers, b := args[..], buf[..];
    args[n] := at;
    var next, more := TakeWord(buf, at, left);
    scan := next;
    ArgvGrows(b, pointers, done, limit, at, w);
    assert args[..] == pointers[|done| := at];
  }

  method EndCommand(buf: array<byte>, args: array<int>, at: nat,
                    ghost done: seq<seq<byte>>, ghost limit: nat, ghost left: seq<byte>)
    requires Parsing(buf[..], args[..], done, limit, at, left)
    modifies buf
    ensures Argv(buf[..], args[..], done, buf.Length)
  {
    ghost var b := buf[..];
    ArgvSurvives(b, args[..], done, limit, at);
    buf[at] := NUL;
    assert buf[..] == b[at := NUL];
  }

  /** One round of the loop that collects the arguments: the end of the command, or one more word. */
  method ParseNext(buf: array<byte>, args: array<int>, n: nat, start: nat,
                   ghost done: seq<seq<byte>>, ghost limit: nat, ghost left: seq<byte>)
    returns (over: bool, scan: nat, ghost done': seq<seq<byte>>, ghost limit': nat, ghost left': seq<byte>)
    requires n == |done| && n + |Words(left)| < args.Length && Parsing(buf[..], args[..], done, limit, start, left)
    modifies buf, args
    ensures done' + Words(left') == done + Words(left)
    ensures over ==> done' == done && Words(left') == [] && Argv(buf[..], args[..], done, buf.Length)
    ensures !over ==> |done'| == n + 1 && |left'| < |left| && Parsing(buf[..], args[..], done', limit', scan, left')
  {
    var at, tail := SkipSpaces(buf, start, left);
    over := buf[at] == NUL || buf[at] == NEWLINE;
    if over {
      EndCommand(buf, args, at, done, limit, tail);
      scan, done', limit', left' := at, done, limit, tail;
    } else {
      ghost var w, t := tail[..WordLength(tail)], After(tail, WordLength(tail));
      WordIsFirst(done, tail, w, t);
      scan := ParseWord(buf, args, n, at, done, limit, tail, w, t);
      done', limit', left' := done + [w], at + |w|, t;
    }
  }

  /** The loop that collects the arguments after the program's name. */
  method ParseArguments(buf: array<byte>, args: array<int>, start: nat, first: nat,
                        ghost ws: seq<seq<byte>>, ghost rest: seq<byte>) returns (n: nat)
    requires Holds(buf[..], start, rest) && Argv(buf[..], args[..], ws, start)
    requires first == |ws| && first + |Words(rest)| < args.Length
    modifies buf, args
    ensures n == first + |Words(rest)|
    ensures Argv(buf[..], args[..], ws + Words(rest), buf.Length)
  {
    n := first;
    var scan: nat, over := start, false;
    ghost var left, done, limit: nat := rest, ws, start;
    while true
      invariant Parsing(buf[..], args[..], done, limit, scan, left)
      invariant n == |done| && done + Words(left) == ws + Words(rest)
      decreases |left|
    {
      over, scan, done, limit, left := ParseNext(buf, args, n, scan, done, limit, left);
      if over {
        return;
      }
      n := n + 1;
    }
  }

  /**
    ece391_execute up to the new process: the argument pointers handed to it, or -1 for a command
    that is too long. The buffers are the function's own, with whatever they hold on entry.
   */
  method Execute(command: seq<byte>, buf: array<byte>, args: array<int>) returns (n: int)
    requires NUL !in command && buf.Length == BUF_SIZE && args.Length == MAX_ARGS
    modifies buf, args
    ensures n == -1 <==> 1023 < |command|
    ensures n != -1 ==> n == |Split(command)| < args.Length && args[n] == NULL
    ensures n != -1 ==> Argv(buf[..], args[..], Split(command), buf.Length)
  {
    if MAX_COMMAND < |command| {
      return -1;
    }
    buf[0], buf[1] := DOT, SLASH;
    CopyString(buf, 2, command);
    var scan, more := TakeWord(buf, 2, command);
    ghost var name := command[..WordLength(command)];
    ghost var rest := After(command, WordLength(command));
    assert buf[..][0..|PREFIX + name|] == PREFIX + buf[..][2..2 + |name|];
    assert StringAt(buf[..], 0, PREFIX + name);
    args[0] := 0;
    n := 1;
    if more {
      n := ParseArguments(buf, args, scan, 1, [PREFIX + name], rest);
    }
    args[n] := NULL;
  }

  // ---------------------------------------------------------------- ece391_getargs

  /** What has been written once i of the arguments are joined, with the space before the next one. */
  function Upto(args: seq<seq<byte>>, i: nat): seq<byte>
    requires i <= |args|
  {
    if i == 0 then [] else Upto(args, i - 1) + args[i - 1] + if i < |args| then [SPACE] else []
  }

  /** Where argument i ends in the joined line. */
  function End(args: seq<seq<byte>>, i: nat): nat
    requires i < |args|
  {
    |Upto(args, i)| + |args[i]|
  }

  lemma {:induction false} UptoIsJoin(args: seq<seq<byte>>, i: nat)
    requires i <= |args|
    ensures Upto(args, i) + Join(args[i..]) == Join(args)
  {
    if i > 0 {
      UptoIsJoin(args, i - 1);
      assert args[i - 1..][1..] == args[i..];
    }
  }

  lemma {:induction false} EndsGrow(args: seq<seq<byte>>, i: nat, j: nat)
    requires i <= j < |args|
    ensures if i == j then End(args, i) == End(args, j) else End(args, i) < End(args, j)
  {
    if i < j {
      EndsGrow(args, i, j - 1);
    }
  }

  /** An argument ends where the line of the arguments up to it would. */
  lemma EndIsLength(args: seq<seq<byte>>, i: nat)
    requires i < |args|
    ensures End(args, i) == |Join(args[..i + 1])|
  {
    var some := args[..i + 1];
    UptoOfPrefix(args, some, i);
    UptoIsJoin(some, i);
    assert some[i..] == [args[i]];
  }

  lemma {:induction false} UptoOfPrefix(args: seq<seq<byte>>, some: seq<seq<byte>>, i: nat)
    requires i < |some| <= |args| && some == args[..|some|]
    ensures Upto(some, i) == Upto(args, i)
  {
    if i > 0 {
      UptoOfPrefix(args, some, i - 1);
    }
  }

  /** Every argument ends within the joined line, the last one where the line does. */
  lemma EndsWithinJoin(args: seq<seq<byte>>, i: nat)
    requires i < |args|
    ensures End(args, i) <= |Join(args)| == End(args, |args| - 1)
  {
    UptoIsJoin(args, |args|);
    EndsGrow(args, i, |args| - 1);
  }

  /** Some argument ends exactly at the given length. */
  ghost predicate Fills(args: seq<seq<byte>>, nbytes: int) {
    exists i :: 0 <= i < |args| && End(args, i) == nbytes
  }

  lemma NoneFills(args: seq<seq<byte>>, i: nat, nbytes: int)
    requires i <= |args| && (i > 0 ==> End(args, i - 1) < nbytes) && (i < |args| ==> nbytes < End(args, i))
    ensures !Fills(args, nbytes)
  {
    forall j | 0 <= j < |args| ensures End(args, j) != nbytes {
      if j < i {
        EndsGrow(args, j, i - 1);
      } else {
        EndsGrow(args, i, j);
      }
    }
  }

  /** The first i arguments have been joined at the start of the buffer. */
  ghost predicate Joined(b: seq<byte>, args: seq<seq<byte>>, i: nat, pos: nat) {
    i <= |args| && pos <= |b| && b[..pos] == Upto(args, i) && NUL !in Upto(args, i)
  }

  lemma JoinedGrows(b: seq<byte>, b': seq<byte>, args: seq<seq<byte>>, i: nat, pos: nat)
    requires Joined(b, args, i, pos) && i < |args| && NUL !in args[i]
    requires |b'| == |b| && b'[..pos] == b[..pos] && StringAt(b', pos, args[i])
    ensures i + 1 == |args| ==> Joined(b', args, i + 1, pos + |args[i]|)
    ensures i + 1 < |args| ==> Joined(b'[pos + |args[i]| := SPACE], args, i + 1, pos + |args[i]| + 1)
    ensures End(args, i) == pos + |args[i]|
  {
    var n := pos + |args[i]|;
    assert b'[..n] == b'[..pos] + b'[pos..n];
    var b'' := b'[n := SPACE];
    assert b''[..n + 1] == b'[..n] + [SPACE];
  }

  /** From a position on, a buffer has not changed, but for one byte of it. */
  ghost predicate SameBut(was: seq<byte>, b: seq<byte>, from: int, at: int) {
    |b| == |was| && forall k :: from <= k < |b| && 0 <= k && k != at ==> b[k] == was[k]
  }

  /** Before argument i is written at pos. */
  ghost predicate AtArg(was: seq<byte>, b: seq<byte>, args: seq<seq<byte>>, i: nat, pos: nat, nbytes: int) {
    && i < |args| && Joined(b, args, i, pos) && SameBut(was, b, nbytes, -1)
    && (i > 0 ==> End(args, i - 1) == pos - 1 && pos <= nbytes)
  }

  /** Argument i has been written, and ends at pos. */
  ghost predicate AtEnd(was: seq<byte>, b: seq<byte>, args: seq<seq<byte>>, i: nat, pos: nat, nbytes: int) {
    && i < |args| && End(args, i) == pos <= nbytes && pos < |b| && b[pos] == NUL && SameBut(was, b, nbytes, pos)
    && if i + 1 == |args| then Joined(b, args, i + 1, pos) else Joined(b[pos := SPACE], args, i + 1, pos + 1)
  }

  ghost predicate AllWritten(was: seq<byte>, b: seq<byte>, args: seq<seq<byte>>, pos: nat, nbytes: int) {
    if args == [] then pos == 0 && b == was else AtEnd(was, b, args, |args| - 1, pos, nbytes)
  }

  /** What getargs has done once it returns r. */
  ghost predicate Returned(was: seq<byte>, b: seq<byte>, args: seq<seq<byte>>, nbytes: int, r: int) {
    && r == (if |Join(args)| < nbytes then 0 else -1)
    && (r == 0 ==> StringAt(b, 0, Join(args)))
    && SameBut(was, b, nbytes, nbytes)
    && (0 <= nbytes < |b| ==> b[nbytes] == if Fills(args, nbytes) then NUL else was[nbytes])
  }

  /** An argument is copied behind what has been joined so far, terminator and all. */
  method AppendArg(buf: array<byte>, args: seq<seq<byte>>, i: nat, pos: nat, ghost was: seq<byte>, ghost nbytes: int)
    requires AtArg(was, buf[..], args, i, pos, nbytes) && NUL !in args[i]
    requires pos + |args[i]| <= nbytes && pos + |args[i]| < buf.Length
    modifies buf
    ensures AtEnd(was, buf[..], args, i, pos + |args[i]|, nbytes)
  {
    ghost var before := buf[..];
    CopyString(buf, pos, args[i]);
    JoinedGrows(before, buf[..], args, i, pos);
  }

  method AppendSpace(buf: array<byte>, ghost args: seq<seq<byte>>, ghost i: nat, pos: nat,
                     ghost was: seq<byte>, ghost nbytes: int)
    requires AtEnd(was, buf[..], args, i, pos, nbytes) && i + 1 < |args| && pos < nbytes
    modifies buf
    ensures AtArg(was, buf[..], args, i + 1, pos + 1, nbytes)
  {
    ghost var before := buf[..];
    buf[pos] := SPACE;
    assert buf[..] == before[pos := SPACE];
  }

  lemma ArgDoesNotFit(was: seq<byte>, b: seq<byte>, args: seq<seq<byte>>, i: nat, pos: nat, nbytes: int)
    requires AtArg(was, b, args, i, pos, nbytes) && pos + |args[i]| > nbytes
    ensures Returned(was, b, args, nbytes, -1)
  {
    NoneFills(args, i, nbytes);
    EndsWithinJoin(args, i);
  }

  lemma ArgFills(was: seq<byte>, b: seq<byte>, args: seq<seq<byte>>, i: nat, nbytes: nat)
    requires AtEnd(was, b, args, i, nbytes, nbytes)
    ensures Returned(was, b, args, nbytes, -1)
  {
    EndsWithinJoin(args, i);
    assert Fills(args, nbytes);
  }

  lemma AllFit(was: seq<byte>, b: seq<byte>, args: seq<seq<byte>>, pos: nat, nbytes: int)
    requires AllWritten(was, b, args, pos, nbytes) && pos < nbytes <= |b|
    ensures Returned(was, b[pos := NUL], args, nbytes, 0)
  {
    UptoIsJoin(args, |args|);
    NoneFills(args, |args|, nbytes);
    assert Joined(b, args, |args|, pos);
  }

  lemma LineDoesNotFit(was: seq<byte>, b: seq<byte>, args: seq<seq<byte>>, pos: nat, nbytes: int)
    requires AllWritten(was, b, args, pos, nbytes) && pos >= nbytes
    ensures Returned(was, b, args, nbytes, -1)
  {
    if args != [] {
      ArgFills(was, b, args, |args| - 1, nbytes);
    }
  }

  /**
    ece391_getargs, for the arguments after the program's name. It succeeds exactly if the joined
    line and its terminator fit. The byte after the buffer is written exactly if an argument ends
    there: the terminator of an argument is copied with it before the room is checked again. So a
    buffer of just nbytes bytes will do unless an argument ends at its end.
   */
  method GetArgs(args: seq<seq<byte>>, buf: array<byte>, nbytes: int) returns (r: int)
    requires nbytes <= buf.Length && (nbytes == buf.Length ==> !Fills(args, nbytes))
    requires forall i :: 0 <= i < |args| ==> NUL !in args[i]
    modifies buf
    ensures Returned(old(buf[..]), buf[..], args, nbytes, r)
  {
    ghost var was := buf[..];
    var idx, pos: nat, left := 0, 0, nbytes;
    while idx < |args|
      invariant 0 <= idx <= |args| && left == nbytes - pos
      invariant if idx < |args| then AtArg(was, buf[..], args, idx, pos, nbytes)
                else AllWritten(was, buf[..], args, pos, nbytes)
    {
      if |args[idx]| > left {
        ArgDoesNotFit(was, buf[..], args, idx, pos, nbytes);
        return -1;
      }
      assert End(args, idx) == pos + |args[idx]|;
      AppendArg(buf, args, idx, pos, was, nbytes);
      pos, left := pos + |args[idx]|, left - |args[idx]|;
      idx := idx + 1;
      if idx >= |args| {
        break;
      }
      if left < 1 {
        ArgFills(was, buf[..], args, idx - 1, nbytes);
        return -1;
      }
      AppendSpace(buf, args, idx - 1, pos, was, nbytes);
      pos, left := pos + 1, left - 1;
    }
    if left < 1 {
      LineDoesNotFit(was, buf[..], args, pos, nbytes);
      return -1;
    }
    ghost var b := buf[..];
    AllFit(was, b, args, pos, nbytes);
    buf[pos] := NUL;
    assert buf[..] == b[pos := NUL];
    return 0;
  }
}
