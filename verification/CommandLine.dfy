/**
  How a command reaches a program in the kernel: execute takes the name off its front and keeps
  the rest in the new process, and getargs hands it out.
 */
module CommandLine {
  import opened Bytes
  import opened Text

  const EXEC_ARG_LEN := 128
  const MAX_FILENAME_LEN := 32

  /** The length of the program's name: everything before the first space. */
  function NameLength(command: seq<byte>): (n: nat)
    ensures n <= |command| && (forall k :: 0 <= k < n ==> command[k] != SPACE)
              && (n < |command| ==> command[n] == SPACE)
  {
    if command == [] || command[0] == SPACE then 0 else 1 + NameLength(command[1..])
  }

  function ArgStart(command: seq<byte>): (n: nat)
    ensures n <= |command|
  {
    if NameLength(command) < |command| then NameLength(command) + 1 else 0
  }

  /** Everything after the first space. */
  function Arguments(command: seq<byte>): seq<byte> {
    if NameLength(command) < |command| then command[NameLength(command) + 1..] else []
  }

  /** The arguments of a process after execute, if its slot held the arguments kept before. */
  function ArgumentsAfter(kept: seq<byte>, command: seq<byte>): seq<byte> {
    if ArgStart(command) < |command| then Arguments(command) else kept
  }

  /**
    The new process is given the text after the first space, whatever its slot held before, exactly
    if the command is not empty and its first space is not its last character. Otherwise it sees
    the arguments of the last process in its slot.
   */
  lemma ArgumentsArePassed(command: seq<byte>)
    ensures (forall kept: seq<byte> :: ArgumentsAfter(kept, command) == Arguments(command))
            <==> command != [] && NameLength(command) + 1 != |command|
    ensures command == [] || NameLength(command) + 1 == |command| ==>
              forall kept: seq<byte> :: ArgumentsAfter(kept, command) == kept
  {
    if command == [] || NameLength(command) + 1 == |command| {
      assert ArgumentsAfter([NEWLINE], command) != Arguments(command);
    }
  }

  lemma {:induction false} NameComesFirst(name: seq<byte>, rest: seq<byte>)
    requires SPACE !in name && (rest == [] || rest[0] == SPACE)
    ensures NameLength(name + rest) == |name|
  {
    if name == [] {
      assert name + rest == rest;
    } else {
      assert (name + rest)[0] == name[0] && name[0] in name && (name + rest)[1..] == name[1..] + rest;
      NameComesFirst(name[1..], rest);
    }
  }

  /** A command is its name, a space and its arguments. */
  lemma CommandSplits(name: seq<byte>, args: seq<byte>)
    requires 32 !in name
    ensures var command := name + ([32] + args);
      command[..NameLength(command)] == name && Arguments(command) == args
  {
    NameComesFirst(name, [SPACE] + args);
  }

  /** The loops of execute that take a command apart, into arrays filled with NULs. */
  method Parse(command: seq<byte>, filename: array<byte>, arg: array<byte>) returns (argStartIdx: nat)
    requires NUL !in command && |command| <= EXEC_ARG_LEN && NameLength(command) < MAX_FILENAME_LEN
    requires filename != arg && filename.Length == MAX_FILENAME_LEN && arg.Length == EXEC_ARG_LEN
    requires forall k :: 0 <= k < MAX_FILENAME_LEN ==> filename[k] == NUL
    requires forall k :: 0 <= k < EXEC_ARG_LEN ==> arg[k] == NUL
    modifies filename, arg
    ensures argStartIdx == ArgStart(command)
    ensures StringAt(filename[..], 0, command[..NameLength(command)])
    ensures StringAt(arg[..], 0, Arguments(command))
  {
    ghost var n := NameLength(command);
    argStartIdx := 0;
    var i := 0;
    while i < |command|
      invariant i <= n && argStartIdx == 0
      invariant forall k :: 0 <= k < i ==> filename[k] == command[k]
      invariant forall k :: i <= k < MAX_FILENAME_LEN ==> filename[k] == NUL
      invariant forall k :: 0 <= k < EXEC_ARG_LEN ==> arg[k] == NUL
    {
      if command[i] == SPACE {
        argStartIdx := i + 1;
        break;
      }
      filename[i] := command[i];
      i := i + 1;
    }
    assert filename[..][0..n] == command[..n];
    label Named:
    if argStartIdx != 0 {
      i := argStartIdx;
      var argIndex := 0;
      while i < |command|
        invariant argStartIdx <= i <= |command| && argIndex == i - argStartIdx
        invariant forall k :: 0 <= k < argIndex ==> arg[k] == command[argStartIdx + k]
        invariant forall k :: argIndex <= k < EXEC_ARG_LEN ==> arg[k] == NUL
        invariant filename[..] == old@Named(filename[..])
      {
        arg[argIndex] := command[i];
        argIndex := argIndex + 1;
        i := i + 1;
      }
    }
  }

  /** strcpy. */
  method Strcpy(dest: array<byte>, src: array<byte>, ghost s: seq<byte>)
    requires dest != src && StringAt(src[..], 0, s) && |s| < dest.Length
    modifies dest
    ensures StringAt(dest[..], 0, s)
  {
    var i := 0;
    CharAt(src[..], 0, s, 0);
    while src[i] != NUL
      invariant 0 <= i <= |s| && (src[i] == NUL <==> i == |s|)
      invariant dest[..i] == s[..i]
      decreases |s| - i
    {
      CharAt(src[..], 0, s, i);
      dest[i] := src[i];
      i := i + 1;
      CharAt(src[..], 0, s, i);
    }
    dest[i] := NUL;
    assert dest[..][0..|s|] == s;
  }

  /**
    What execute does with the command of a program it can run; kept is what the arguments field of
    the process control block holds before. A command that is too long is refused.
   */
  method KeepArguments(command: seq<byte>, pcbArg: array<byte>, ghost kept: seq<byte>)
    returns (ok: bool, filename: array<byte>)
    requires NUL !in command && NameLength(command) < MAX_FILENAME_LEN
    requires pcbArg.Length == EXEC_ARG_LEN && StringAt(pcbArg[..], 0, kept)
    modifies pcbArg
    ensures fresh(filename) && (ok <==> |command| <= 128)
    ensures ok ==> StringAt(filename[..], 0, command[..NameLength(command)])
    ensures StringAt(pcbArg[..], 0, if ok then ArgumentsAfter(kept, command) else kept)
  {
    filename := new byte[MAX_FILENAME_LEN](_ => NUL);
    if EXEC_ARG_LEN < |command| {
      return false, filename;
    }
    var arg := new byte[EXEC_ARG_LEN](_ => NUL);
    var argStartIdx := Parse(command, filename, arg);
    if argStartIdx < |command| {
      Strcpy(pcbArg, arg, Arguments(command));
    }
    ok := true;
  }

  /** getargs: the first nbytes characters of the arguments, padded with NULs. It fails only if no room is given. */
  method GetArgs(buf: array<byte>, nbytes: int, pcbArg: array<byte>, ghost kept: seq<byte>) returns (r: int)
    requires nbytes <= buf.Length && buf != pcbArg && StringAt(pcbArg[..], 0, kept)
    modifies buf
    ensures r == if nbytes <= 0 then -1 else 0
    ensures forall k :: 0 <= k < buf.Length ==>
              buf[k] == if k >= nbytes then old(buf[k]) else if k < |kept| then kept[k] else NUL
    ensures 0 <= |kept| < nbytes ==> StringAt(buf[..], 0, kept)
  {
    if nbytes <= 0 {
      return -1;
    }
    var i := 0;
    CharAt(pcbArg[..], 0, kept, 0);
    while pcbArg[i] != NUL && i < nbytes
      invariant 0 <= i <= |kept| && i <= nbytes && (pcbArg[i] == NUL <==> i == |kept|)
      invariant forall k :: 0 <= k < buf.Length ==> buf[k] == if k < i then kept[k] else old(buf[k])
      decreases |kept| - i
    {
      CharAt(pcbArg[..], 0, kept, i);
      buf[i] := pcbArg[i];
      i := i + 1;
      CharAt(pcbArg[..], 0, kept, i);
    }
    ghost var n := i;
    while i < nbytes
      invariant n <= i <= nbytes
      invariant forall k :: 0 <= k < buf.Length ==>
                  buf[k] == if k < n then kept[k] else if k < i then NUL else old(buf[k])
    {
      buf[i] := NUL;
      i := i + 1;
    }
    assert |kept| < nbytes ==> buf[..][0..|kept|] == kept;
    return 0;
  }
}
