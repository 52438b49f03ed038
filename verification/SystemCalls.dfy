/**
  execute and halt as a whole: what the other modules say about the command, the program file, the
  descriptors and the processes, put together in the order of the system calls.
 */
module SystemCalls {
  import opened Bytes
  import opened Text
  import opened CommandLine
  import opened FileSystem
  import opened Descriptors
  import opened Loader
  import opened Paging
  import opened KernelState
  import Kernel

  /** Where the program that a command names starts, if it can be run; header is what the header array held. */
  ghost function EntryFor(img: Image, command: seq<byte>, header: seq<byte>): Option<dword>
    requires WellFormed(img) && |header| == HEADER_BYTES
  {
    var d := Lookup(img, command[..NameLength(command)], 0);
    if |command| > EXEC_ARG_LEN || d == -1 then None
    else EntryOf(HeaderRead(img, img.bootDentries[d].inodeNumber, header))
  }

  /**
    A command can be run if it has at most 128 characters and the first file that has the name before
    its first space begins like an executable.
   */
  lemma ProgramIsFirstNamed(img: Image, command: seq<byte>, header: seq<byte>)
    requires WellFormed(img) && |header| == HEADER_BYTES
    ensures EntryFor(img, command, header).Some? ==>
              |command| <= 128 && exists d: nat :: IsFirstNamed(img, command[..NameLength(command)], d)
    ensures forall d: nat :: |command| <= 128 && IsFirstNamed(img, command[..NameLength(command)], d) ==>
              EntryFor(img, command, header) == EntryOf(HeaderRead(img, img.bootDentries[d].inodeNumber, header))
  {
    var name := command[..NameLength(command)];
    var l := Lookup(img, name, 0);
    assert l != -1 ==> IsFirstNamed(img, name, l);
    forall d: nat | |command| <= 128 && IsFirstNamed(img, name, d)
      ensures l == d
    {
    }
  }

  /** The argument fields of the PCBs, with the strings they hold. */
  ghost predicate Hold(args: seq<array<byte>>, kept: seq<seq<byte>>)
    reads args
  {
    && |args| == |kept| == NUM_PIDS
    && (forall p :: 0 <= p < NUM_PIDS ==> args[p].Length == EXEC_ARG_LEN && StringAt(args[p][..], 0, kept[p]))
    && forall p, q :: 0 <= p < q < NUM_PIDS ==> args[p] != args[q]
  }

  /** The first part of execute: the command is taken apart, and its file looked up and checked. */
  method Prepare(ghost kernel: Kernel.Kernel, img: Image, command: seq<byte>, header: array<byte>)
    returns (found: Option<dword>, arg: array<byte>, argStart: nat)
    requires kernel.Valid() && header !in kernel.Repr()
    requires WellFormed(img) && NUL !in command && NameLength(command) < MAX_FILENAME_LEN
              && header.Length == HEADER_BYTES
    modifies header
    ensures kernel.Valid() && kernel.State() == old(kernel.State())
    ensures found == EntryFor(img, command, old(header[..]))
    ensures fresh(arg) && argStart == ArgStart(command)
    ensures found.Some? ==> |Arguments(command)| < EXEC_ARG_LEN && StringAt(arg[..], 0, Arguments(command))
  {
    arg := new byte[EXEC_ARG_LEN](_ => NUL);
    if EXEC_ARG_LEN < |command| {
      return None, arg, ArgStart(command);
    }
    var filename := new byte[MAX_FILENAME_LEN](_ => NUL);
    argStart := Parse(command, filename, arg);
    found := CheckProgram(img, command[..NameLength(command)], header);
  }

  method CopyArguments(args: seq<array<byte>>, pid: nat, arg: array<byte>, ghost s: seq<byte>,
      ghost kept: seq<seq<byte>>)
    requires Hold(args, kept) && pid < NUM_PIDS && arg !in args && StringAt(arg[..], 0, s) && |s| < EXEC_ARG_LEN
    modifies args[pid]
    ensures Hold(args, kept[pid := s])
  {
    Strcpy(args[pid], arg, s);
  }

  /** The part of execute that gives a program a process. */
  method Start(kernel: Kernel.Kernel, img: Image, runnable: bool, ctx: Context, ghost arg: array<byte>)
    returns (process: Process?, pid: nat)
    requires kernel.Valid() && WellFormed(img) && arg !in kernel.Repr()
    modifies kernel.Repr()
    ensures arg[..] == old(arg[..])
    ensures kernel.Valid() && kernel.State() == KernelState.Execute(old(kernel.State()), runnable, ctx)
    ensures process != null <==> runnable && ChosenPid(old(kernel.State())) != -1
    ensures process != null ==> pid == ChosenPid(old(kernel.State())) && pid < NUM_PIDS
    ensures process != null ==>
              fresh(process) && fresh(process.fds) && process.Valid() && process.img == img
                  && process.fds[..] == NewTable()
  {
    pid := 0;
    var ok := kernel.Execute(runnable, ctx);
    if !ok {
      return null, 0;
    }
    pid := kernel.current.value;
    process := new Process(img);
  }

  /** Both parts; what is left to do is to hand over the arguments. */
  method Launch(kernel: Kernel.Kernel, img: Image, command: seq<byte>, header: array<byte>, ctx: Context)
    returns (found: Option<dword>, process: Process?, pid: nat, arg: array<byte>, argStart: nat)
    requires kernel.Valid() && WellFormed(img) && NUL !in command && NameLength(command) < MAX_FILENAME_LEN
    requires header.Length == HEADER_BYTES && header !in kernel.Repr()
    modifies kernel.Repr(), header
    ensures kernel.Valid()
    ensures var s, f := old(kernel.State()), EntryFor(img, command, old(header[..]));
            && kernel.State() == KernelState.Execute(s, f.Some?, ctx)
            && found == f && (process != null <==> f.Some? && ChosenPid(s) != -1)
            && (process != null ==> pid == ChosenPid(s) && pid < NUM_PIDS)
    ensures process != null ==>
              fresh(process) && fresh(process.fds) && process.Valid() && process.img == img
                  && process.fds[..] == NewTable()
    ensures fresh(arg) && argStart == ArgStart(command)
    ensures process != null ==> |Arguments(command)| < EXEC_ARG_LEN && StringAt(arg[..], 0, Arguments(command))
  {
    found, arg, argStart := Prepare(kernel, img, command, header);
    process, pid := Start(kernel, img, found.Some?, ctx, arg);
  }

  /** The argument fields after execute has started a process, or has not. */
  ghost function KeptAfter(kept: seq<seq<byte>>, pid: int, command: seq<byte>): seq<seq<byte>>
    requires pid < |kept|
  {
    if pid < 0 then kept else kept[pid := ArgumentsAfter(kept[pid], command)]
  }

  method HandOver(ghost kernel: Kernel.Kernel, ghost process: Process, args: seq<array<byte>>, pid: nat,
                  command: seq<byte>, argStart: nat, arg: array<byte>, ghost kept: seq<seq<byte>>)
    requires kernel.Valid() && process.Valid() && Hold(args, kept) && pid < NUM_PIDS && arg !in args
              && argStart == ArgStart(command)
    requires |Arguments(command)| < EXEC_ARG_LEN && StringAt(arg[..], 0, Arguments(command))
    requires args[pid] !in kernel.Repr()
    modifies args[pid]
    ensures kernel.Valid() && kernel.State() == old(kernel.State())
    ensures process.Valid() && process.fds[..] == old(process.fds[..])
    ensures Hold(args, KeptAfter(kept, pid, command))
  {
    if argStart < |command| {
      CopyArguments(args, pid, arg, Arguments(command), kept);
    }
  }

  /**
    execute, from the command to the first instruction of the program. It succeeds exactly if the
    command is short enough, its file can be run, and there is a pid for it; otherwise no process and
    no argument field changes. The new process is on top of the kernel state as the kernel's own
    execute says, with the terminal on its first two descriptors and the arguments of the command.
   */
  method Execute(kernel: Kernel.Kernel, img: Image, command: seq<byte>, header: array<byte>,
                 args: seq<array<byte>>, ghost kept: seq<seq<byte>>, ctx: Context)
    returns (entry: Option<dword>, process: Process?)
    requires kernel.Valid() && WellFormed(img) && NUL !in command && NameLength(command) < MAX_FILENAME_LEN
    requires header.Length == HEADER_BYTES && Hold(args, kept) && header !in args
    requires header !in kernel.Repr() && forall a :: a in args ==> a !in kernel.Repr()
    modifies kernel.Repr(), header, args
    ensures kernel.Valid()
    ensures var s, found := old(kernel.State()), EntryFor(img, command, old(header[..]));
            && kernel.State() == KernelState.Execute(s, found.Some?, ctx)
            && entry == (if ChosenPid(s) == -1 then None else found)
            && (process != null <==> entry.Some?)
    ensures process != null ==> fresh(process) && process.Valid() && process.img == img && process.fds[..] == NewTable()
    ensures Hold(args, KeptAfter(kept, if entry.None? then -1 else ChosenPid(old(kernel.State())), command))
  {
    var pid, arg, argStart;
    entry, process, pid, arg, argStart := Launch(kernel, img, command, header, ctx);
    if process == null {
      entry := None;
    } else {
      HandOver(kernel, process, args, pid, command, argStart, arg, kept);
    }
  }

  /**
    halt of a process that was executed by another: its descriptors are closed, the kernel's halt
    gives the terminal back, and the caller gets the status in the context it called execute from.
   */
  method Halt(kernel: Kernel.Kernel, process: Process, status: byte, exceptionInChild: bool, ctx: Context)
    returns (ret: int, resume: Context)
    requires kernel.Valid() && process.Valid() && process.fds !in kernel.Repr()
    requires kernel.current.Some? && kernel.current.value < NUM_PIDS
    requires var p := kernel.pcbs[kernel.current.value];
             p.pid >= MAX_TERMINALS ==>
               0 <= p.parent < NUM_PIDS && 0 <= kernel.pcbs[p.parent].pid < NUM_PIDS && p.parent != kernel.current.value
    modifies kernel.Repr(), process.fds
    ensures kernel.Valid() && process.Valid() && process.fds[..] == NewTable()
    ensures kernel.State() == KernelState.Halt(old(kernel.State()), ctx)
    ensures ret == (if exceptionInChild then 256 else status) && resume == old(kernel.pcbs[kernel.current.value].caller)
  {
    process.CloseAll();
    ret, resume := kernel.Halt(status, exceptionInChild, ctx);
  }
}
