/**
  The file descriptor table of a process: open, read and close, and what a program sees of files
  and directories through any sequence of them.
 */
module Descriptors {
  import opened Bytes
  import opened FileSystem

  const FD_ARRAY_LENGTH := 8

  /** Which table of operations a descriptor points to. */
  datatype Ops = NoOps | TerminalOps | RtcOps | DirectoryOps | FileOps

  datatype Fd = Fd(ops: Ops, inode: dword, position: dword, flags: dword)

  const EMPTY := Fd(NoOps, 0, 0, 0)
  const TERMINAL := Fd(TerminalOps, 0, 0, 1)

  /** The table execute gives a new process: standard input and output on the terminal. */
  function NewTable(): seq<Fd> {
    [TERMINAL, TERMINAL, EMPTY, EMPTY, EMPTY, EMPTY, EMPTY, EMPTY]
  }

  /** The first two descriptors are open on the terminal, and no other is open. */
  lemma NewTableIs(fd: nat)
    requires fd < 8
    ensures |NewTable()| == 8 && NewTable()[fd].flags == (if fd < 2 then 1 else 0)
    ensures NewTable()[fd].ops == (if fd < 2 then TerminalOps else NoOps) && NewTable()[fd].position == 0
  {
    var t := NewTable();
    assert t[0] == t[1] == TERMINAL;
    assert t[2] == t[3] == t[4] == t[5] == t[6] == t[7] == EMPTY;
  }

  function OpsFor(fileType: dword): Ops {
    if fileType == RTC_FILE_TYPE then RtcOps
    else if fileType == DIRECTORY_FILE_TYPE then DirectoryOps
    else FileOps
  }

  // ---------------------------------------------------------------- the calls as functions

  /** The first descriptor from i on that is not in use; the length of the table if there is none. */
  function FirstClosed(fds: seq<Fd>, i: nat): (r: nat)
    requires i <= |fds|
    ensures i <= r <= |fds| && (r < |fds| ==> fds[r].flags != 1) && forall k :: i <= k < r ==> fds[k].flags == 1
    decreases |fds| - i
  {
    if i < |fds| && fds[i].flags == 1 then FirstClosed(fds, i + 1) else i
  }

  /** The new table and the descriptor returned by open. */
  function OpenFd(img: Image, fds: seq<Fd>, fname: seq<byte>): (seq<Fd>, int)
    requires img.numDentries <= |img.bootDentries|
  {
    var fd, d := FirstClosed(fds, 0), Lookup(img, fname, 0);
    if fd == |fds| || d == -1 then (fds, -1)
    else
      var e := img.bootDentries[d];
      (fds[fd := Fd(OpsFor(e.fileType), e.inodeNumber, 0, 1)], fd as int)
  }

  /** The new table and the result of close. */
  function CloseFd(fds: seq<Fd>, fd: int): (seq<Fd>, int)
    requires |fds| == FD_ARRAY_LENGTH
  {
    if fd <= 1 || fd >= FD_ARRAY_LENGTH || fds[fd].flags != 1 then (fds, -1) else (fds[fd := EMPTY], 0)
  }

  /** The type under which read treats a descriptor: that of the first entry with its inode number. */
  function TypeOf(img: Image, inode: dword): Option<dword>
    requires img.numDentries <= |img.bootDentries|
  {
    var d := ByInode(img, inode, 0);
    if d == -1 then None else Some(img.bootDentries[d].fileType)
  }

  /** A signed count passed on to a parameter that is unsigned. */
  function Unsigned(n: int): dword
    requires -0x8000_0000 <= n < 0x8000_0000
  {
    if n < 0 then n + WRAP else n
  }

  datatype Outcome = Outcome(fds: seq<Fd>, ret: int, data: seq<byte>)

  /**
    The new table, the result and the bytes delivered by read; device is what the terminal or RTC
    driver would return for a descriptor that is one of theirs.
   */
  ghost function ReadFd(img: Image, fds: seq<Fd>, fd: int, nbytes: int, device: int): Outcome
    requires WellFormed(img) && |fds| == FD_ARRAY_LENGTH && -0x8000_0000 <= nbytes < 0x8000_0000
  {
    if fd < 0 || fd >= FD_ARRAY_LENGTH || fds[fd].flags != 1 || fd == 1 then Outcome(fds, -1, [])
    else if fd == 0 then Outcome(fds, device, [])
    else
      var e := fds[fd];
      match TypeOf(img, e.inode)
      case None => Outcome(fds, -1, [])
      case Some(t) =>
        if t == RTC_FILE_TYPE then Outcome(fds, device, [])
        else if t == DIRECTORY_FILE_TYPE && e.ops == RtcOps then
          Outcome(fds[fd := e.(position := (e.position + 1) % WRAP)], device, [])
        else if t == DIRECTORY_FILE_TYPE then
          Outcome(fds[fd := e.(position := (e.position + 1) % WRAP)], |NameAt(img, e.position)|,
              NameAt(img, e.position))
        else
          var r := ReadCount(img, e.inode, e.position, Unsigned(nbytes));
          Outcome(fds[fd := e.(position := (e.position + r) % WRAP)], r,
                  if r > 0 then Contents(img, e.inode)[e.position..e.position + r] else [])
  }

  /** The read is one of a directory that has a name left to deliver. */
  predicate DeliversName(img: Image, fds: seq<Fd>, fd: int)
    requires |fds| == FD_ARRAY_LENGTH && img.numDentries <= |img.bootDentries|
  {
    && 2 <= fd < FD_ARRAY_LENGTH && fds[fd].flags == 1 && fds[fd].ops == DirectoryOps
    && TypeOf(img, fds[fd].inode) == Some(DIRECTORY_FILE_TYPE) && fds[fd].position < img.numDentries
  }

  // ---------------------------------------------------------------- the calls

  class Process {
    const img: Image
    const fds: array<Fd>

    ghost predicate Valid()
      reads fds
    {
      fds.Length == FD_ARRAY_LENGTH && WellFormed(img) && TableOk(img, fds[..])
    }

    constructor (img: Image)
      requires WellFormed(img)
      ensures Valid() && fresh(fds) && this.img == img && fds[..] == NewTable()
    {
      this.img := img;
      var table := new Fd[FD_ARRAY_LENGTH];
      for i := 0 to FD_ARRAY_LENGTH
        invariant forall k :: 0 <= k < i ==> table[k] == EMPTY
      {
        table[i] := EMPTY;
      }
      table[0] := TERMINAL;
      table[1] := TERMINAL;
      fds := table;
    }

    method Open(fname: seq<byte>) returns (ret: int)
      requires Valid() && NUL !in fname
      modifies fds
      ensures Valid() && (fds[..], ret) == OpenFd(img, old(fds[..]), fname)
    {
      OpenKeepsTable(img, fds[..], fname);
      var fd := 0;
      while fd < FD_ARRAY_LENGTH && fds[fd].flags == 1
        invariant 0 <= fd <= FD_ARRAY_LENGTH && FirstClosed(fds[..], fd) == FirstClosed(fds[..], 0)
      {
        fd := fd + 1;
      }
      if fd == FD_ARRAY_LENGTH {
        return -1;
      }
      var d := ReadDentryByName(img, fname);
      if d.None? {
        return -1;
      }
      fds[fd] := Fd(OpsFor(d.value.fileType), d.value.inodeNumber, 0, 1);
      return fd;
    }

    method Close(fd: int) returns (ret: int)
      requires Valid()
      modifies fds
      ensures Valid() && (fds[..], ret) == CloseFd(old(fds[..]), fd)
    {
      CloseKeepsTable(img, fds[..], fd);
      if fd <= 1 || fd >= FD_ARRAY_LENGTH {
        return -1;
      } else if fds[fd].flags != 1 {
        return -1;
      }
      fds[fd] := EMPTY;
      return 0;
    }

    /** The loop in halt that closes what a process has left open: the table is as execute made it. */
    method CloseAll()
      requires Valid()
      modifies fds
      ensures Valid() && fds[..] == NewTable()
    {
      var i := 0;
      while i < FD_ARRAY_LENGTH
        invariant 0 <= i <= FD_ARRAY_LENGTH && Valid()
        invariant forall k :: 2 <= k < i ==> fds[k] == EMPTY
      {
        var open := fds[i].flags == 1;
        assert !open && i >= 2 ==> FdOk(img, fds[i]);
        var r := Close(i);
        i := i + 1;
      }
    }

    /**
      read; the buffer must be able to take what is delivered, as the caller promises. The length of
      a name is measured in the buffer, which must therefore hold a NUL somewhere behind it.
     */
    method Read(fd: int, buf: array<byte>, nbytes: int, device: int) returns (ret: int)
      requires Valid() && -0x8000_0000 <= nbytes < 0x8000_0000
      requires |ReadFd(img, fds[..], fd, nbytes, device).data| <= buf.Length
      requires DeliversName(img, fds[..], fd) ==> exists z :: FILE_NAME_SIZE <= z < buf.Length && buf[z] == NUL
      modifies fds, buf
      ensures Valid()
      ensures var o := ReadFd(img, old(fds[..]), fd, nbytes, device);
              fds[..] == o.fds && ret == o.ret && |o.data| <= buf.Length && buf[..|o.data|] == o.data
    {
      ReadKeepsTable(img, fds[..], fd, nbytes, device);
      if fd < 0 || fd >= FD_ARRAY_LENGTH {
        return -1;
      }
      if fds[fd].flags != 1 {
        return -1;
      }
      if fd == 1 {
        return -1;
      }
      if fd == 0 {
        return device;
      }
      var d := FindDentryByInodeNum(img, fds[fd].inode);
      if d == -1 {
        return -1;
      }
      var fileType := img.bootDentries[d].fileType;
      if fileType == RTC_FILE_TYPE {
        return device;
      } else if fileType == DIRECTORY_FILE_TYPE {
        ret := ReadDirectory(fd, buf, nbytes, device);
      } else {
        ret := ReadFile(fd, buf, nbytes, device);
      }
    }

    /** The function called is that of the descriptor, the type that of the entry found. */
    method ReadDirectory(fd: nat, buf: array<byte>, ghost nbytes: int, device: int) returns (ret: int)
      requires Valid() && 2 <= fd < FD_ARRAY_LENGTH && fds[fd].flags == 1 && -0x8000_0000 <= nbytes < 0x8000_0000
      requires TypeOf(img, fds[fd].inode) == Some(DIRECTORY_FILE_TYPE)
      requires DeliversName(img, fds[..], fd) ==> exists z :: FILE_NAME_SIZE <= z < buf.Length && buf[z] == NUL
      modifies fds, buf
      ensures var o := ReadFd(img, old(fds[..]), fd, nbytes, device);
              fds[..] == o.fds && ret == o.ret && |o.data| <= buf.Length && buf[..|o.data|] == o.data
    {
      if fds[fd].ops == RtcOps {
        ret := device;
      } else {
        ret := DirectoryRead(img, fds[fd].position, buf);
      }
      fds[fd] := fds[fd].(position := (fds[fd].position + 1) % WRAP);
    }

    method ReadFile(fd: nat, buf: array<byte>, nbytes: int, ghost device: int) returns (ret: int)
      requires Valid() && 2 <= fd < FD_ARRAY_LENGTH && fds[fd].flags == 1 && -0x8000_0000 <= nbytes < 0x8000_0000
      requires TypeOf(img, fds[fd].inode).Some?
                && !(TypeOf(img, fds[fd].inode).value in {RTC_FILE_TYPE, DIRECTORY_FILE_TYPE})
      requires |ReadFd(img, fds[..], fd, nbytes, device).data| <= buf.Length
      modifies fds, buf
      ensures var o := ReadFd(img, old(fds[..]), fd, nbytes, device);
              fds[..] == o.fds && ret == o.ret && |o.data| <= buf.Length && buf[..|o.data|] == o.data
    {
      ret := ReadData(img, fds[fd].inode, fds[fd].position, buf, Unsigned(nbytes));
      fds[fd] := fds[fd].(position := (fds[fd].position + ret) % WRAP);
    }
  }

  // ---------------------------------------------------------------- what every call keeps

  /** A descriptor in use above 1 is read under the type it was opened with, and a file is read within its size. */
  ghost predicate FdOk(img: Image, e: Fd)
    requires WellFormed(img)
  {
    if e.flags != 1 then e == EMPTY
    else
      && TypeOf(img, e.inode).Some?
      && (e.ops == OpsFor(TypeOf(img, e.inode).value)
         || (e.ops == RtcOps && TypeOf(img, e.inode).value == DIRECTORY_FILE_TYPE))
      && (e.ops == FileOps ==> e.inode < |img.inodes| && e.position <= img.inodes[e.inode].numBytes)
  }

  /** Descriptors 0 and 1 are the terminal, for as long as the process lives. */
  ghost predicate TableOk(img: Image, fds: seq<Fd>)
    requires WellFormed(img)
  {
    && |fds| == FD_ARRAY_LENGTH && fds[0] == TERMINAL && fds[1] == TERMINAL
    && forall k :: 2 <= k < FD_ARRAY_LENGTH ==> FdOk(img, fds[k])
  }

  /** An opened entry is found again under its own type by its inode number. */
  lemma OpenedType(img: Image, d: nat)
    requires WellFormed(img) && d < img.numDentries
    ensures TypeOf(img, img.bootDentries[d].inodeNumber).Some? && FoundAs(img, d, img.bootDentries[d].fileType)
    ensures img.bootDentries[d].fileType != RTC_FILE_TYPE ==>
              TypeOf(img, img.bootDentries[d].inodeNumber) == Some(img.bootDentries[d].fileType)
  {
  }

  /**
    read looks up the entry of a descriptor by its inode number. It finds the right type for every
    entry of an image exactly if entries that share an inode number are of the same type.
   */
  lemma ReadKnowsTypes(img: Image)
    requires img.numDentries <= |img.bootDentries|
    ensures (forall d :: 0 <= d < img.numDentries ==>
               TypeOf(img, img.bootDentries[d].inodeNumber) == Some(img.bootDentries[d].fileType))
            <==> (forall d, e {:trigger img.bootDentries[d], img.bootDentries[e]} ::
                    0 <= d < img.numDentries && 0 <= e < img.numDentries
                    && img.bootDentries[d].inodeNumber == img.bootDentries[e].inodeNumber
                    ==> img.bootDentries[d].fileType == img.bootDentries[e].fileType)
  {
    forall d | 0 <= d < img.numDentries
      ensures var k := ByInode(img, img.bootDentries[d].inodeNumber, 0);
        0 <= k < img.numDentries && img.bootDentries[k].inodeNumber == img.bootDentries[d].inodeNumber
    {
    }
  }

  /** The name field of an entry: the name, padded with NULs. */
  function NameField(name: seq<byte>): seq<byte> {
    seq(FILE_NAME_SIZE, k requires 0 <= k < FILE_NAME_SIZE => if k < |name| then name[k] else NUL)
  }

  const RTC_NAME: seq<byte> := [114, 116, 99]
  const DOT: seq<byte> := [46]

  /** An image that lists the RTC before the directory, both of them without an inode. */
  const RTC_FIRST := Image(2,
      [Dentry(NameField(RTC_NAME), RTC_FILE_TYPE, 0), Dentry(NameField(DOT), DIRECTORY_FILE_TYPE, 0)],
                           [], [])

  /** In that image the directory can be opened as one, but read takes it for the RTC. */
  lemma RtcFirstIsMistaken()
    ensures OpenFd(RTC_FIRST, NewTable(), DOT) == (NewTable()[2 := Fd(DirectoryOps, 0, 0, 1)], 2)
    ensures TypeOf(RTC_FIRST, 0) == Some(RTC_FILE_TYPE)
  {
    CStringIs(NameField(RTC_NAME), 3);
    CStringIs(NameField(DOT), 1);
    assert NameOf(RTC_FIRST.bootDentries[0])[0] != DOT[0] && NameOf(RTC_FIRST.bootDentries[1]) == DOT;
    assert NewTable()[2].flags == 0 && FirstClosed(NewTable(), 2) == 2;
    assert FirstClosed(NewTable(), 1) == 2;
  }

  /** What open puts into the table is right for the entry it has found. */
  lemma OpenedIsOk(img: Image, d: nat)
    requires WellFormed(img) && d < img.numDentries
    ensures FdOk(img, Fd(OpsFor(img.bootDentries[d].fileType), img.bootDentries[d].inodeNumber, 0, 1))
  {
    OpenedType(img, d);
  }

  lemma PutKeepsTable(img: Image, fds: seq<Fd>, fd: nat, e: Fd)
    requires WellFormed(img) && TableOk(img, fds) && FdOk(img, e) && 2 <= fd < FD_ARRAY_LENGTH
    ensures TableOk(img, fds[fd := e])
  {
  }

  /** Where open puts a descriptor, and when it fails. */
  lemma OpenPlaces(img: Image, fds: seq<Fd>, fname: seq<byte>)
    requires img.numDentries <= |img.bootDentries|
    ensures var (r, fd) := OpenFd(img, fds, fname);
            && (fd == -1 ==> r == fds)
            && (fd == -1 <==> (forall k :: 0 <= k < |fds| ==> fds[k].flags == 1)
                              || forall d :: 0 <= d < img.numDentries ==> NameOf(img.bootDentries[d]) != fname)
            && (fd != -1 ==>
                 && 0 <= fd < |fds| == |r| && fds[fd].flags != 1 && (forall k :: 0 <= k < fd ==> fds[k].flags == 1)
                 && r[fd].flags == 1 && r[fd].position == 0 && forall k :: 0 <= k < |fds| && k != fd ==> r[k] == fds[k])
  {
  }

  /** The first entry of a name. */
  ghost predicate IsFirstNamed(img: Image, fname: seq<byte>, d: nat)
    requires img.numDentries <= |img.bootDentries|
  {
    && d < img.numDentries && NameOf(img.bootDentries[d]) == fname
    && forall k :: 0 <= k < d ==> NameOf(img.bootDentries[k]) != fname
  }

  /** A descriptor that stands at the start of what an entry describes, with the operations of its type. */
  ghost predicate OpenedOn(e: Fd, d: Dentry) {
    && e.inode == d.inodeNumber && e.position == 0 && e.flags == 1
    && e.ops == (if d.fileType == 0 then RtcOps else if d.fileType == 1 then DirectoryOps else FileOps)
  }

  /** A descriptor for the first entry of a name. */
  ghost predicate OpenedAs(img: Image, fname: seq<byte>, e: Fd)
    requires img.numDentries <= |img.bootDentries|
  {
    exists d: nat :: IsFirstNamed(img, fname, d) && OpenedOn(e, img.bootDentries[d])
  }

  /** open opens what is named: the first entry of that name. */
  lemma OpenFindsName(img: Image, fds: seq<Fd>, fname: seq<byte>, d: nat)
    requires img.numDentries <= |img.bootDentries| && IsFirstNamed(img, fname, d)
    ensures var (r, fd) := OpenFd(img, fds, fname); fd != -1 ==> 0 <= fd < |r| && OpenedOn(r[fd], img.bootDentries[d])
  {
  }

  /**
    open gives out the least free descriptor and leaves the others alone; it fails, and changes
    nothing, exactly when all eight are in use or there is no entry of that name.
   */
  lemma OpenKeepsTable(img: Image, fds: seq<Fd>, fname: seq<byte>)
    requires WellFormed(img) && TableOk(img, fds)
    ensures var (r, fd) := OpenFd(img, fds, fname);
            && TableOk(img, r)
            && (fd == -1 ==> r == fds)
            && (fd == -1 <==> (forall k :: 0 <= k < FD_ARRAY_LENGTH ==> fds[k].flags == 1)
                              || forall d :: 0 <= d < img.numDentries ==> NameOf(img.bootDentries[d]) != fname)
            && (fd != -1 ==>
                 && 2 <= fd < FD_ARRAY_LENGTH && fds[fd].flags != 1 && (forall k :: 0 <= k < fd ==> fds[k].flags == 1)
                 && r[fd].flags == 1 && r[fd].position == 0
                 && (forall k :: 0 <= k < FD_ARRAY_LENGTH && k != fd ==> r[k] == fds[k])
                 && OpenedAs(img, fname, r[fd]))
  {
    var fd, d := FirstClosed(fds, 0), Lookup(img, fname, 0);
    OpenPlaces(img, fds, fname);
    assert fds[0].flags == 1 && fds[1].flags == 1;
    if fd != |fds| && d != -1 {
      assert IsFirstNamed(img, fname, d);
      OpenFindsName(img, fds, fname, d);
      OpenedIsOk(img, d);
      PutKeepsTable(img, fds, fd, Fd(OpsFor(img.bootDentries[d].fileType), img.bootDentries[d].inodeNumber, 0, 1));
    }
  }

  /**
    The reads that deliver nothing from the image: what the terminal returns for descriptor 0, what the
    RTC returns for one of its own, and a failure for descriptor 1 and for those that are not open.
   */
  lemma ReadElsewhere(img: Image, fds: seq<Fd>, fd: int, nbytes: int, device: int)
    requires WellFormed(img) && TableOk(img, fds) && -0x8000_0000 <= nbytes < 0x8000_0000
    ensures fd == 0 ==> ReadFd(img, fds, fd, nbytes, device) == Outcome(fds, device, [])
    ensures fd < 0 || fd == 1 || fd >= 8 || fds[fd].flags != 1 ==>
              ReadFd(img, fds, fd, nbytes, device) == Outcome(fds, -1, [])
    ensures 2 <= fd < 8 && fds[fd].flags == 1 && fds[fd].ops == RtcOps ==>
              var o := ReadFd(img, fds, fd, nbytes, device); o.ret == device && o.data == [] && o.fds[fd].ops == RtcOps
  {
  }

  /** close fails, and changes nothing, exactly for descriptors 0 and 1 and those not open; otherwise it empties one. */
  lemma CloseEmpties(fds: seq<Fd>, fd: int)
    requires |fds| == 8
    ensures CloseFd(fds, fd).1 == (if 2 <= fd < 8 && fds[fd].flags == 1 then 0 else -1)
    ensures CloseFd(fds, fd).1 == -1 ==> CloseFd(fds, fd).0 == fds
    ensures CloseFd(fds, fd).1 == 0 ==> CloseFd(fds, fd).0 == fds[fd := Fd(NoOps, 0, 0, 0)]
  {
  }

  /** close undoes an open, and touches no other descriptor. */
  lemma CloseKeepsTable(img: Image, fds: seq<Fd>, fd: int)
    requires WellFormed(img) && TableOk(img, fds)
    ensures TableOk(img, CloseFd(fds, fd).0)
    ensures forall k :: 0 <= k < FD_ARRAY_LENGTH && k != fd ==> CloseFd(fds, fd).0[k] == fds[k]
  {
  }

  lemma CloseUndoesOpen(img: Image, fds: seq<Fd>, fname: seq<byte>)
    requires WellFormed(img) && TableOk(img, fds) && OpenFd(img, fds, fname).1 != -1
    ensures |OpenFd(img, fds, fname).0| == FD_ARRAY_LENGTH
    ensures CloseFd(OpenFd(img, fds, fname).0, OpenFd(img, fds, fname).1) == (fds, 0)
  {
    OpenKeepsTable(img, fds, fname);
    var (r, fd) := OpenFd(img, fds, fname);
    assert fds[fd] == EMPTY;
    assert r[fd := EMPTY] == fds;
  }

  lemma ReadKeepsTable(img: Image, fds: seq<Fd>, fd: int, nbytes: int, device: int)
    requires WellFormed(img) && TableOk(img, fds) && -0x8000_0000 <= nbytes < 0x8000_0000
    ensures TableOk(img, ReadFd(img, fds, fd, nbytes, device).fds)
    ensures forall k :: 0 <= k < FD_ARRAY_LENGTH && k != fd ==> ReadFd(img, fds, fd, nbytes, device).fds[k] == fds[k]
  {
  }

  // ---------------------------------------------------------------- runs

  type int32 = x: int | -0x8000_0000 <= x < 0x8000_0000

  datatype Call = OpenCall(fname: seq<byte>) | CloseCall(fd: int) | ReadCall(fd: int, nbytes: int32, device: int)

  ghost function After(img: Image, fds: seq<Fd>, c: Call): (r: seq<Fd>)
    requires WellFormed(img) && TableOk(img, fds)
    ensures TableOk(img, r)
  {
    match c
    case OpenCall(fname) =>
      OpenKeepsTable(img, fds, fname);
      OpenFd(img, fds, fname).0
    case CloseCall(fd) =>
      CloseKeepsTable(img, fds, fd);
      CloseFd(fds, fd).0
    case ReadCall(fd, nbytes, device) =>
      ReadKeepsTable(img, fds, fd, nbytes, device);
      ReadFd(img, fds, fd, nbytes, device).fds
  }

  /** The table after a run of calls: well formed after every run. */
  ghost function RunCalls(img: Image, fds: seq<Fd>, cs: seq<Call>): (r: seq<Fd>)
    requires WellFormed(img) && TableOk(img, fds)
    ensures TableOk(img, r)
    decreases |cs|
  {
    if cs == [] then fds else After(img, RunCalls(img, fds, cs[..|cs| - 1]), cs[|cs| - 1])
  }

  /** What one call delivers to the reader of descriptor fd: the data of one read, or nothing. */
  ghost function Delivered(img: Image, fds: seq<Fd>, c: Call, fd: int): seq<seq<byte>>
    requires WellFormed(img) && TableOk(img, fds)
  {
    if c.ReadCall? && c.fd == fd then [ReadFd(img, fds, fd, c.nbytes, c.device).data] else []
  }

  /** What the reads of descriptor fd delivered during a run, read by read. */
  ghost function Deliveries(img: Image, fds: seq<Fd>, cs: seq<Call>, fd: int): seq<seq<byte>>
    requires WellFormed(img) && TableOk(img, fds)
    decreases |cs|
  {
    if cs == [] then []
    else
      var init := cs[..|cs| - 1];
      Deliveries(img, fds, init, fd) + Delivered(img, RunCalls(img, fds, init), cs[|cs| - 1], fd)
  }

  lemma {:induction false} FlatAppend(a: seq<seq<byte>>, b: seq<byte>)
    ensures Flat(a + [b]) == Flat(a) + b
  {
    if a == [] {
      assert Flat([b]) == b + Flat([]);
    } else {
      assert (a + [b])[1..] == a[1..] + [b];
      FlatAppend(a[1..], b);
    }
  }

  /** A descriptor that is not closed keeps its file; calls on other descriptors do not move it. */
  lemma OneCall(img: Image, fds: seq<Fd>, c: Call, fd: nat)
    requires WellFormed(img) && TableOk(img, fds) && 2 <= fd < FD_ARRAY_LENGTH
    requires fds[fd].flags == 1 && c != CloseCall(fd)
    ensures var r := After(img, fds, c);
            && r[fd] == fds[fd].(position := r[fd].position)
            && (!(c.ReadCall? && c.fd == fd) ==> r[fd] == fds[fd])
  {
    match c
    case OpenCall(fname) => OpenKeepsTable(img, fds, fname);
    case CloseCall(k) => CloseKeepsTable(img, fds, k);
    case ReadCall(k, nbytes, device) => ReadKeepsTable(img, fds, k, nbytes, device);
  }

  /** One read of a regular file: the next min(nbytes, rest) bytes; a negative count is taken for a large one. */
  lemma OneFileRead(img: Image, fds: seq<Fd>, fd: nat, nbytes: int, device: int)
    requires WellFormed(img) && TableOk(img, fds) && 2 <= fd < FD_ARRAY_LENGTH && fds[fd].flags == 1
    requires fds[fd].ops == FileOps && -0x8000_0000 <= nbytes < 0x8000_0000
    ensures var e, o := fds[fd], ReadFd(img, fds, fd, nbytes, device);
            var c := Contents(img, e.inode);
            && o.ret == |o.data| && o.fds[fd].position == e.position + |o.data| <= |c|
            && o.data == c[e.position..e.position + |o.data|]
            && (nbytes >= 0 ==> |o.data| == if nbytes <= |c| - e.position then nbytes else |c| - e.position)
            && (nbytes < 0 ==> |o.data| == if e.position + nbytes < 0 then |c| - e.position else 0)
  {
  }

  lemma FlatExtends(c: seq<byte>, p: nat, ds: seq<seq<byte>>, data: seq<byte>)
    requires p + |data| <= |c| && Flat(ds) == c[..p] && data == c[p..p + |data|]
    ensures Flat(ds + [data]) == c[..p + |data|]
  {
    FlatAppend(ds, data);
  }

  /** One more call takes the bytes delivered so far from one prefix of the file to another. */
  lemma FileStep(img: Image, fds: seq<Fd>, c: Call, fd: nat, ds: seq<seq<byte>>)
    requires WellFormed(img) && TableOk(img, fds) && 2 <= fd < FD_ARRAY_LENGTH && c != CloseCall(fd)
    requires fds[fd].flags == 1 && fds[fd].ops == FileOps
    requires Flat(ds) == Contents(img, fds[fd].inode)[..fds[fd].position]
    ensures var r := After(img, fds, c);
            && r[fd] == fds[fd].(position := r[fd].position) && r[fd].position <= |Contents(img, r[fd].inode)|
            && Flat(ds + Delivered(img, fds, c, fd)) == Contents(img, r[fd].inode)[..r[fd].position]
  {
    OneCall(img, fds, c, fd);
    if c.ReadCall? && c.fd == fd {
      OneFileRead(img, fds, fd, c.nbytes, c.device);
      FlatExtends(Contents(img, fds[fd].inode), fds[fd].position, ds, ReadFd(img, fds, fd, c.nbytes, c.device).data);
    } else {
      assert ds + [] == ds;
    }
  }

  /**
    Reads compose: whatever else the program opens, closes and reads in between, the bytes its
    reads of one open regular file deliver, one after the other, are the beginning of the file,
    and the position counts them.
   */
  lemma {:induction false} ReadsDeliverPrefix(img: Image, fds: seq<Fd>, cs: seq<Call>, fd: nat)
    requires WellFormed(img) && TableOk(img, fds) && 2 <= fd < FD_ARRAY_LENGTH
    requires fds[fd].flags == 1 && fds[fd].ops == FileOps && fds[fd].position == 0
    requires CloseCall(fd) !in cs
    ensures var e := RunCalls(img, fds, cs)[fd];
            && e == fds[fd].(position := e.position) && e.position <= |Contents(img, e.inode)|
            && Flat(Deliveries(img, fds, cs, fd)) == Contents(img, e.inode)[..e.position]
    decreases |cs|
  {
    if cs != [] {
      var init := cs[..|cs| - 1];
      ReadsDeliverPrefix(img, fds, init, fd);
      FileStep(img, RunCalls(img, fds, init), cs[|cs| - 1], fd, Deliveries(img, fds, init, fd));
    }
  }

  /**
    Opening a file and reading it: whatever else the program does in between, its reads deliver the
    beginning of the contents of the first entry of that name.
   */
  lemma OpenThenRead(img: Image, fds: seq<Fd>, fname: seq<byte>, d: nat, cs: seq<Call>)
    requires WellFormed(img) && TableOk(img, fds) && IsFirstNamed(img, fname, d) && img.bootDentries[d].fileType > 1
    requires OpenFd(img, fds, fname).1 != -1 && CloseCall(OpenFd(img, fds, fname).1) !in cs
    ensures var (r, fd) := OpenFd(img, fds, fname);
            && TableOk(img, r) && 2 <= fd < FD_ARRAY_LENGTH && img.bootDentries[d].inodeNumber < |img.inodes|
            && Flat(Deliveries(img, r, cs, fd)) <= Contents(img, img.bootDentries[d].inodeNumber)
            && RunCalls(img, r, cs)[fd].position == |Flat(Deliveries(img, r, cs, fd))|
  {
    OpenKeepsTable(img, fds, fname);
    OpenFindsName(img, fds, fname, d);
    var (r, fd) := OpenFd(img, fds, fname);
    ReadsOfEntry(img, r, cs, fd, img.bootDentries[d]);
  }

  lemma ReadsOfEntry(img: Image, fds: seq<Fd>, cs: seq<Call>, fd: nat, d: Dentry)
    requires WellFormed(img) && TableOk(img, fds) && 2 <= fd < FD_ARRAY_LENGTH && CloseCall(fd) !in cs
    requires OpenedOn(fds[fd], d) && d.fileType > 1
    ensures d.inodeNumber < |img.inodes|
    ensures Flat(Deliveries(img, fds, cs, fd)) <= Contents(img, d.inodeNumber)
    ensures RunCalls(img, fds, cs)[fd].position == |Flat(Deliveries(img, fds, cs, fd))|
  {
    ReadsDeliverPrefix(img, fds, cs, fd);
  }

  /** At the end of the file every read returns 0; before it, a positive count makes progress. */
  lemma ReadStopsAtEnd(img: Image, fds: seq<Fd>, fd: nat, nbytes: int, device: int)
    requires WellFormed(img) && TableOk(img, fds) && 2 <= fd < FD_ARRAY_LENGTH && fds[fd].flags == 1
    requires fds[fd].ops == FileOps && 0 < nbytes < 0x8000_0000
    ensures ReadFd(img, fds, fd, nbytes, device).ret == 0 <==> fds[fd].position == |Contents(img, fds[fd].inode)|
    ensures ReadFd(img, fds, fd, nbytes, device).ret == 0 ==> ReadFd(img, fds, fd, nbytes, device).fds == fds
  {
    OneFileRead(img, fds, fd, nbytes, device);
  }

  /** One read of a directory: the name at the position, which moves on by one. */
  lemma OneDirectoryRead(img: Image, fds: seq<Fd>, fd: nat, nbytes: int, device: int)
    requires WellFormed(img) && TableOk(img, fds) && 2 <= fd < FD_ARRAY_LENGTH && fds[fd].flags == 1
    requires fds[fd].ops == DirectoryOps && -0x8000_0000 <= nbytes < 0x8000_0000
    ensures var e, o := fds[fd], ReadFd(img, fds, fd, nbytes, device);
            && o.ret == |o.data| && o.data == NameAt(img, e.position)
            && o.fds[fd] == e.(position := (e.position + 1) % WRAP)
  {
  }

  /** ds is the beginning of the listing. */
  ghost predicate Lists(img: Image, ds: seq<seq<byte>>)
    requires img.numDentries <= |img.bootDentries|
  {
    forall k :: 0 <= k < |ds| ==> ds[k] == if k < img.numDentries then NameOf(img.bootDentries[k]) else []
  }

  lemma ListsOneMore(img: Image, ds: seq<seq<byte>>, name: seq<byte>)
    requires img.numDentries <= |img.bootDentries| && Lists(img, ds) && name == NameAt(img, |ds|)
    ensures Lists(img, ds + [name])
  {
  }

  lemma DirectoryReadStep(img: Image, fds: seq<Fd>, c: Call)
    requires WellFormed(img) && TableOk(img, fds) && c.ReadCall? && 2 <= c.fd < FD_ARRAY_LENGTH
    requires fds[c.fd].flags == 1 && fds[c.fd].ops == DirectoryOps && fds[c.fd].position < WRAP - 1
    ensures Delivered(img, fds, c, c.fd) == [NameAt(img, fds[c.fd].position)]
    ensures After(img, fds, c)[c.fd] == fds[c.fd].(position := fds[c.fd].position + 1)
  {
    OneDirectoryRead(img, fds, c.fd, c.nbytes, c.device);
  }

  /** One more call takes the listing so far one name further, or leaves it. */
  lemma DirectoryStep(img: Image, fds: seq<Fd>, c: Call, fd: nat, ds: seq<seq<byte>>)
    requires WellFormed(img) && TableOk(img, fds) && 2 <= fd < FD_ARRAY_LENGTH && c != CloseCall(fd)
    requires fds[fd].flags == 1 && fds[fd].ops == DirectoryOps && fds[fd].position == |ds| < WRAP - 1
    requires Lists(img, ds)
    ensures var more := ds + Delivered(img, fds, c, fd);
            Lists(img, more) && |ds| <= |more| <= |ds| + 1 && After(img, fds, c)[fd] == fds[fd].(position := |more|)
  {
    if c.ReadCall? && c.fd == fd {
      DirectoryReadStep(img, fds, c);
      ListsOneMore(img, ds, NameAt(img, |ds|));
    } else {
      OneCall(img, fds, c, fd);
      assert ds + [] == ds;
    }
  }

  /**
    Listing a directory: the reads of an open directory deliver the names of all entries, once
    each and in order, and nothing from then on.
   */
  lemma {:induction false} ReadsListDirectory(img: Image, fds: seq<Fd>, cs: seq<Call>, fd: nat)
    requires WellFormed(img) && TableOk(img, fds) && 2 <= fd < FD_ARRAY_LENGTH
    requires fds[fd].flags == 1 && fds[fd].ops == DirectoryOps && fds[fd].position == 0
    requires CloseCall(fd) !in cs && |cs| < WRAP
    ensures Lists(img, Deliveries(img, fds, cs, fd)) && |Deliveries(img, fds, cs, fd)| <= |cs|
    ensures RunCalls(img, fds, cs)[fd] == fds[fd].(position := |Deliveries(img, fds, cs, fd)|)
    decreases |cs|
  {
    if cs != [] {
      var init := cs[..|cs| - 1];
      ReadsListDirectory(img, fds, init, fd);
      DirectoryStep(img, RunCalls(img, fds, init), cs[|cs| - 1], fd, Deliveries(img, fds, init, fd));
    }
  }
}
