/**
  The read-only file system image: directory entries, inodes that list data blocks, and the
  loops that copy file contents and names out of them.
 */
module FileSystem {
  import opened Bytes

  const FILE_NAME_SIZE := 32
  const MAX_NUM_DENTRIES := 63
  const MAX_DATA_BLOCKS := 1023
  const BLOCK_BYTES := 4096
  const RTC_FILE_TYPE := 0
  const DIRECTORY_FILE_TYPE := 1
  const WRAP := 0x1_0000_0000

  datatype Dentry = Dentry(fileName: seq<byte>, fileType: dword, inodeNumber: dword)
  datatype Inode = Inode(numBytes: dword, dataBlockNumber: seq<dword>)
  datatype Image = Image(numDentries: dword, bootDentries: seq<Dentry>, inodes: seq<Inode>, blocks: seq<seq<byte>>)

  function NumBlocks(n: Inode): nat { (n.numBytes + BLOCK_BYTES - 1) / BLOCK_BYTES }

  ghost predicate InodeOk(img: Image, n: Inode) {
    && |n.dataBlockNumber| == MAX_DATA_BLOCKS && n.numBytes <= MAX_DATA_BLOCKS * BLOCK_BYTES
    && forall k :: 0 <= k < NumBlocks(n) ==> n.dataBlockNumber[k] < |img.blocks|
  }

  /**
    What the kernel relies on in an image. read finds the entry of an open file by its inode number,
    so the first entry with that number must be of the right type. Only the RTC, which has no inode,
    may have its number in common with a directory.
   */
  ghost predicate WellFormed(img: Image) {
    && img.numDentries <= MAX_NUM_DENTRIES == |img.bootDentries|
    && 1 <= |img.inodes| < WRAP
    && (forall i :: 0 <= i < |img.inodes| ==> InodeOk(img, img.inodes[i]))
    && (forall b :: 0 <= b < |img.blocks| ==> |img.blocks[b]| == BLOCK_BYTES)
    && (forall d :: 0 <= d < MAX_NUM_DENTRIES ==> |img.bootDentries[d].fileName| == FILE_NAME_SIZE)
    && (forall d :: 0 <= d < img.numDentries && !IsDevice(img.bootDentries[d]) ==>
          img.bootDentries[d].inodeNumber < |img.inodes|)
    && (forall d :: 0 <= d < img.numDentries ==> FoundAs(img, d, img.bootDentries[d].fileType))
  }

  /** The type under which entry d, of the given type, is found again by its inode number. */
  predicate FoundAs(img: Image, d: nat, fileType: dword)
    requires d < img.numDentries <= |img.bootDentries|
  {
    var found := img.bootDentries[ByInode(img, img.bootDentries[d].inodeNumber, 0)].fileType;
    found == fileType || (fileType == RTC_FILE_TYPE && found == DIRECTORY_FILE_TYPE)
  }

  predicate IsDevice(d: Dentry) { d.fileType == RTC_FILE_TYPE || d.fileType == DIRECTORY_FILE_TYPE }

  // ---------------------------------------------------------------- file contents

  function Flat(bs: seq<seq<byte>>): seq<byte> {
    if bs == [] then [] else bs[0] + Flat(bs[1..])
  }

  /** The data blocks of an inode, in order. */
  ghost function BlocksOf(img: Image, n: Inode): (bs: seq<seq<byte>>)
    requires WellFormed(img) && InodeOk(img, n)
    ensures forall b :: b in bs ==> |b| == BLOCK_BYTES
  {
    seq(NumBlocks(n), k requires 0 <= k < NumBlocks(n) => img.blocks[n.dataBlockNumber[k]])
  }

  lemma BlockOf(k: nat)
    ensures k < BLOCK_BYTES ==> k / BLOCK_BYTES == 0 && k % BLOCK_BYTES == k
    ensures k >= BLOCK_BYTES ==>
              (k - BLOCK_BYTES) / BLOCK_BYTES == k / BLOCK_BYTES - 1
                  && (k - BLOCK_BYTES) % BLOCK_BYTES == k % BLOCK_BYTES
  {
  }

  lemma {:induction false} FlatIndex(bs: seq<seq<byte>>)
    requires forall b :: b in bs ==> |b| == BLOCK_BYTES
    ensures |Flat(bs)| == |bs| * BLOCK_BYTES
    ensures forall k :: 0 <= k < |Flat(bs)| ==> Flat(bs)[k] == bs[k / BLOCK_BYTES][k % BLOCK_BYTES]
  {
    if bs != [] {
      FlatIndex(bs[1..]);
      forall k | 0 <= k < |Flat(bs)|
        ensures Flat(bs)[k] == bs[k / BLOCK_BYTES][k % BLOCK_BYTES]
      {
        BlockOf(k);
        if k >= BLOCK_BYTES {
          assert Flat(bs)[k] == Flat(bs[1..])[k - BLOCK_BYTES];
        }
      }
    }
  }

  /** The contents of a file: its blocks one after the other, cut to its size. */
  ghost function Contents(img: Image, inode: nat): (c: seq<byte>)
    requires WellFormed(img) && inode < |img.inodes|
    ensures |c| == img.inodes[inode].numBytes
  {
    var n := img.inodes[inode];
    FlatIndex(BlocksOf(img, n));
    Flat(BlocksOf(img, n))[..n.numBytes]
  }

  lemma ContentsAt(img: Image, inode: nat, k: nat)
    requires WellFormed(img) && inode < |img.inodes| && k < img.inodes[inode].numBytes
    ensures var n := img.inodes[inode];
            && k / 4096 < NumBlocks(n) && n.dataBlockNumber[k / 4096] < |img.blocks|
            && Contents(img, inode)[k] == img.blocks[n.dataBlockNumber[k / 4096]][k % 4096]
  {
    FlatIndex(BlocksOf(img, img.inodes[inode]));
  }

  /**
    What read_data returns. The end of the range is computed in 32 bits: when it wraps around,
    nothing is read.
   */
  function ReadCount(img: Image, inode: dword, offset: dword, length: dword): int {
    if inode >= |img.inodes| then -1
    else if offset >= img.inodes[inode].numBytes || offset + length >= WRAP then 0
    else if length <= img.inodes[inode].numBytes - offset then length
    else img.inodes[inode].numBytes - offset
  }

  /** read_data: the bytes come out of the blocks one at a time, but they are a slice of the file. */
  method ReadData(img: Image, inode: dword, offset: dword, buf: array<byte>, length: dword) returns (r: int)
    requires WellFormed(img) && ReadCount(img, inode, offset, length) <= buf.Length
    modifies buf
    ensures r == ReadCount(img, inode, offset, length) <= length && (r == -1 <==> inode >= |img.inodes|)
    ensures r >= 0 ==>
              if offset + length >= 0x1_0000_0000 then r == 0
              else r == length || offset + r == img.inodes[inode].numBytes
                   || (r == 0 && offset > img.inodes[inode].numBytes)
    ensures r >= 0 ==> forall k :: r <= k < buf.Length ==> buf[k] == old(buf[k])
    ensures r > 0 ==> offset + r <= |Contents(img, inode)| && buf[..r] == Contents(img, inode)[offset..offset + r]
    ensures r <= 0 ==> buf[..] == old(buf[..])
  {
    if inode >= |img.inodes| {
      return -1;
    }
    var n := img.inodes[inode];
    if offset >= n.numBytes {
      return 0;
    }
    var limit := (offset + length) % WRAP;
    var current, i := offset, 0;
    while current < limit
      invariant offset <= current <= n.numBytes && i == current - offset && (current <= limit || limit < offset)
      invariant limit < offset ==> i == 0
      invariant forall k :: 0 <= k < i ==> buf[k] == Contents(img, inode)[offset + k]
      invariant forall k :: i <= k < buf.Length ==> buf[k] == old(buf[k])
    {
      if current == n.numBytes {
        return current - offset;
      }
      ContentsAt(img, inode, current);
      buf[i] := img.blocks[n.dataBlockNumber[current / BLOCK_BYTES]][current % BLOCK_BYTES];
      i := i + 1;
      current := current + 1;
    }
    return i;
  }

  // ---------------------------------------------------------------- names

  /** A C string stored in a field: everything before the first NUL. */
  function CString(s: seq<byte>): (r: seq<byte>)
    ensures |r| <= |s| && r == s[..|r|] && NUL !in r && (|r| < |s| ==> s[|r|] == NUL)
  {
    if s == [] || s[0] == NUL then [] else [s[0]] + CString(s[1..])
  }

  lemma CStringIs(s: seq<byte>, n: nat)
    requires n <= |s| && (forall k :: 0 <= k < n ==> s[k] != NUL) && (n < |s| ==> s[n] == NUL)
    ensures CString(s) == s[..n]
  {
    assert |CString(s)| == n;
  }

  function NameOf(d: Dentry): seq<byte> { CString(d.fileName) }

  /** strncmp of a string and a name field over 32 bytes, compared with 0. */
  method SameName(fname: seq<byte>, field: seq<byte>) returns (same: bool)
    requires NUL !in fname && |fname| <= FILE_NAME_SIZE == |field|
    ensures same <==> fname == CString(field)
  {
    var i := 0;
    while i < FILE_NAME_SIZE
      invariant 0 <= i <= |fname| && fname[..i] == field[..i]
      invariant forall k :: 0 <= k < i ==> field[k] != NUL
    {
      var c1 := if i < |fname| then fname[i] else NUL;
      if c1 != field[i] || c1 == NUL {
        if c1 == field[i] {
          CStringIs(field, i);
          assert fname == fname[..i];
        }
        return c1 == field[i];
      }
      i := i + 1;
    }
    CStringIs(field, i);
    assert fname == fname[..i];
    return true;
  }

  /** The first entry from i on with a name, or -1. */
  function Lookup(img: Image, fname: seq<byte>, i: nat): (r: int)
    requires i <= img.numDentries <= |img.bootDentries|
    ensures r == -1 <==> forall k :: i <= k < img.numDentries ==> NameOf(img.bootDentries[k]) != fname
    ensures r != -1 ==> i <= r < img.numDentries && NameOf(img.bootDentries[r]) == fname
    ensures r != -1 ==> forall k :: i <= k < r ==> NameOf(img.bootDentries[k]) != fname
    decreases img.numDentries - i
  {
    if i == img.numDentries then -1
    else if NameOf(img.bootDentries[i]) == fname then i
    else Lookup(img, fname, i + 1)
  }

  /** read_dentry_by_name. */
  method ReadDentryByName(img: Image, fname: seq<byte>) returns (d: Option<Dentry>)
    requires WellFormed(img) && NUL !in fname
    ensures d == if Lookup(img, fname, 0) == -1 then None else Some(img.bootDentries[Lookup(img, fname, 0)])
  {
    if |fname| > FILE_NAME_SIZE {
      assert forall k :: 0 <= k < img.numDentries ==> |NameOf(img.bootDentries[k])| <= FILE_NAME_SIZE;
      return None;
    }
    var i := 0;
    while i < img.numDentries
      invariant 0 <= i <= img.numDentries && Lookup(img, fname, i) == Lookup(img, fname, 0)
    {
      var same := SameName(fname, img.bootDentries[i].fileName);
      if same {
        return Some(img.bootDentries[i]);
      }
      i := i + 1;
    }
    return None;
  }

  /** The first entry from i on with an inode number, or -1. */
  function ByInode(img: Image, inode: dword, i: nat): (r: int)
    requires i <= img.numDentries <= |img.bootDentries|
    ensures r == -1 <==> forall k :: i <= k < img.numDentries ==> img.bootDentries[k].inodeNumber != inode
    ensures r != -1 ==> i <= r < img.numDentries && img.bootDentries[r].inodeNumber == inode
    ensures r != -1 ==> forall k :: i <= k < r ==> img.bootDentries[k].inodeNumber != inode
    decreases img.numDentries - i
  {
    if i == img.numDentries then -1
    else if img.bootDentries[i].inodeNumber == inode then i
    else ByInode(img, inode, i + 1)
  }

  /** find_dentry_by_inode_num. */
  method FindDentryByInodeNum(img: Image, inode: dword) returns (i: int)
    requires WellFormed(img)
    ensures i == ByInode(img, inode, 0)
  {
    i := 0;
    while i < img.numDentries
      invariant 0 <= i <= img.numDentries && ByInode(img, inode, i) == ByInode(img, inode, 0)
    {
      if img.bootDentries[i].inodeNumber == inode {
        return;
      }
      i := i + 1;
    }
    i := -1;
  }

  // ---------------------------------------------------------------- directory listing

  /** The name a read of the directory at a position delivers; nothing after the last entry. */
  function NameAt(img: Image, position: nat): seq<byte>
    requires img.numDentries <= |img.bootDentries|
  {
    if position < img.numDentries then NameOf(img.bootDentries[position]) else []
  }

  /** strncpy of a name field: its string, padded with NULs to 32 bytes. */
  method StrncpyName(buf: array<byte>, src: seq<byte>)
    requires |src| == FILE_NAME_SIZE <= buf.Length
    modifies buf
    ensures buf[..|CString(src)|] == CString(src)
    ensures forall k :: |CString(src)| <= k < FILE_NAME_SIZE ==> buf[k] == NUL
    ensures forall k :: FILE_NAME_SIZE <= k < buf.Length ==> buf[k] == old(buf[k])
  {
    var i := 0;
    while i < FILE_NAME_SIZE && src[i] != NUL
      invariant 0 <= i <= FILE_NAME_SIZE
      invariant forall k :: 0 <= k < i ==> src[k] != NUL && buf[k] == src[k]
      invariant forall k :: FILE_NAME_SIZE <= k < buf.Length ==> buf[k] == old(buf[k])
    {
      buf[i] := src[i];
      i := i + 1;
    }
    CStringIs(src, i);
    ghost var n := i;
    while i < FILE_NAME_SIZE
      invariant n <= i <= FILE_NAME_SIZE
      invariant forall k :: 0 <= k < n ==> buf[k] == src[k]
      invariant forall k :: n <= k < i ==> buf[k] == NUL
      invariant forall k :: FILE_NAME_SIZE <= k < buf.Length ==> buf[k] == old(buf[k])
    {
      buf[i] := NUL;
      i := i + 1;
    }
  }

  /**
    directory_read: the name at a position, and its length. The length is measured in the
    buffer, which must therefore hold a NUL somewhere behind its first 32 bytes; a name of 32
    characters is cut there. The number of bytes asked for is not looked at.
   */
  method DirectoryRead(img: Image, position: dword, buf: array<byte>) returns (r: int)
    requires WellFormed(img)
    requires position < img.numDentries ==> exists z :: FILE_NAME_SIZE <= z < buf.Length && buf[z] == NUL
    modifies buf
    ensures r == |NameAt(img, position)| && (r > 0 ==> r <= buf.Length && buf[..r] == NameAt(img, position))
    ensures forall k :: FILE_NAME_SIZE < k < buf.Length ==> buf[k] == old(buf[k])
  {
    if position >= img.numDentries {
      return 0;
    }
    ghost var z :| FILE_NAME_SIZE <= z < buf.Length && buf[z] == NUL;
    ghost var name := NameAt(img, position);
    StrncpyName(buf, img.bootDentries[position].fileName);
    var len := 0;
    assert forall k :: 0 <= k < |name| ==> buf[k] == name[k];
    while buf[len] != NUL
      invariant 0 <= len <= z && (len <= |name| || |name| == FILE_NAME_SIZE)
      decreases z - len
    {
      len := len + 1;
    }
    if len > FILE_NAME_SIZE {
      buf[FILE_NAME_SIZE] := NUL;
      assert buf[..FILE_NAME_SIZE] == name;
      return FILE_NAME_SIZE;
    }
    return len;
  }
}
