/**
  The part of execute that looks at the program file: how its header is compared with that of an
  executable, its entry point, and the copy of the file into the program's page.
 */
module Loader {
  import opened Bytes
  import opened FileSystem
  import Paging

  const ENTRY_PT_START := 24
  const ENTRY_PT_LEN := 4
  const HEADER_BYTES := 28
  const MAGIC: seq<byte> := [0x7F, 0x45, 0x4C, 0x46]
  const PROG_IMG_OFFSET := 0x4_8000

  /** The header array after the file has been read into it; a short file leaves the rest of the array as it was. */
  ghost function HeaderRead(img: Image, inode: dword, was: seq<byte>): (h: seq<byte>)
    requires WellFormed(img) && |was| == HEADER_BYTES
    ensures |h| == HEADER_BYTES
  {
    var r := ReadCount(img, inode, 0, HEADER_BYTES);
    seq(HEADER_BYTES, k requires 0 <= k < HEADER_BYTES => if k < r then Contents(img, inode)[k] else was[k])
  }

  lemma HeaderIs(img: Image, inode: dword, was: seq<byte>, h: seq<byte>)
    requires WellFormed(img) && |was| == |h| == HEADER_BYTES
    requires var r := ReadCount(img, inode, 0, HEADER_BYTES);
      && (forall k :: 0 <= k < HEADER_BYTES && k >= r ==> h[k] == was[k])
      && (r > 0 ==> h[..r] == Contents(img, inode)[0..r])
    ensures h == HeaderRead(img, inode, was)
  {
    var r := ReadCount(img, inode, 0, HEADER_BYTES);
    forall k | 0 <= k < HEADER_BYTES && k < r ensures h[k] == Contents(img, inode)[k] {
      assert h[k] == h[..r][k] == Contents(img, inode)[0..r][k];
    }
  }

  /** A number shifted left by i bytes. */
  function Shifted(b: int, i: nat): int
    requires i <= ENTRY_PT_LEN
  {
    b * if i == 0 then 1 else if i == 1 then 0x100 else if i == 2 then 0x1_0000 else if i == 3 then 0x100_0000 else WRAP
  }

  /** The first n of the four bytes of the entry point as a number, the least significant first. */
  function LittleEndian(h: seq<byte>, n: nat): (r: int)
    requires |h| == HEADER_BYTES && n <= ENTRY_PT_LEN
    ensures 0 <= r < Shifted(1, n)
  {
    if n == 0 then 0 else LittleEndian(h, n - 1) + Shifted(h[ENTRY_PT_START + n - 1], n - 1)
  }

  /** The entry point that a header gives, if it is that of an executable. */
  function EntryOf(h: seq<byte>): Option<dword>
    requires |h| == HEADER_BYTES
  {
    if forall k :: 0 <= k < |MAGIC| ==> h[k] == MAGIC[k] then Some(LittleEndian(h, ENTRY_PT_LEN)) else None
  }

  /** The header is that of an executable if it begins with 7F, 'E', 'L', 'F'. */
  lemma EntryIsTold(h: seq<byte>)
    requires |h| == 28
    ensures EntryOf(h).Some? <==> h[0] == 127 && h[1] == 69 && h[2] == 76 && h[3] == 70
    ensures EntryOf(h).Some? ==>
              var b0: int, b1: int, b2: int, b3: int := h[24], h[25], h[26], h[27];
              EntryOf(h).value == b0 + 256 * b1 + 65536 * b2 + 16777216 * b3
  {
    assert MAGIC[0] == 127 && MAGIC[1] == 69 && MAGIC[2] == 76 && MAGIC[3] == 70;
    var b0: int, b1: int, b2: int := h[24], h[25], h[26];
    assert LittleEndian(h, 1) == b0;
    assert LittleEndian(h, 2) == b0 + 256 * b1;
    assert LittleEndian(h, 3) == b0 + 256 * b1 + 65536 * b2;
  }

  method ReadHeader(img: Image, inode: dword, header: array<byte>)
    requires WellFormed(img) && header.Length == HEADER_BYTES
    modifies header
    ensures header[..] == HeaderRead(img, inode, old(header[..]))
  {
    ghost var was := header[..];
    var r := ReadData(img, inode, 0, header, HEADER_BYTES);
    HeaderIs(img, inode, was, header[..]);
  }

  method HasMagic(header: array<byte>) returns (has: bool)
    requires header.Length == HEADER_BYTES
    ensures has <==> EntryOf(header[..]).Some?
  {
    var i := 0;
    while i < |MAGIC|
      invariant 0 <= i <= |MAGIC| && forall k :: 0 <= k < i ==> header[k] == MAGIC[k]
    {
      if header[i] != MAGIC[i] {
        return false;
      }
      i := i + 1;
    }
    return true;
  }

  /** The bytes are shifted to places that do not overlap, so that adding them is the same as or-ing them. */
  method EntryPoint(header: array<byte>) returns (entry: dword)
    requires header.Length == HEADER_BYTES
    ensures entry == LittleEndian(header[..], ENTRY_PT_LEN)
  {
    entry := 0;
    var i := 0;
    while i < ENTRY_PT_LEN
      invariant 0 <= i <= ENTRY_PT_LEN && entry == LittleEndian(header[..], i)
    {
      assert LittleEndian(header[..], i + 1) == entry + Shifted(header[i + ENTRY_PT_START], i);
      entry := entry + Shifted(header[i + ENTRY_PT_START], i);
      i := i + 1;
    }
  }

  /** The steps of execute from the lookup of the file to its entry point; the header array is not initialized. */
  method CheckProgram(img: Image, filename: seq<byte>, header: array<byte>) returns (entry: Option<dword>)
    requires WellFormed(img) && NUL !in filename && header.Length == HEADER_BYTES
    modifies header
    ensures var d := Lookup(img, filename, 0);
            entry == if d == -1 then None
                else EntryOf(HeaderRead(img, img.bootDentries[d].inodeNumber, old(header[..])))
  {
    var dentry := ReadDentryByName(img, filename);
    if dentry.None? {
      return None;
    }
    ReadHeader(img, dentry.value.inodeNumber, header);
    var has := HasMagic(header);
    if !has {
      return None;
    }
    var entryPoint := EntryPoint(header);
    return Some(entryPoint);
  }

  /** The file does not begin like an executable, as far as it goes. */
  ghost predicate Mismatches(img: Image, inode: dword)
    requires WellFormed(img) && inode < |img.inodes|
  {
    exists k :: 0 <= k < |MAGIC| && k < |Contents(img, inode)| && Contents(img, inode)[k] != MAGIC[k]
  }

  lemma HeaderByte(img: Image, inode: dword, was: seq<byte>, k: nat)
    requires WellFormed(img) && inode < |img.inodes| && |was| == HEADER_BYTES && k < HEADER_BYTES
    ensures HeaderRead(img, inode, was)[k] == if k < |Contents(img, inode)| then Contents(img, inode)[k] else was[k]
  {
  }

  /** For a file of at least 28 bytes, or one that does not begin right, what was in the array does not matter. */
  lemma HeaderDecides(img: Image, inode: dword, was: seq<byte>)
    requires WellFormed(img) && inode < |img.inodes| && |was| == HEADER_BYTES
    ensures Mismatches(img, inode) ==> EntryOf(HeaderRead(img, inode, was)).None?
    ensures |Contents(img, inode)| >= HEADER_BYTES ==>
              HeaderRead(img, inode, was) == Contents(img, inode)[..HEADER_BYTES]
  {
    if Mismatches(img, inode) {
      var k :| 0 <= k < |MAGIC| && k < |Contents(img, inode)| && Contents(img, inode)[k] != MAGIC[k];
      HeaderByte(img, inode, was, k);
    }
  }

  /** An array that happens to hold the start of an executable, with a given last byte. */
  function Leftover(last: byte): (h: seq<byte>)
    ensures |h| == HEADER_BYTES
  {
    seq(HEADER_BYTES, k requires 0 <= k < HEADER_BYTES =>
      if k < |MAGIC| then MAGIC[k] else if k == HEADER_BYTES - 1 then last else 0)
  }

  lemma LeftoverDecides(img: Image, inode: dword, last: byte)
    requires WellFormed(img) && inode < |img.inodes|
    requires |Contents(img, inode)| < HEADER_BYTES && !Mismatches(img, inode)
    ensures var e := EntryOf(HeaderRead(img, inode, Leftover(last))); e.Some? && e.value / 0x100_0000 == last
  {
    forall k | 0 <= k < |MAGIC| ensures HeaderRead(img, inode, Leftover(last))[k] == MAGIC[k] {
      HeaderByte(img, inode, Leftover(last), k);
    }
    HeaderByte(img, inode, Leftover(last), HEADER_BYTES - 1);
  }

  ghost predicate SameEntry(img: Image, inode: dword, was: seq<byte>, was': seq<byte>)
    requires WellFormed(img) && |was| == |was'| == HEADER_BYTES
  {
    EntryOf(HeaderRead(img, inode, was)) == EntryOf(HeaderRead(img, inode, was'))
  }

  /** Whether a program runs, and from where, depends on the file alone exactly if that is so. */
  lemma FileDecides(img: Image, inode: dword)
    requires WellFormed(img) && inode < |img.inodes|
    ensures (forall was: seq<byte>, was': seq<byte> :: |was| == |was'| == HEADER_BYTES
              ==> SameEntry(img, inode, was, was'))
            <==> |Contents(img, inode)| >= HEADER_BYTES || Mismatches(img, inode)
  {
    if |Contents(img, inode)| >= HEADER_BYTES || Mismatches(img, inode) {
      forall was: seq<byte>, was': seq<byte> | |was| == |was'| == HEADER_BYTES
        ensures SameEntry(img, inode, was, was')
      {
        HeaderDecides(img, inode, was);
        HeaderDecides(img, inode, was');
      }
    } else {
      LeftoverDecides(img, inode, 0);
      LeftoverDecides(img, inode, 1);
      assert !SameEntry(img, inode, Leftover(0), Leftover(1));
    }
  }

  /** Where byte k of the program file is stored. */
  function LoadAddress(k: nat): nat { Paging.PROGRAM_BASE + PROG_IMG_OFFSET + k }

  const ROOM := Paging.FOUR_MB - PROG_IMG_OFFSET

  /**
    The file is read into the program's page with a length of 4 MB, the size of the page, although
    it does not start at the bottom of it. Every byte of the file finds its place, and that in the
    memory of its own pid, exactly if the file has at most 4 MB less 0x48000 bytes.
   */
  lemma ProgramFits(t: Paging.Tables, pid: nat, video: nat, vidmap: nat, img: Image, inode: dword)
    requires Paging.Shaped(t, Paging.PhysFrame(pid), video, vidmap) && pid < Paging.NUM_PIDS
    requires WellFormed(img) && inode < |img.inodes|
    ensures var size := ReadCount(img, inode, 0, Paging.FOUR_MB);
            && size == |Contents(img, inode)|
            && ((forall k :: 0 <= k < size ==> Paging.Translate(t, LoadAddress(k)).Mapped?) <==> size <= 0x3B_8000)
            && forall k :: 0 <= k < size && k < 0x3B_8000 ==>
                 Paging.Translate(t, LoadAddress(k))
                 == Paging.Mapped(0x80_0000 + pid * 0x40_0000 + 0x4_8000 + k, true)
    ensures forall k: nat :: LoadAddress(k) == 0x804_8000 + k
  {
    var size := |Contents(img, inode)|;
    assert InodeOk(img, img.inodes[inode]);
    forall k | 0 <= k < size
      ensures Paging.Translate(t, LoadAddress(k)).Mapped? <==> k < ROOM
      ensures k < ROOM ==>
                Paging.Translate(t, LoadAddress(k))
                == Paging.Mapped(0x80_0000 + pid * 0x40_0000 + 0x4_8000 + k, true)
    {
      Paging.TranslateIsMemoryMap(t, Paging.PhysFrame(pid), video, vidmap, LoadAddress(k));
      Paging.PidsAreDisjoint(pid, pid, 0);
    }
    if size > ROOM {
      assert !Paging.Translate(t, LoadAddress(ROOM)).Mapped?;
    }
  }

  // ---------------------------------------------------------------- files for which it goes wrong

  const LOWER_A: byte := 97
  const REGULAR_FILE_TYPE: dword := 2

  /** The entry of a regular file named "a", with the first inode. */
  const ENTRY := Dentry(seq(FILE_NAME_SIZE, k => if k == 0 then LOWER_A else NUL), REGULAR_FILE_TYPE, 0)

  /** An image with that file; all of its blocks are one and the same, which begins with the given bytes. */
  function OneFile(first: seq<byte>, numBytes: dword): Image {
    Image(1, seq(MAX_NUM_DENTRIES, _ => ENTRY), [Inode(numBytes, seq(MAX_DATA_BLOCKS, _ => 0))],
          [seq(BLOCK_BYTES, k requires 0 <= k < BLOCK_BYTES => if k < |first| then first[k] else NUL)])
  }

  lemma OneFileIsWellFormed(first: seq<byte>, numBytes: dword)
    requires numBytes <= MAX_DATA_BLOCKS * BLOCK_BYTES
    ensures WellFormed(OneFile(first, numBytes)) && |Contents(OneFile(first, numBytes), 0)| == numBytes
    ensures Lookup(OneFile(first, numBytes), [LOWER_A], 0) == 0
  {
    var img := OneFile(first, numBytes);
    assert NumBlocks(img.inodes[0]) <= MAX_DATA_BLOCKS;
    assert InodeOk(img, img.inodes[0]);
    CStringIs(ENTRY.fileName, 1);
    assert ENTRY.fileName[..1] == [LOWER_A];
  }

  /** A file that is one byte too long for its page. */
  lemma LargeFile()
    ensures var img := OneFile(MAGIC, ROOM + 1); WellFormed(img) && |Contents(img, 0)| > ROOM
  {
    OneFileIsWellFormed(MAGIC, ROOM + 1);
  }

  /** A file of four bytes that begins like an executable. */
  lemma ShortFile()
    ensures var img := OneFile(MAGIC, |MAGIC|);
            WellFormed(img) && |Contents(img, 0)| < HEADER_BYTES && !Mismatches(img, 0)
  {
    var img := OneFile(MAGIC, |MAGIC|);
    OneFileIsWellFormed(MAGIC, |MAGIC|);
    forall k | 0 <= k < |MAGIC| ensures Contents(img, 0)[k] == MAGIC[k] {
      ContentsAt(img, 0, k);
    }
  }
}
