/**
  The kernel's memory routines. Memory is an array indexed by address, so that the alignment the
  routines look at is the alignment of the index.
 */
module LibMem {
  import opened Bytes

  /** Memory m with n bytes from s copied to d, all of them read before any is written. */
  function Moved(m: seq<byte>, d: nat, s: nat, n: nat): (m': seq<byte>)
    requires d + n <= |m| && s + n <= |m|
    ensures |m'| == |m|
  {
    seq(|m|, k requires 0 <= k < |m| => if d <= k < d + n then m[s + (k - d)] else m[k])
  }

  lemma MovedAt(m: seq<byte>, d: nat, s: nat, n: nat, k: nat)
    requires d + n <= |m| && s + n <= |m| && k < |m|
    ensures Moved(m, d, s, n)[k] == if d <= k < d + n then m[s + (k - d)] else m[k]
  {
  }

  /** Memory m with n bytes from s set to c. */
  function Filled(m: seq<byte>, s: nat, n: nat, c: byte): (m': seq<byte>)
    requires s + n <= |m|
    ensures |m'| == |m|
  {
    seq(|m|, k requires 0 <= k < |m| => if s <= k < s + n then c else m[k])
  }

  // ---------------------------------------------------------------- memset

  /** The double word that memset stores: the byte c in all four places. */
  function Splat(c: byte): dword { c * 0x100_0000 + c * 0x1_0000 + c * 0x100 + c }

  /** The byte of v that a little-endian store puts at offset k. */
  function ByteOf(v: dword, k: nat): byte
    requires k < 4
  {
    (if k == 0 then v else if k == 1 then v / 0x100 else if k == 2 then v / 0x1_0000 else v / 0x100_0000) % 0x100
  }

  lemma SplatBytes(c: byte)
    ensures ByteOf(Splat(c), 0) == ByteOf(Splat(c), 1) == ByteOf(Splat(c), 2) == ByteOf(Splat(c), 3) == c
  {
    assert Splat(c) / 0x100 == c * 0x1_0000 + c * 0x100 + c;
    assert Splat(c) / 0x1_0000 == c * 0x100 + c;
    assert Splat(c) / 0x100_0000 == c;
  }

  method StoreDword(mem: array<byte>, at: nat, v: dword)
    requires at + 4 <= mem.Length
    modifies mem
    ensures forall k :: 0 <= k < mem.Length ==>
              mem[k] == if at <= k < at + 4 then ByteOf(v, k - at) else old(mem[k])
  {
    mem[at] := ByteOf(v, 0);
    mem[at + 1] := ByteOf(v, 1);
    mem[at + 2] := ByteOf(v, 2);
    mem[at + 3] := ByteOf(v, 3);
  }

  /** memset: bytes up to an aligned address, double words, and the bytes that are left. */
  method Memset(mem: array<byte>, s: nat, c: int, n: nat)
    requires s + n <= mem.Length
    modifies mem
    ensures forall k :: 0 <= k < mem.Length ==> mem[k] == if s <= k < s + n then c % 256 else old(mem[k])
    ensures mem[..] == Filled(old(mem[..]), s, n, c % 0x100)
  {
    var al: byte := c % 0x100;
    SplatBytes(al);
    var edi: nat, ecx: nat := s, n;
    while ecx != 0 && edi % 4 != 0
      invariant edi + ecx == s + n && s <= edi
      invariant forall k :: 0 <= k < mem.Length ==> mem[k] == if s <= k < edi then al else old(mem[k])
      decreases ecx
    {
      mem[edi] := al;
      edi, ecx := edi + 1, ecx - 1;
    }
    if ecx != 0 {
      var edx: nat := ecx % 4;
      ecx := ecx / 4;
      while ecx != 0
        invariant edi + 4 * ecx + edx == s + n && s <= edi
        invariant forall k :: 0 <= k < mem.Length ==> mem[k] == if s <= k < edi then al else old(mem[k])
        decreases ecx
      {
        StoreDword(mem, edi, Splat(al));
        edi, ecx := edi + 4, ecx - 1;
      }
      while edx != 0
        invariant edi + edx == s + n && s <= edi
        invariant forall k :: 0 <= k < mem.Length ==> mem[k] == if s <= k < edi then al else old(mem[k])
        decreases edx
      {
        mem[edi] := al;
        edi, edx := edi + 1, edx - 1;
      }
    }
  }

  // ---------------------------------------------------------------- memcpy

  /** How much is copied at once: a double word if the destination is aligned and four bytes are left. */
  function Chunk(d: nat, n: nat): (w: nat)
    requires n > 0
    ensures 0 < w <= n
  {
    if d % 4 == 0 && 4 <= n then 4 else 1
  }

  /** Memory after a copy in ascending order, one chunk at a time. */
  function Copied(m: seq<byte>, d: nat, s: nat, n: nat): (m': seq<byte>)
    requires d + n <= |m| && s + n <= |m|
    ensures |m'| == |m|
    decreases n
  {
    if n == 0 then m
    else Copied(Moved(m, d, s, Chunk(d, n)), d + Chunk(d, n), s + Chunk(d, n), n - Chunk(d, n))
  }

  /** What is left of a copy after its next chunk comes to the same memory. */
  lemma CopyStep(m: seq<byte>, d: nat, s: nat, n: nat, w: nat, m': seq<byte>, goal: seq<byte>)
    requires d + n <= |m| && s + n <= |m| && Copied(m, d, s, n) == goal
    requires 0 < n && w == Chunk(d, n) && m' == Moved(m, d, s, w)
    ensures Copied(m', d + w, s + w, n - w) == goal
  {
  }

  /** The phase of memcpy that copies bytes; goal is what the whole copy comes to. */
  method CopyBytes(mem: array<byte>, d: nat, s: nat, n: nat, aligning: bool, ghost goal: seq<byte>)
    returns (edi: nat, esi: nat, ecx: nat)
    requires d + n <= mem.Length && s + n <= mem.Length && Copied(mem[..], d, s, n) == goal && (aligning || n < 4)
    modifies mem
    ensures edi + ecx == d + n && esi + ecx == s + n && Copied(mem[..], edi, esi, ecx) == goal
    ensures ecx == 0 || (aligning && edi % 4 == 0)
  {
    edi, esi, ecx := d, s, n;
    ghost var m := mem[..];
    while ecx != 0 && !(aligning && edi % 4 == 0)
      invariant edi + ecx == d + n && esi + ecx == s + n && (aligning || ecx < 4)
      invariant m == mem[..] && Copied(m, edi, esi, ecx) == goal
      decreases ecx
    {
      MoveByte(mem, edi, esi);
      ghost var m' := Moved(m, edi, esi, 1);
      CopyStep(m, edi, esi, ecx, 1, m', goal);
      edi, esi, ecx, m := edi + 1, esi + 1, ecx - 1, m';
    }
  }

  /** The phase of memcpy that copies double words: rep movsl. */
  method CopyDwords(mem: array<byte>, d: nat, s: nat, count: nat, ghost rest: nat, ghost goal: seq<byte>)
    returns (edi: nat, esi: nat)
    requires d + 4 * count + rest <= mem.Length && s + 4 * count + rest <= mem.Length && d % 4 == 0
    requires Copied(mem[..], d, s, 4 * count + rest) == goal
    modifies mem
    ensures edi == d + 4 * count && esi == s + 4 * count && Copied(mem[..], edi, esi, rest) == goal
  {
    edi, esi := d, s;
    var ecx: nat := count;
    ghost var left, m := 4 * count + rest, mem[..];
    while ecx != 0
      invariant left == 4 * ecx + rest && edi - d == esi - s == 4 * (count - ecx) && edi % 4 == 0
      invariant m == mem[..] && Copied(m, edi, esi, left) == goal
      decreases ecx
    {
      MoveDword(mem, edi, esi);
      ghost var m' := Moved(m, edi, esi, 4);
      CopyStep(m, edi, esi, left, 4, m', goal);
      edi, esi, ecx, left, m := edi + 4, esi + 4, ecx - 1, left - 4, m';
    }
  }

  /** memcpy: bytes up to an aligned address, double words, and the bytes that are left. */
  method Memcpy(mem: array<byte>, d: nat, s: nat, n: nat)
    requires d + n <= mem.Length && s + n <= mem.Length
    modifies mem
    ensures mem[..] == Copied(old(mem[..]), d, s, n)
  {
    ghost var goal := Copied(mem[..], d, s, n);
    var edi, esi, ecx := CopyBytes(mem, d, s, n, true, goal);
    if ecx != 0 {
      var edx := ecx % 4;
      edi, esi := CopyDwords(mem, edi, esi, ecx / 4, edx, goal);
      edi, esi, edx := CopyBytes(mem, edi, esi, edx, false, goal);
    }
  }

  method MoveByte(mem: array<byte>, d: nat, s: nat)
    requires d < mem.Length && s < mem.Length
    modifies mem
    ensures mem[..] == Moved(old(mem[..]), d, s, 1)
  {
    mem[d] := mem[s];
  }

  /** movsl: a double word is read whole before it is written. */
  method MoveDword(mem: array<byte>, d: nat, s: nat)
    requires d + 4 <= mem.Length && s + 4 <= mem.Length
    modifies mem
    ensures mem[..] == Moved(old(mem[..]), d, s, 4)
  {
    var b0, b1, b2, b3 := mem[s], mem[s + 1], mem[s + 2], mem[s + 3];
    mem[d], mem[d + 1], mem[d + 2], mem[d + 3] := b0, b1, b2, b3;
  }

  /** Two moves in ascending order are one, if the first does not write what the second reads. */
  lemma MovesJoin(m: seq<byte>, d: nat, s: nat, a: nat, b: nat)
    requires d + a + b <= |m| && s + a + b <= |m| && (d <= s || s + a + b <= d)
    ensures Moved(Moved(m, d, s, a), d + a, s + a, b) == Moved(m, d, s, a + b)
  {
    var m1 := Moved(m, d, s, a);
    var twice, once := Moved(m1, d + a, s + a, b), Moved(m, d, s, a + b);
    forall k | 0 <= k < |m| ensures twice[k] == once[k] {
      MovedAt(m, d, s, a + b, k);
      MovedAt(m1, d + a, s + a, b, k);
      MovedAt(m, d, s, a, k);
      if d + a <= k < d + a + b {
        MovedAt(m, d, s, a, s + a + (k - d - a));
      }
    }
  }

  lemma {:induction false} CopyMoves(m: seq<byte>, d: nat, s: nat, n: nat)
    requires d + n <= |m| && s + n <= |m| && (d <= s || s + n <= d)
    ensures Copied(m, d, s, n) == Moved(m, d, s, n)
    decreases n
  {
    if n > 0 {
      var w := Chunk(d, n);
      CopyMoves(Moved(m, d, s, w), d + w, s + w, n - w);
      MovesJoin(m, d, s, w, n - w);
    }
  }

  /** A byte that lies below the destination is still what it was when it comes to be read. */
  lemma {:induction false} CopyReads(m: seq<byte>, d: nat, s: nat, n: nat, j: nat)
    requires d + n <= |m| && s + n <= |m| && j < n && s + j < d
    ensures Copied(m, d, s, n)[d + j] == m[s + j]
    decreases n
  {
    var w := Chunk(d, n);
    var m1 := Moved(m, d, s, w);
    if j < w {
      CopyKeeps(m1, d + w, s + w, n - w, d + j);
      MovedAt(m, d, s, w, d + j);
    } else {
      CopyReads(m1, d + w, s + w, n - w, j - w);
      MovedAt(m, d, s, w, s + j);
    }
  }

  lemma {:induction false} CopyKeeps(m: seq<byte>, d: nat, s: nat, n: nat, k: nat)
    requires d + n <= |m| && s + n <= |m| && k < |m| && !(d <= k < d + n)
    ensures Copied(m, d, s, n)[k] == m[k]
    decreases n
  {
    if n > 0 {
      var w := Chunk(d, n);
      CopyKeeps(Moved(m, d, s, w), d + w, s + w, n - w, k);
      MovedAt(m, d, s, w, k);
    }
  }

  /** Of a range, the next chunk is one byte or one aligned double word; what is aligned after it is so anyway. */
  lemma ChunksAreAligned(d: nat, n: nat, w: nat, k: nat)
    requires d <= k < d + n && w == Chunk(d, n)
    ensures var q := k - k % 4;
            if k < d + w then (if d <= q && q + 4 <= d + n then q else k) == d
            else (d <= q && q + 4 <= d + n <==> d + w <= q && q + 4 <= d + n)
  {
  }

  /**
    What an ascending copy leaves behind, overlapping or not. The aligned double words that lie wholly
    in the destination are written at once, all other bytes one by one; a byte is copied from what
    memory holds when the writing comes to it.
   */
  lemma {:induction false} CopyIsAscending(m: seq<byte>, d: nat, s: nat, n: nat, k: nat)
    requires d + n <= |m| && s + n <= |m| && k < |m|
    ensures var q := k - k % 4;
            var written := if d <= q && q + 4 <= d + n then q else k;
            Copied(m, d, s, n)[k]
            == if !(d <= k < d + n) then m[k]
               else if d <= s + (k - d) < written then Copied(m, d, s, n)[s + (k - d)] else m[s + (k - d)]
    decreases n
  {
    if !(d <= k < d + n) {
      CopyKeeps(m, d, s, n, k);
    } else {
      var w, j := Chunk(d, n), s + (k - d);
      var m1 := Moved(m, d, s, w);
      ChunksAreAligned(d, n, w, k);
      if k < d + w {
        CopyKeeps(m1, d + w, s + w, n - w, k);
        MovedAt(m, d, s, w, k);
      } else {
        CopyIsAscending(m1, d + w, s + w, n - w, k);
        MovedAt(m, d, s, w, j);
        if d <= j < d + w {
          CopyKeeps(m1, d + w, s + w, n - w, j);
        }
      }
    }
  }

  /** The ranges for which an ascending copy in chunks is as good as a move. */
  predicate CopyIsSafe(d: nat, s: nat, n: nat) {
    d <= s || s + n <= d || (d % 4 == 0 && n == 4)
  }

  /** Memory that shows the difference: one byte is set, the others are not. */
  function OneByte(size: nat, at: nat): (m: seq<byte>)
    ensures |m| == size
  {
    seq(size, k => if k == at then 1 else 0)
  }

  /** The source byte that an ascending copy overwrites before it reads it. */
  function Spoilt(d: nat, s: nat, n: nat): (j: nat)
    requires !CopyIsSafe(d, s, n)
    ensures j < n
  {
    if d - s < Chunk(d, n) then Chunk(d, n) else d - s
  }

  lemma CopySpoils(d: nat, s: nat, n: nat, size: nat)
    requires d + n <= size && s + n <= size && !CopyIsSafe(d, s, n)
    ensures Copied(OneByte(size, s + Spoilt(d, s, n)), d, s, n) != Moved(OneByte(size, s + Spoilt(d, s, n)), d, s, n)
  {
    var j, w := Spoilt(d, s, n), Chunk(d, n);
    var m := OneByte(size, s + j);
    var m1 := Moved(m, d, s, w);
    CopyReads(m1, d + w, s + w, n - w, j - w);
    MovedAt(m, d, s, w, s + j);
    MovedAt(m, d, s, n, d + j);
  }

  /**
    memcpy does what memmove does on every memory exactly if the ranges do not overlap, the
    destination is not above the source, or the whole copy is one aligned double word.
   */
  lemma CopyMovesExactly(d: nat, s: nat, n: nat, size: nat)
    requires d + n <= size && s + n <= size
    ensures CopyIsSafe(d, s, n) <==> forall m: seq<byte> :: |m| == size ==> Copied(m, d, s, n) == Moved(m, d, s, n)
  {
    if d <= s || s + n <= d {
      forall m: seq<byte> | |m| == size ensures Copied(m, d, s, n) == Moved(m, d, s, n) {
        CopyMoves(m, d, s, n);
      }
    } else if !CopyIsSafe(d, s, n) {
      CopySpoils(d, s, n, size);
      assert |OneByte(size, s + Spoilt(d, s, n))| == size;
    }
  }

  // ---------------------------------------------------------------- memmove

  /** memmove: bytes in ascending or descending order, depending on which range starts lower. */
  method Memmove(mem: array<byte>, d: nat, s: nat, n: nat)
    requires d + n <= mem.Length && s + n <= mem.Length
    modifies mem
    ensures forall k :: 0 <= k < mem.Length ==> mem[k] == if d <= k < d + n then old(mem[s + (k - d)]) else old(mem[k])
    ensures mem[..] == Moved(old(mem[..]), d, s, n)
  {
    var ecx: nat := n;
    if d <= s {
      var edi: nat, esi: nat := d, s;
      while ecx != 0
        invariant edi + ecx == d + n && esi + ecx == s + n && d <= edi
        invariant forall k :: 0 <= k < mem.Length ==>
                    mem[k] == if d <= k < edi then old(mem[s + (k - d)]) else old(mem[k])
      {
        mem[edi] := mem[esi];
        edi, esi, ecx := edi + 1, esi + 1, ecx - 1;
      }
    } else {
      var edi, esi := d + n - 1, s + n - 1;
      while ecx != 0
        invariant edi == d + ecx - 1 && esi == s + ecx - 1
        invariant forall k :: 0 <= k < mem.Length ==>
                    mem[k] == if d + ecx <= k < d + n then old(mem[s + (k - d)]) else old(mem[k])
        decreases ecx
      {
        mem[edi] := mem[esi];
        edi, esi, ecx := edi - 1, esi - 1, ecx - 1;
      }
    }
  }
}
