/** Writing numbers: itoa, the in-place reversal it needs, and the number formats of printf. */
module Numbers {
  import opened Bytes
  import opened Text

  const ZERO: byte := 48
  const MINUS: byte := 45
  const HEX_BUF := 64
  const DEC_BUF := 36
  const MIN_INT := -0x8000_0000

  // ---------------------------------------------------------------- digits

  /** The entry of the lookup table "0123456789ABC...XYZ" for a digit. */
  function DigitChar(d: nat): byte
    requires d < 36
  {
    if d < 10 then ZERO + d else 55 + d
  }

  /** The digit that a character stands for. */
  function DigitOf(c: byte): (d: Option<nat>) {
    if ZERO <= c < ZERO + 10 then Some(c - ZERO) else if 65 <= c <= 90 then Some(c - 55) else None
  }

  const DIGITS := "0123456789ABCDEFGHIJKLMNOPQRSTUVWXYZ"

  lemma DigitsAreThese(d: nat)
    requires d < 36
    ensures DigitChar(d) == DIGITS[d] as int && DigitOf(DigitChar(d)) == Some(d)
  {
  }

  predicate IsNumeral(s: seq<byte>, radix: nat) {
    forall k :: 0 <= k < |s| ==> DigitOf(s[k]).Some? && DigitOf(s[k]).value < radix
  }

  /** Reading a numeral, most significant digit first. */
  function ReadBack(s: seq<byte>, radix: nat): nat
    requires IsNumeral(s, radix)
  {
    if s == [] then 0 else ReadBack(s[..|s| - 1], radix) * radix + DigitOf(s[|s| - 1]).value
  }

  /** The numeral of a number. */
  function Digits(v: nat, radix: nat): (s: seq<byte>)
    requires 2 <= radix <= 36
    ensures |s| > 0
  {
    if v < radix then [DigitChar(v)]
    else
      Shrinks(v, radix);
      Digits(v / radix, radix) + [DigitChar(v % radix)]
  }

  lemma Monotone(a: int, b: int, c: nat)
    ensures a <= b ==> a * c <= b * c
  {
  }

  lemma DivisionIsExact(v: nat, radix: nat)
    requires 0 < radix
    ensures v / radix * radix + v % radix == v
  {
  }

  lemma Shrinks(v: nat, radix: nat)
    requires 2 <= radix <= v
    ensures 0 < v / radix < v
  {
    DivisionIsExact(v, radix);
    Monotone(v / radix, 0, radix);
    Monotone(2, radix, v / radix);
  }

  /** Reading back what was written gives the number, without leading zeros. */
  lemma {:induction false} DigitsReadBack(v: nat, radix: nat)
    requires 2 <= radix <= 36
    ensures IsNumeral(Digits(v, radix), radix) && ReadBack(Digits(v, radix), radix) == v
    ensures v > 0 ==> Digits(v, radix)[0] != ZERO
  {
    var s := Digits(v, radix);
    if v < radix {
      assert s[..0] == [];
    } else {
      Shrinks(v, radix);
      DigitsReadBack(v / radix, radix);
      DivisionIsExact(v, radix);
      assert s[..|s| - 1] == Digits(v / radix, radix);
    }
  }

  /** No other numeral without a leading zero reads as the same number. */
  lemma {:induction false} NumeralIsUnique(s: seq<byte>, radix: nat)
    requires 2 <= radix <= 36 && IsNumeral(s, radix) && s != [] && (|s| > 1 ==> s[0] != ZERO)
    ensures Digits(ReadBack(s, radix), radix) == s
    ensures |s| > 1 ==> ReadBack(s, radix) >= radix
    decreases |s|
  {
    var t, d := s[..|s| - 1], DigitOf(s[|s| - 1]).value;
    assert DigitChar(d) == s[|s| - 1];
    if |s| == 1 {
      assert ReadBack(t, radix) == 0;
      assert s == [s[0]];
    } else {
      NumeralIsUnique(t, radix);
      var v := ReadBack(t, radix);
      assert Digits(0, radix) == [ZERO];
      Appended(v, d, radix);
      assert s == t + [s[|s| - 1]];
    }
  }

  lemma Appended(v: nat, d: nat, radix: nat)
    requires 2 <= radix <= 36 && 0 < v && d < radix
    ensures v * radix + d >= radix && (v * radix + d) / radix == v && (v * radix + d) % radix == d
  {
    DivisionIsExact(v * radix + d, radix);
    var q := (v * radix + d) / radix;
    Monotone(1, v, radix);
    Monotone(q, v - 1, radix);
    Monotone(v + 1, q, radix);
  }

  function Power(b: nat, n: nat): nat { if n == 0 then 1 else Power(b, n - 1) * b }

  lemma {:induction false} PowersMultiply(b: nat, m: nat, n: nat)
    ensures Power(b, m + n) == Power(b, m) * Power(b, n)
  {
    if n > 0 {
      PowersMultiply(b, m, n - 1);
      assert Power(b, m) * Power(b, n) == Power(b, m) * Power(b, n - 1) * b;
    }
  }

  /** A number below the n-th power of anything up to the radix has at most n digits. */
  lemma {:induction false} LengthBound(v: nat, radix: nat, base: nat, n: nat)
    requires 2 <= radix <= 36 && 0 < n && base <= radix && v < Power(base, n)
    ensures |Digits(v, radix)| <= n
  {
    if v >= radix {
      Shrinks(v, radix);
      DivisionIsExact(v, radix);
      Monotone(Power(base, n - 1), v / radix, base);
      Monotone(base, radix, v / radix);
      LengthBound(v / radix, radix, base, n - 1);
    }
  }

  lemma DecimalFits(value: dword)
    ensures |Digits(value, 10)| <= 10
  {
    assert Power(10, 10) == 10000000000;
    LengthBound(value, 10, 10, 10);
  }

  lemma HexFits(value: dword)
    ensures |Digits(value, 16)| <= 8
  {
    assert Power(16, 8) == 0x1_0000_0000;
    LengthBound(value, 16, 16, 8);
  }

  /** Thirty-two digits are enough for 32 bits, whatever the radix. */
  lemma BinaryFits(value: dword, radix: nat)
    requires 2 <= radix <= 36
    ensures |Digits(value, radix)| <= 32
  {
    assert Power(2, 8) == 0x100;
    PowersMultiply(2, 8, 8);
    PowersMultiply(2, 16, 16);
    LengthBound(value, radix, 2, 32);
  }

  lemma DigitsAreNotNul(v: nat, radix: nat)
    requires 2 <= radix <= 36
    ensures NUL !in Digits(v, radix)
  {
    DigitsReadBack(v, radix);
  }

  // ---------------------------------------------------------------- strings in buffers

  function Reversed(s: seq<byte>): (r: seq<byte>)
    ensures |r| == |s|
  {
    seq(|s|, k requires 0 <= k < |s| => s[|s| - 1 - k])
  }

  /** Buffer b with the bytes from at on replaced by s. */
  function Put(b: seq<byte>, at: nat, s: seq<byte>): (b': seq<byte>)
    requires at + |s| <= |b|
    ensures |b'| == |b|
  {
    seq(|b|, k requires 0 <= k < |b| => if at <= k < at + |s| then s[k - at] else b[k])
  }

  method Strlen(buf: array<byte>, at: nat, ghost s: seq<byte>) returns (len: nat)
    requires StringAt(buf[..], at, s)
    ensures len == |s|
  {
    len := 0;
    CharAt(buf[..], at, s, 0);
    while buf[at + len] != NUL
      invariant len <= |s| && (buf[at + len] == NUL <==> len == |s|)
      decreases |s| - len
    {
      len := len + 1;
      CharAt(buf[..], at, s, len);
    }
  }

  /** strrev: the ends of the string change places, then their neighbours, until the middle is reached. */
  method Strrev(buf: array<byte>, at: nat, ghost s: seq<byte>)
    requires StringAt(buf[..], at, s)
    modifies buf
    ensures buf[..] == Put(old(buf[..]), at, Reversed(s))
  {
    var len := Strlen(buf, at, s);
    var beg, end := 0, len - 1;
    assert forall k :: at <= k < at + len ==> buf[k] == s[k - at] by {
      forall k | at <= k < at + len ensures buf[k] == s[k - at] {
        CharAt(buf[..], at, s, k - at);
      }
    }
    while beg < end
      invariant 0 <= beg <= end + 1 <= len && beg + end == len - 1
      invariant forall k :: at <= k < at + len ==>
                  buf[k] == if k < at + beg || at + end < k then s[len - 1 - (k - at)] else s[k - at]
      invariant forall k :: 0 <= k < buf.Length && !(at <= k < at + len) ==> buf[k] == old(buf[k])
    {
      buf[at + end], buf[at + beg] := buf[at + beg], buf[at + end];
      beg, end := beg + 1, end - 1;
    }
  }

  /** puts: the characters up to the terminator. */
  method Puts(buf: array<byte>, at: nat, ghost s: seq<byte>) returns (out: seq<byte>)
    requires StringAt(buf[..], at, s)
    ensures out == s
  {
    out := [];
    CharAt(buf[..], at, s, 0);
    while buf[at + |out|] != NUL
      invariant |out| <= |s| && out == s[..|out|] && (buf[at + |out|] == NUL <==> |out| == |s|)
      decreases |s| - |out|
    {
      CharAt(buf[..], at, s, |out|);
      out := out + [buf[at + |out|]];
      CharAt(buf[..], at, s, |out|);
    }
  }

  // ---------------------------------------------------------------- itoa

  lemma SmallQuotient(v: nat, radix: nat)
    requires v < radix
    ensures v / radix == 0 && v % radix == v
  {
    DivisionIsExact(v, radix);
    Monotone(1, v / radix, radix);
  }

  lemma LastDigit(v: nat, radix: nat)
    requires 2 <= radix <= 36
    ensures var s := Digits(v, radix); s[|s| - 1] == DigitChar(v % radix)
    ensures var s := Digits(v, radix); if v < radix then |s| == 1 && v / radix == 0
            else s[..|s| - 1] == Digits(v / radix, radix) && 0 < v / radix < v
  {
    if v < radix {
      SmallQuotient(v, radix);
    } else {
      Shrinks(v, radix);
    }
  }

  /** The loop of itoa: the digits from the lowest up. */
  method PutDigits(value: dword, buf: array<byte>, at: nat, radix: nat) returns (newbuf: nat)
    requires 0 < value && 2 <= radix <= 36 && at + |Digits(value, radix)| < buf.Length
    modifies buf
    ensures newbuf == at + |Digits(value, radix)|
    ensures buf[..] == Put(old(buf[..]), at, Reversed(Digits(value, radix)))
  {
    ghost var ds := Digits(value, radix);
    ghost var left := ds;
    var newval: nat := value;
    newbuf := at;
    while newval > 0
      invariant newbuf + |left| == at + |ds| && |left| <= |ds| && left == ds[..|left|]
      invariant left == if newval == 0 then [] else Digits(newval, radix)
      invariant forall k :: at <= k < newbuf ==> buf[k] == ds[|ds| - 1 - (k - at)]
      invariant forall k :: 0 <= k < buf.Length && !(at <= k < newbuf) ==> buf[k] == old(buf[k])
      decreases newval
    {
      LastDigit(newval, radix);
      var i := newval % radix;
      buf[newbuf] := DigitChar(i);
      newbuf := newbuf + 1;
      newval := newval / radix;
      left := left[..|left| - 1];
    }
  }

  /** What follows a terminator does not matter to a string that has been put into a buffer. */
  lemma PutIsString(b: seq<byte>, at: nat, s: seq<byte>)
    requires at + |s| < |b| && NUL !in s
    ensures StringAt(Put(b, at, s + [NUL]), at, s)
  {
  }

  /** itoa: the digits from the lowest up, a terminator, and a reversal in place. */
  method Itoa(value: dword, buf: array<byte>, at: nat, radix: nat)
    requires 2 <= radix <= 36 && at + |Digits(value, radix)| < buf.Length
    modifies buf
    ensures buf[..] == Put(old(buf[..]), at, Digits(value, radix) + [NUL])
    ensures StringAt(buf[..], at, Digits(value, radix))
  {
    DigitsAreNotNul(value, radix);
    PutIsString(buf[..], at, Digits(value, radix));
    if value == 0 {
      buf[at] := ZERO;
      buf[at + 1] := NUL;
      return;
    }
    ghost var ds := Digits(value, radix);
    var newbuf := PutDigits(value, buf, at, radix);
    buf[newbuf] := NUL;
    assert StringAt(buf[..], at, Reversed(ds));
    Strrev(buf, at, Reversed(ds));
  }

  // ---------------------------------------------------------------- printf

  /** %u: an unsigned number. */
  method PrintUnsigned(value: dword) returns (out: seq<byte>)
    ensures out == Digits(value, 10)
  {
    var buf := new byte[DEC_BUF];
    DecimalFits(value);
    Itoa(value, buf, 0, 10);
    out := Puts(buf, 0, Digits(value, 10));
  }

  /** The decimal numeral of a signed number. */
  function Signed(value: int): seq<byte> {
    if value < 0 then [MINUS] + Digits(-value, 10) else Digits(value, 10)
  }

  function ReadSigned(s: seq<byte>): int
    requires s != [] && IsNumeral(if s[0] == MINUS then s[1..] else s, 10)
  {
    var sign := if s[0] == MINUS then -1 else 1;
    sign * ReadBack(if s[0] == MINUS then s[1..] else s, 10)
  }

  lemma SignedReadsBack(value: int)
    ensures var s := Signed(value);
      s != [] && IsNumeral(if s[0] == MINUS then s[1..] else s, 10) && ReadSigned(s) == value
    ensures value < 0 ==> Signed(value)[0] == 45 && Signed(value)[1..] == Digits(-value, 10)
  {
    if value < 0 {
      DigitsReadBack(-value, 10);
      assert Signed(value)[1..] == Digits(-value, 10);
    } else {
      DigitsReadBack(value, 10);
      assert DigitOf(Digits(value, 10)[0]).Some?;
    }
  }

  lemma MinusInFront(b: seq<byte>, s: seq<byte>)
    requires StringAt(b, 1, s) && b[0] == MINUS
    ensures StringAt(b, 0, [MINUS] + s)
  {
    assert b[0..1 + |s|] == [MINUS] + b[1..1 + |s|];
  }

  /** A negative number: its sign, and the digits of its negation. */
  method PutNegative(buf: array<byte>, negated: dword, ghost s: seq<byte>)
    requires s == Digits(negated, 10) && buf.Length == DEC_BUF
    modifies buf
    ensures StringAt(buf[..], 0, [MINUS] + s)
  {
    DecimalFits(negated);
    buf[0] := MINUS;
    Itoa(negated, buf, 1, 10);
    assert buf[..][0] == MINUS;
    MinusInFront(buf[..], s);
  }

  /** %d: a signed number. The smallest one is its own negation in 32 bits, and read as unsigned it is right. */
  method PrintSigned(value: int) returns (out: seq<byte>)
    requires MIN_INT <= value <= -MIN_INT - 1
    ensures out == Signed(value)
  {
    var buf := new byte[DEC_BUF];
    if value < 0 {
      var negated: dword := (-value) % 0x1_0000_0000;
      assert negated == -value;
      PutNegative(buf, negated, Digits(-value, 10));
    } else {
      DecimalFits(value);
      Itoa(value, buf, 0, 10);
    }
    out := Puts(buf, 0, Signed(value));
  }

  /** %x: hexadecimal without leading zeros. */
  method PrintHex(value: dword) returns (out: seq<byte>)
    ensures out == Digits(value, 16)
  {
    var buf := new byte[HEX_BUF];
    HexFits(value);
    Itoa(value, buf, 0, 16);
    out := Puts(buf, 0, Digits(value, 16));
  }

  /** n zeros before a numeral. */
  function Padded(n: nat, s: seq<byte>): seq<byte> { seq(n, _ => ZERO) + s }

  lemma {:induction false} PaddingReadsBack(n: nat, s: seq<byte>, radix: nat)
    requires 2 <= radix && IsNumeral(s, radix)
    ensures IsNumeral(Padded(n, s), radix) && ReadBack(Padded(n, s), radix) == ReadBack(s, radix)
    decreases |s| + n
  {
    var p := Padded(n, s);
    if s != [] {
      PaddingReadsBack(n, s[..|s| - 1], radix);
      assert p[..|p| - 1] == Padded(n, s[..|s| - 1]);
    } else if n > 0 {
      PaddingReadsBack(n - 1, s, radix);
      assert p[..n - 1] == Padded(n - 1, s);
    }
  }

  /**
    %#x: the digits are written from position 8 on, and the zeros before them so that the string
    that starts as many places after the beginning as there are digits has eight characters.
   */
  method PrintAlternateHex(value: dword) returns (out: seq<byte>)
    ensures |out| == 8 && IsNumeral(out, 16) && ReadBack(out, 16) == value
  {
    var buf := new byte[HEX_BUF];
    ghost var ds := Digits(value, 16);
    HexFits(value);
    Itoa(value, buf, 8, 16);
    var start := Strlen(buf, 8, ds);
    PadTo(buf, start, ds);
    out := Puts(buf, start, Padded(8 - start, ds));
    DigitsReadBack(value, 16);
    PaddingReadsBack(8 - start, ds, 16);
  }

  /** The loop that puts zeros before the digits at position 8. */
  method PadTo(buf: array<byte>, start: nat, ghost ds: seq<byte>)
    requires StringAt(buf[..], 8, ds) && start <= 8
    modifies buf
    ensures StringAt(buf[..], start, Padded(8 - start, ds))
  {
    ghost var before := buf[..];
    var i := start;
    while i < 8
      invariant start <= i <= 8
      invariant forall k :: start <= k < i ==> buf[k] == ZERO
      invariant forall k :: 8 <= k < buf.Length ==> buf[k] == before[k]
    {
      buf[i] := ZERO;
      i := i + 1;
    }
    ZerosInFront(before, buf[..], start, ds);
  }

  lemma ZerosInFront(b: seq<byte>, b': seq<byte>, start: nat, s: seq<byte>)
    requires StringAt(b, 8, s) && start <= 8 && |b'| == |b|
    requires (forall k :: start <= k < 8 ==> b'[k] == ZERO) && forall k :: 8 <= k < |b| ==> b'[k] == b[k]
    ensures StringAt(b', start, Padded(8 - start, s))
  {
    var p := Padded(8 - start, s);
    assert start + |p| == 8 + |s|;
    forall k | 0 <= k < |p| ensures b'[start + k] == p[k] {
      if k >= 8 - start {
        CharAt(b, 8, s, start + k - 8);
      }
    }
    assert b'[start..start + |p|] == p;
    CharAt(b, 8, s, |s|);
  }
}
