/** Lines of text files and strings in buffers, as the C sources see them. */
module Text {
  import opened Bytes

  /** The position of the first newline of f at or after at, or |f|. */
  function LineEnd(f: seq<byte>, at: nat): (e: nat)
    requires at <= |f|
    ensures at <= e <= |f| && (e < |f| ==> f[e] == NEWLINE) && forall k :: at <= k < e ==> f[k] != NEWLINE
    decreases |f| - at
  {
    if at == |f| || f[at] == NEWLINE then at else LineEnd(f, at + 1)
  }

  /** The string at a position of a buffer, with its terminator. */
  ghost predicate StringAt(b: seq<byte>, at: int, w: seq<byte>) {
    && 0 <= at && at + |w| < |b| && b[at..at + |w|] == w && b[at + |w|] == NUL && NUL !in w
  }

  /** The characters of a string in a buffer, one by one. */
  lemma CharAt(b: seq<byte>, at: nat, s: seq<byte>, k: nat)
    requires StringAt(b, at, s) && k <= |s|
    ensures b[at + k] == if k < |s| then s[k] else NUL
    ensures b[at + k] == NUL <==> k == |s|
  {
    if k < |s| {
      assert b[at + k] == b[at..at + |s|][k];
      assert s[k] in s;
    }
  }
}
