/** Bytes and block copies. */
module Bytes {

  type byte = x: int | 0 <= x < 256

  function Min(a: int, b: int): int { if a <= b then a else b }

  lemma Associate<T>(a: seq<T>, b: seq<T>, c: seq<T>)
    ensures a + b + c == a + (b + c)
  {
  }

  /** `c` is `s[i..j]`, stated position by position. */
  ghost predicate Piece(s: seq<byte>, i: nat, j: nat, c: seq<byte>) {
    i <= j <= |s| && |c| == j - i && forall k :: 0 <= k < |c| ==> c[k] == s[i + k]
  }

  lemma PieceIs(s: seq<byte>, i: nat, j: nat, c: seq<byte>)
    requires Piece(s, i, j, c)
    ensures c == s[i..j] && s[..i] + c == s[..j]
  {
  }

  lemma PieceOfPiece(s: seq<byte>, i: nat, j: nat, c: seq<byte>, m: nat, n: nat, d: seq<byte>)
    requires Piece(s, i, j, c) && Piece(c, m, n, d)
    ensures Piece(s, i + m, i + n, d)
  {
  }

  /** What stands behind the first `k` bytes. */
  method Behind(s: seq<byte>, k: nat) returns (rest: seq<byte>)
    requires k <= |s|
    ensures Piece(s, k, |s|, rest)
  {
    rest := s[k..];
  }

  /** `memcpy`, with the rule that the two blocks must not overlap. */
  method Memcpy(dst: array<byte>, to: nat, src: array<byte>, from: nat, n: nat)
    requires to + n <= dst.Length && from + n <= src.Length
    requires dst == src ==> to + n <= from || from + n <= to
    modifies dst
    ensures forall j :: to <= j < to + n ==> dst[j] == old(src[j - to + from])
    ensures forall j :: 0 <= j < dst.Length && !(to <= j < to + n) ==> dst[j] == old(dst[j])
  {
    var i := 0;
    while i < n
      invariant i <= n
      invariant forall j :: to <= j < to + i ==> dst[j] == old(src[j - to + from])
      invariant forall j :: 0 <= j < dst.Length && !(to <= j < to + i) ==> dst[j] == old(dst[j])
    {
      dst[to + i] := src[from + i];
      i := i + 1;
    }
  }

  /** Copies a byte string into an array. */
  method CopyIn(dst: array<byte>, to: nat, bytes: seq<byte>)
    requires to + |bytes| <= dst.Length
    modifies dst
    ensures forall j :: to <= j < to + |bytes| ==> dst[j] == bytes[j - to]
    ensures forall j :: 0 <= j < dst.Length && !(to <= j < to + |bytes|) ==> dst[j] == old(dst[j])
  {
    var i := 0;
    while i < |bytes|
      invariant i <= |bytes|
      invariant forall j :: to <= j < to + i ==> dst[j] == bytes[j - to]
      invariant forall j :: 0 <= j < dst.Length && !(to <= j < to + i) ==> dst[j] == old(dst[j])
    {
      dst[to + i] := bytes[i];
      i := i + 1;
    }
  }
}
