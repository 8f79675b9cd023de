/** Big-endian numbers and byte buffers filled in place. */
module Bytes {
  type byte = x: int | 0 <= x < 256

  function Pow256(n: nat): (p: nat)
    ensures p > 0
  {
    if n == 0 then 1 else 256 * Pow256(n - 1)
  }

  /** The n-byte big-endian form of v, high bytes cut off as a fixed-width field does. */
  function BE(n: nat, v: nat): (s: seq<byte>)
    ensures |s| == n
  {
    if n == 0 then [] else BE(n - 1, v / 256) + [v % 256]
  }

  /** The number a byte string denotes. */
  function Val(s: seq<byte>): nat {
    if s == [] then 0 else Val(s[..|s| - 1]) * 256 + s[|s| - 1]
  }

  lemma {:induction false} ValOfBE(n: nat, v: nat)
    requires v < Pow256(n)
    ensures Val(BE(n, v)) == v
  {
    if n > 0 {
      ValOfBE(n - 1, v / 256);
      assert BE(n, v)[..n - 1] == BE(n - 1, v / 256);
    }
  }

  lemma {:induction false} BEOfVal(s: seq<byte>)
    ensures BE(|s|, Val(s)) == s
  {
    if s != [] {
      BEOfVal(s[..|s| - 1]);
    }
  }

  lemma {:induction false} ValBound(s: seq<byte>)
    ensures Val(s) < Pow256(|s|)
  {
    if s != [] {
      ValBound(s[..|s| - 1]);
    }
  }

  lemma {:induction false} ValAppend(s: seq<byte>, t: seq<byte>)
    ensures Val(s + t) == Val(s) * Pow256(|t|) + Val(t)
  {
    if t == [] {
      assert s + t == s;
    } else {
      var u := t[..|t| - 1];
      ValAppend(s, u);
      assert (s + t)[..|s + t| - 1] == s + u;
    }
  }

  /** High byte first. */
  lemma HighByteFirst(s: seq<byte>)
    requires s != []
    ensures Val(s) == s[0] * Pow256(|s| - 1) + Val(s[1..])
    ensures |s| == 1 ==> Val(s) == s[0]
    ensures |s| == 2 ==> Val(s) == s[0] as int * 0x100 + s[1] as int
  {
    ValAppend(s[..1], s[1..]);
    assert s == s[..1] + s[1..];
    assert s[..1][..0] == [];
    Widths();
  }

  lemma Widths()
    ensures Pow256(1) == 0x100 && Pow256(2) == 0x1_0000
    ensures Pow256(4) == 0x1_0000_0000 && Pow256(8) == 0x1_0000_0000_0000_0000
  {
  }

  /** Writes a number of n bytes at offset `at`, last byte first. */
  method PutBE(p: array<byte>, at: nat, n: nat, v: nat)
    requires at + n <= p.Length
    modifies p
    ensures p[..at] == old(p[..at])
    ensures p[at..at + n] == BE(n, v)
    ensures p[at + n..] == old(p[at + n..])
  {
    var i, rest := n, v;
    assert p[at + n..at + n] == [];
    while i > 0
      invariant 0 <= i <= n
      invariant p[..at + i] == old(p[..at + i])
      invariant BE(n, v) == BE(i, rest) + p[at + i..at + n]
      invariant p[at + n..] == old(p[at + n..])
    {
      ghost var tail := p[at + i..at + n];
      p[at + i - 1] := rest % 256;
      assert p[at + i - 1..at + n] == [rest % 256] + tail;
      assert BE(i, rest) == BE(i - 1, rest / 256) + [rest % 256];
      rest := rest / 256;
      i := i - 1;
    }
  }

  /** copy(p[at:], src). */
  method Copy(p: array<byte>, at: nat, src: seq<byte>)
    requires at + |src| <= p.Length
    modifies p
    ensures p[..at] == old(p[..at])
    ensures p[at..at + |src|] == src
    ensures p[at + |src|..] == old(p[at + |src|..])
  {
    for i := 0 to |src|
      invariant p[..at] == old(p[..at])
      invariant p[at..at + i] == src[..i]
      invariant p[at + i..] == old(p[at + i..])
    {
      ghost var tail := p[at + i + 1..];
      p[at + i] := src[i];
      assert p[at + i + 1..] == tail;
      assert p[at..at + i + 1] == src[..i] + [src[i]];
    }
  }
}
