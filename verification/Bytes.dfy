/** Octets and the fixed-width big- and little-endian integers the decoders read. */
module Bytes {

  type byte = b: int | 0 <= b < 256

  type uint16 = n: int | 0 <= n < 0x1_0000

  /** Two octets in network order. */
  function BigEndian16(hi: byte, lo: byte): (n: uint16)
  {
    hi * 256 + lo
  }

  lemma OctetsExist(n: uint16)
    ensures exists hi: byte, lo: byte :: BigEndian16(hi, lo) == n
  {
    assert BigEndian16(n / 256, n % 256) == n;
  }

  /** The two octets of a number in network order. */
  ghost function PutBigEndian16(n: uint16): (bs: seq<byte>)
    ensures |bs| == 2 && BigEndian16(bs[0], bs[1]) == n
  {
    OctetsExist(n);
    var hi: byte, lo: byte :| BigEndian16(hi, lo) == n;
    [hi, lo]
  }

  /** Little-endian value of a run of octets, of any width. */
  function LittleEndian(bs: seq<byte>): (n: nat)
  {
    if bs == [] then 0 else bs[0] + 256 * LittleEndian(bs[1..])
  }

  function PutLittleEndian(n: nat, width: nat): (bs: seq<byte>)
    ensures |bs| == width
  {
    if width == 0 then [] else [n % 256] + PutLittleEndian(n / 256, width - 1)
  }

  function Pow256(width: nat): (p: nat)
    ensures p > 0
  {
    if width == 0 then 1 else 256 * Pow256(width - 1)
  }

  lemma {:induction false} LittleEndianRoundTrip(n: nat, width: nat)
    requires n < Pow256(width)
    ensures LittleEndian(PutLittleEndian(n, width)) == n
  {
    if width > 0 {
      LittleEndianRoundTrip(n / 256, width - 1);
      assert PutLittleEndian(n, width)[1..] == PutLittleEndian(n / 256, width - 1);
    }
  }

  lemma {:induction false} LittleEndianUnique(bs: seq<byte>)
    ensures LittleEndian(bs) < Pow256(|bs|)
    ensures PutLittleEndian(LittleEndian(bs), |bs|) == bs
  {
    if bs != [] {
      LittleEndianUnique(bs[1..]);
      var n := LittleEndian(bs[1..]);
      LowOctet(bs[0], n);
      assert bs == [bs[0]] + bs[1..];
    }
  }

  lemma LowOctet(b: byte, n: nat)
    ensures (b + 256 * n) % 256 == b && (b + 256 * n) / 256 == n
  {
  }

  /** The ASCII octets of a string literal. */
  function Ascii(s: string): (bs: seq<byte>)
    requires forall i :: 0 <= i < |s| ==> s[i] < 128 as char
    ensures |bs| == |s| && forall i :: 0 <= i < |s| ==> bs[i] == s[i] as int
  {
    seq(|s|, i requires 0 <= i < |s| => s[i] as int)
  }

  /** The n bytes of p from pos on. */
  function Sub(p: seq<byte>, pos: nat, n: nat): (bs: seq<byte>)
    requires pos + n <= |p|
    ensures |bs| == n
  {
    if n == 0 then [] else Sub(p, pos, n - 1) + [p[pos + n - 1]]
  }

  lemma {:induction false} SubIsSlice(p: seq<byte>, pos: nat, n: nat)
    requires pos + n <= |p|
    ensures Sub(p, pos, n) == p[pos..pos + n]
  {
    if n > 0 {
      SubIsSlice(p, pos, n - 1);
      assert p[pos..pos + n] == p[pos..pos + n - 1] + [p[pos + n - 1]];
    }
  }

  lemma {:induction false} SubExtends(p: seq<byte>, x: seq<byte>, pos: nat, n: nat)
    requires pos + n <= |p|
    ensures Sub(p + x, pos, n) == Sub(p, pos, n)
  {
    if n > 0 {
      SubExtends(p, x, pos, n - 1);
    }
  }

  lemma {:induction false} SubSplit(p: seq<byte>, pos: nat, m: nat, n: nat)
    requires pos + m + n <= |p|
    ensures Sub(p, pos, m + n) == Sub(p, pos, m) + Sub(p, pos + m, n)
    decreases n
  {
    if n > 0 {
      SubSplit(p, pos, m, n - 1);
    }
  }

  /** The bytes bs occur in p at pos. */
  ghost predicate At(p: seq<byte>, pos: int, bs: seq<byte>)
  {
    0 <= pos && pos + |bs| <= |p| && Sub(p, pos, |bs|) == bs
  }

  lemma AtPrefix(bs: seq<byte>, x: seq<byte>)
    ensures At(bs + x, 0, bs)
  {
    SubIsSlice(bs + x, 0, |bs|);
  }

  lemma AtSplit(p: seq<byte>, pos: int, a: seq<byte>, b: seq<byte>)
    requires At(p, pos, a + b)
    ensures At(p, pos, a) && At(p, pos + |a|, b)
  {
    SubSplit(p, pos, |a|, |b|);
    SplitEqual(a, b, Sub(p, pos, |a|), Sub(p, pos + |a|, |b|));
  }

  lemma AtShift(p: seq<byte>, pos: int, a: seq<byte>, b: seq<byte>, c: seq<byte>)
    requires At(p, pos, (a + b) + c)
    ensures At(p, pos + |a|, b + c)
  {
    assert (a + b) + c == a + (b + c);
    AtSplit(p, pos, a, b + c);
  }

  lemma SplitEqual(a: seq<byte>, b: seq<byte>, c: seq<byte>, d: seq<byte>)
    requires a + b == c + d && |a| == |c|
    ensures a == c && b == d
  {
    assert a == (a + b)[..|a|] && c == (c + d)[..|a|];
    assert b == (a + b)[|a|..] && d == (c + d)[|a|..];
  }

  lemma AtByte(p: seq<byte>, pos: int, bs: seq<byte>, i: nat)
    requires At(p, pos, bs) && i < |bs|
    ensures p[pos + i] == bs[i]
  {
    SubIsSlice(p, pos, |bs|);
    assert p[pos..pos + |bs|][i] == p[pos + i];
  }
}
