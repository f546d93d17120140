/** Fixed-width little-endian integers, as memcpy reads them on the supported hosts. */
module LittleEndian {
  import opened RawBytes

  function Pow256(k: nat): (p: nat)
    ensures p >= 1
  {
    if k == 0 then 1 else 256 * Pow256(k - 1)
  }

  function Encode(v: nat, width: nat): (s: seq<byte>)
    ensures |s| == width
  {
    if width == 0 then [] else [v % 256] + Encode(v / 256, width - 1)
  }

  function Decode(s: seq<byte>): nat {
    if s == [] then 0 else s[0] + 256 * Decode(s[1..])
  }

  lemma {:induction false} DecodeEncode(v: nat, width: nat)
    requires v < Pow256(width)
    ensures Decode(Encode(v, width)) == v
  {
    if width > 0 {
      DecodeEncode(v / 256, width - 1);
      assert Encode(v, width)[1..] == Encode(v / 256, width - 1);
    }
  }

  lemma {:induction false} EncodeDecode(s: seq<byte>)
    ensures Decode(s) < Pow256(|s|)
    ensures Encode(Decode(s), |s|) == s
  {
    if s != [] {
      EncodeDecode(s[1..]);
      var v := Decode(s);
      assert v % 256 == s[0] && v / 256 == Decode(s[1..]);
      assert s == [s[0]] + s[1..];
    }
  }

  /** The 32-bit number at `at`, byte by byte: the first one counts least. */
  function Word32(s: seq<byte>, at: nat): nat
    requires at + 4 <= |s|
  {
    var a: nat, b: nat, c: nat, d: nat := s[at], s[at + 1], s[at + 2], s[at + 3];
    a + 0x100 * b + 0x1_0000 * c + 0x100_0000 * d
  }

  lemma {:induction false} FourBytes(s: seq<byte>, at: nat)
    requires at + 4 <= |s|
    ensures Decode(s[at..at + 4]) == Word32(s, at)
  {
    var w := s[at..at + 4];
    assert w[1..] == s[at + 1..at + 4] && w[1..][1..] == s[at + 2..at + 4] && w[1..][1..][1..] == s[at + 3..at + 4];
    assert w[1..][1..][1..][1..] == [];
    assert Decode(w[1..][1..][1..]) == s[at + 3];
    assert Decode(w[1..][1..]) == s[at + 2] + 256 * Decode(w[1..][1..][1..]);
    assert Decode(w[1..]) == s[at + 1] + 256 * Decode(w[1..][1..]);
  }

  const TWO_16 := 0x1_0000
  const TWO_32 := 0x1_0000_0000
  const TWO_63 := 0x8000_0000_0000_0000
  const TWO_64 := 0x1_0000_0000_0000_0000

  lemma Widths()
    ensures Pow256(2) == TWO_16 && Pow256(4) == TWO_32 && Pow256(8) == TWO_64
  {
    assert Pow256(1) == 256 * Pow256(0);
    assert Pow256(3) == 256 * Pow256(2);
    assert Pow256(4) == 256 * Pow256(3);
    assert Pow256(5) == 256 * Pow256(4);
    assert Pow256(6) == 256 * Pow256(5);
    assert Pow256(7) == 256 * Pow256(6);
  }

  /** static_cast<int64_t>(uint64_t): two's complement. */
  function ToSigned64(u: nat): int {
    if u < TWO_63 then u else u - TWO_64
  }

  function ToUnsigned64(v: int): nat
    requires -TWO_63 <= v < TWO_63
  {
    if v >= 0 then v else v + TWO_64
  }

  lemma {:induction false} DecodeConcat(a: seq<byte>, b: seq<byte>)
    ensures Decode(a + b) == Decode(a) + Pow256(|a|) * Decode(b)
  {
    if a == [] {
      assert a + b == b;
    } else {
      assert (a + b)[1..] == a[1..] + b;
      DecodeConcat(a[1..], b);
      assert 256 * (Pow256(|a| - 1) * Decode(b)) == Pow256(|a|) * Decode(b);
    }
  }

  /** Eight bytes are two 32-bit halves, the lower one first. */
  lemma EightBytes(s: seq<byte>, at: nat)
    requires at + 8 <= |s|
    ensures Decode(s[at..at + 8]) == Word32(s, at) + TWO_32 * Word32(s, at + 4)
  {
    assert s[at..at + 8] == s[at..at + 4] + s[at + 4..at + 8];
    DecodeConcat(s[at..at + 4], s[at + 4..at + 8]);
    Widths();
    FourBytes(s, at);
    FourBytes(s, at + 4);
  }

  function Word16(s: seq<byte>, at: nat): nat
    requires at + 2 <= |s|
  {
    var a: nat, b: nat := s[at], s[at + 1];
    a + 0x100 * b
  }

  lemma TwoBytes(s: seq<byte>, at: nat)
    requires at + 2 <= |s|
    ensures Decode(s[at..at + 2]) == Word16(s, at)
  {
    var w := s[at..at + 2];
    assert w[1..] == s[at + 1..at + 2] && w[1..][1..] == [];
    assert Decode(w[1..]) == s[at + 1];
  }
}
