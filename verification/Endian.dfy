/** Numbers as bytes. */
module Endian {
  import opened Common

  function Power256(n: nat): (r: int)
    ensures r >= 1
  {
    if n == 0 then 1 else 256 * Power256(n - 1)
  }

  /** `n` bytes of a number, least significant first; a negative number in two's complement. */
  function LittleEndian(v: int, n: nat): (r: seq<byte>)
    ensures |r| == n
    decreases n
  {
    if n == 0 then [] else [v % 256] + LittleEndian(v / 256, n - 1)
  }

  /** The bytes of the two widths PCM samples have. */
  lemma LittleEndianBytes(v: int, width: nat)
    requires width == 2 || width == 3
    ensures width == 2 ==> LittleEndian(v, width) == [v % 256, v / 256 % 256]
    ensures width == 3 ==> LittleEndian(v, width) == [v % 256, v / 256 % 256, v / 0x1_0000 % 256]
  {
    assert v / 256 / 256 == v / 0x1_0000;
    assert LittleEndian(v / 256, width - 1) == [v / 256 % 256] + LittleEndian(v / 256 / 256, width - 2);
  }

  function FromLittleEndian(s: seq<byte>): nat
  {
    if s == [] then 0 else s[0] as int + 256 * FromLittleEndian(s[1..])
  }

  lemma {:induction false} LittleEndianRoundTrip(v: nat, n: nat)
    requires v < Power256(n)
    ensures FromLittleEndian(LittleEndian(v, n)) == v
    decreases n
  {
    if n == 0 {
    } else {
      LittleEndianRoundTrip(v / 256, n - 1);
      assert LittleEndian(v, n)[1..] == LittleEndian(v / 256, n - 1);
    }
  }

  /** The number bytes spell, most significant first. */
  function BigEndian(s: seq<byte>): (v: nat)
  {
    if s == [] then 0 else 256 * BigEndian(s[..|s| - 1]) + s[|s| - 1] as int
  }

  /** `n` bytes of a number, most significant first. */
  function BigEndianBytes(v: nat, n: nat): (r: seq<byte>)
    ensures |r| == n
    decreases n
  {
    if n == 0 then [] else BigEndianBytes(v / 256, n - 1) + [v % 256]
  }

  lemma {:induction false} BigEndianRoundTrip(v: nat, n: nat)
    requires v < Power256(n)
    ensures BigEndian(BigEndianBytes(v, n)) == v
    decreases n
  {
    if n == 0 {
    } else {
      BigEndianRoundTrip(v / 256, n - 1);
      assert BigEndianBytes(v, n)[..n - 1] == BigEndianBytes(v / 256, n - 1);
    }
  }

  lemma {:induction false} BigEndianBound(s: seq<byte>)
    ensures BigEndian(s) < Power256(|s|)
    decreases |s|
  {
    if s == [] {
    } else {
      BigEndianBound(s[..|s| - 1]);
    }
  }

  lemma {:induction false} BytesRoundTrip(s: seq<byte>)
    ensures BigEndianBytes(BigEndian(s), |s|) == s
    decreases |s|
  {
    if s == [] {
    } else {
      BytesRoundTrip(s[..|s| - 1]);
    }
  }

  /** The first byte weighs most. */
  lemma {:induction false} BigEndianHead(s: seq<byte>)
    requires s != []
    ensures BigEndian(s) == s[0] as int * Power256(|s| - 1) + BigEndian(s[1..])
    decreases |s|
  {
    var n := |s| - 1;
    if n == 0 {
      assert s[..0] == [] && s[1..] == [];
    } else {
      BigEndianHead(s[..n]);
      assert s[..n][1..] == s[1..][..n - 1];
      Shift(s[0] as int, Power256(n - 1));
    }
  }

  lemma Shift(b: int, p: int)
    ensures 256 * (b * p) == b * (256 * p)
  {
  }
}
