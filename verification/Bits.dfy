/** A bit string read most significant bit first, with zeros past its end, and the reader that walks it. */
module Bits {
  import opened Common
  import opened Powers

  function Bit(s: seq<bool>, i: nat): (r: nat)
    ensures r <= 1
  {
    if i < |s| && s[i] then 1 else 0
  }

  /** The number spelled by the `n` bits of `s` that start at `p`. */
  function Value(s: seq<bool>, p: nat, n: nat): nat
  {
    if n == 0 then 0 else 2 * Value(s, p, n - 1) + Bit(s, p + n - 1)
  }

  function BitOfByte(b: byte, i: nat): bool
    requires i < 8
  {
    (b / Pow2(7 - i)) % 2 == 1
  }

  /** Reading past the end yields zero bytes. */
  function ByteAt(buf: seq<byte>, i: nat): byte
  {
    if i < |buf| then buf[i] else 0
  }

  /** The bits of a byte string. */
  function Unpack(buf: seq<byte>): (s: seq<bool>)
    ensures |s| == 8 * |buf|
  {
    seq(8 * |buf|, i requires 0 <= i < 8 * |buf| => BitOfByte(buf[i / 8], i % 8))
  }

  /** The `n` low bits of `v`, most significant first. */
  function ToBits(v: nat, n: nat): (s: seq<bool>)
    ensures |s| == n
  {
    if n == 0 then [] else ToBits(v / 2, n - 1) + [v % 2 == 1]
  }

  /** The bit string `e` stands in `s` at position `p`. */
  predicate Has(s: seq<bool>, p: nat, e: seq<bool>)
  {
    p + |e| <= |s| && s[p..p + |e|] == e
  }

  lemma HasSplit(s: seq<bool>, p: nat, a: seq<bool>, b: seq<bool>)
    requires Has(s, p, a + b)
    ensures Has(s, p, a)
    ensures Has(s, p + |a|, b)
  {
    var w := s[p..p + |a| + |b|];
    assert s[p..p + |a|] == w[..|a|] == a;
    assert s[p + |a|..p + |a| + |b|] == w[|a|..] == b;
  }

  lemma {:induction false} ValueBound(s: seq<bool>, p: nat, n: nat)
    ensures Value(s, p, n) < Pow2(n)
  {
    if n == 0 {
    } else {
      ValueBound(s, p, n - 1);
    }
  }

  lemma {:induction false} ValueConcat(s: seq<bool>, p: nat, a: nat, b: nat)
    ensures Value(s, p, a + b) == Value(s, p, a) * Pow2(b) + Value(s, p + a, b)
  {
    if b == 0 {
    } else {
      ValueConcat(s, p, a, b - 1);
      Associate(Value(s, p, a), Pow2(b - 1), 2);
      assert p + (a + b) - 1 == (p + a) + b - 1;
    }
  }

  lemma {:induction false} ValueOfBits(s: seq<bool>, p: nat, v: nat, n: nat)
    requires v < Pow2(n)
    requires Has(s, p, ToBits(v, n))
    ensures Value(s, p, n) == v
  {
    if n == 0 {
    } else {
      HasSplit(s, p, ToBits(v / 2, n - 1), [v % 2 == 1]);
      assert s[p + n - 1] == s[p + n - 1..p + n][0];
      ValueOfBits(s, p, v / 2, n - 1);
    }
  }

  lemma BitOfUnpacked(buf: seq<byte>, k: nat, j: nat)
    requires k < |buf| && j < 8
    ensures Bit(Unpack(buf), 8 * k + j) == (buf[k] / Pow2(7 - j)) % 2
  {
    assert (8 * k + j) / 8 == k && (8 * k + j) % 8 == j;
  }

  lemma {:induction false} LeadingBits(buf: seq<byte>, k: nat, n: nat)
    requires k < |buf| && n <= 8
    ensures Value(Unpack(buf), 8 * k, n) == buf[k] / Pow2(8 - n)
  {
    Pow2Small();
    if n == 0 {
    } else {
      LeadingBits(buf, k, n - 1);
      BitOfUnpacked(buf, k, n - 1);
      Halve(buf[k], Pow2(8 - n));
    }
  }

  lemma Halve(b: nat, m: nat)
    requires m > 0
    ensures 2 * (b / (2 * m)) + (b / m) % 2 == b / m
  {
    var q, r := b / m, b % m;
    assert b == q * m + r;
    HalveAt(q / 2, q % 2, r, m);
  }

  lemma HalveAt(h: int, l: int, r: int, m: nat)
    requires 0 <= l <= 1 && 0 <= r < m
    ensures ((2 * h + l) * m + r) / (2 * m) == h
  {
    var low := if l == 0 then r else m + r;
    Distribute(2 * h, l, m);
    Associate(h, 2, m);
    assert (2 * h + l) * m + r == h * (2 * m) + low;
    SplitAt(h, low, 2 * m);
  }

  lemma ByteValue(buf: seq<byte>, k: nat)
    ensures Value(Unpack(buf), 8 * k, 8) == ByteAt(buf, k)
  {
    if k < |buf| {
      LeadingBits(buf, k, 8);
    } else {
      ValueZeros(Unpack(buf), 8 * k, 8);
    }
  }

  lemma {:induction false} ValueZeros(s: seq<bool>, p: nat, n: nat)
    requires p >= |s|
    ensures Value(s, p, n) == 0
  {
    if n == 0 {
    } else {
      ValueZeros(s, p, n - 1);
    }
  }

  lemma ValueConcat3(s: seq<bool>, p: nat, n: nat)
    requires Pow2(n) == 0x100
    ensures Value(s, p, 3 * n)
         == Value(s, p, n) * 0x1_0000 + Value(s, p + n, n) * 0x100 + Value(s, p + 2 * n, n)
  {
    ValueConcat(s, p, n, n);
    ValueConcat(s, p, 2 * n, n);
  }

  /** The three bytes at `pos` spell the 24 bits that start there. */
  lemma WindowValue(buf: seq<byte>, pos: nat)
    ensures ByteAt(buf, pos) * 0x1_0000 + ByteAt(buf, pos + 1) * 0x100 + ByteAt(buf, pos + 2)
         == Value(Unpack(buf), 8 * pos, 24)
  {
    hide Unpack, Value, ByteAt;
    var s, p, n := Unpack(buf), 8 * pos, 8;
    ByteValue(buf, pos);
    ByteValue(buf, pos + 1);
    ByteValue(buf, pos + 2);
    assert Pow2(n) == 0x100 by { Pow2Small(); }
    ValueConcat3(s, p, n);
    assert p + n == 8 * (pos + 1) && p + 2 * n == 8 * (pos + 2);
  }

  /** Dropping `bit` bits on the left and the rest on the right of a `w`-bit window leaves `bits` bits. */
  lemma WindowSelect(s: seq<bool>, p: nat, w: nat, bit: nat, bits: nat)
    requires bit + bits <= w
    ensures (Value(s, p, w) * Pow2(bit)) % Pow2(w) / Pow2(w - bits) == Value(s, p + bit, bits)
  {
    hide Value, Pow2;
    var tail := w - bit - bits;
    ValueConcat(s, p, bit, w - bit);
    ValueConcat(s, p + bit, bits, tail);
    ValueBound(s, p + bit, w - bit);
    ValueBound(s, p + bit + bits, tail);
    Pow2Add(w - bit, bit);
    Pow2Add(tail, bit);
    SelectMiddle(Value(s, p, bit), Value(s, p + bit, bits), Value(s, p + bit + bits, tail),
                 Pow2(w - bit), Pow2(tail), Pow2(bit));
  }

  lemma SelectMiddle(high: nat, mid: nat, low: nat, hp: nat, tp: nat, bp: nat)
    requires mid * tp + low < hp && low < tp && bp > 0
    ensures tp * bp > 0 && hp * bp > 0
    ensures ((high * hp + (mid * tp + low)) * bp) % (hp * bp) / (tp * bp) == mid
  {
    var rest := mid * tp + low;
    Scale(high, rest, hp, bp);
    Scale(mid, low, tp, bp);
  }

  /** Scaling `q * m + r` by `k` keeps the quotient by `m * k` and scales the remainder. */
  lemma Scale(q: nat, r: nat, m: nat, k: nat)
    requires r < m && k > 0
    ensures m * k > 0
    ensures ((q * m + r) * k) % (m * k) == r * k
    ensures ((q * m + r) * k) / (m * k) == q
  {
    Distribute(q * m, r, k);
    Associate(q, m, k);
    MulMonotone(r + 1, m, k);
    Distribute(r, 1, k);
    assert r * k < m * k;
    SplitAt(q, r * k, m * k);
  }

  /** The window shifted left by the bit offset, cut to 24 bits and shifted right. */
  function Peek(buf: seq<byte>, pos: nat, bit: nat, bits: nat): (r: nat)
    requires bit < 8 && bits <= 16
    ensures r == Value(Unpack(buf), 8 * pos + bit, bits)
  {
    hide Unpack, Value, ByteAt;
    var window := ByteAt(buf, pos) * 0x1_0000 + ByteAt(buf, pos + 1) * 0x100 + ByteAt(buf, pos + 2);
    assert Pow2(24) == 0x100_0000 by { Pow2Large(); }
    WindowValue(buf, pos);
    WindowSelect(Unpack(buf), 8 * pos, 24, bit, bits);
    hide Pow2;
    (window * Pow2(bit)) % 0x100_0000 / Pow2(24 - bits)
  }

  /** The bit reader: a byte position and a bit offset inside that byte. */
  class BitReader {
    const buf: seq<byte>
    var pos: nat
    var bit: nat

    ghost predicate Valid()
      reads this
    {
      bit < 8
    }

    ghost function Position(): nat
      reads this
    {
      8 * pos + bit
    }

    constructor (buf: seq<byte>)
      ensures Valid() && this.buf == buf && Position() == 0
    {
      this.buf := buf;
      pos, bit := 0, 0;
    }

    method ReadBits16(bits: nat) returns (result: nat)
      requires Valid() && bits <= 16
      modifies this
      ensures Valid() && Position() == old(Position()) + bits
      ensures result == Value(Unpack(buf), old(Position()), bits)
    {
      result := Peek(buf, pos, bit, bits);
      var acc := bit + bits;
      pos := pos + acc / 8;
      bit := acc % 8;
    }

    method ReadBits(bits: nat) returns (result: nat)
      requires Valid() && bits <= 32
      modifies this
      ensures Valid() && Position() == old(Position()) + bits
      ensures result == Value(Unpack(buf), old(Position()), bits)
    {
      hide Unpack, Value;
      ghost var s, p := Unpack(buf), Position();
      if bits > 16 {
        var left := bits - 16;
        var high := ReadBits16(16);
        var low := ReadBits16(left);
        ValueConcat(s, p, 16, left);
        result := high * Pow2(left) + low;
      } else {
        result := ReadBits16(bits);
      }
    }

    method ReadBit() returns (result: nat)
      requires Valid()
      modifies this
      ensures Valid() && Position() == old(Position()) + 1
      ensures result == Bit(Unpack(buf), old(Position()))
    {
      result := ByteAt(buf, pos) * Pow2(bit) / 128 % 2;
      BitOfShift(buf, pos, bit);
      var acc := bit + 1;
      pos := pos + acc / 8;
      bit := acc % 8;
    }

    method UnreadBits(bits: nat)
      requires Valid() && bits <= Position()
      modifies this
      ensures Valid() && Position() == old(Position()) - bits
    {
      var total := pos * 8 + bit - bits;
      pos := total / 8;
      bit := total % 8;
    }
  }

  lemma ShiftCancel(b: nat, n: nat, m: nat)
    requires n > 0 && m > 0 && n * m == 128
    ensures b * m / 128 == b / n
  {
    var q, r := b / n, b % n;
    assert b == q * n + r;
    Scale(q, r, n, m);
  }

  lemma BitOfShift(buf: seq<byte>, pos: nat, bit: nat)
    requires bit < 8
    ensures ByteAt(buf, pos) * Pow2(bit) / 128 % 2 == Bit(Unpack(buf), 8 * pos + bit)
  {
    if pos < |buf| {
      BitOfUnpacked(buf, pos, bit);
      assert Pow2(7 - bit) * Pow2(bit) == 128 by {
        Pow2Small();
        Pow2Add(7 - bit, bit);
      }
      ShiftCancel(buf[pos], Pow2(7 - bit), Pow2(bit));
    }
  }
}
