/** Mixing two channels into a weighted middle and a difference, and when 32-bit unmixing undoes it. */
module AlacMix {
  import opened Common
  import opened Endian
  import opened Powers
  import opened Rice
  import opened Predictor
  import opened AlacFrame

  /** Left and right as a weighted middle and a difference. */
  function Mix(left: int, right: int, shift: nat, weight: nat): (int, int)
  {
    if weight == 0 then (left, right) else
    (right + (left - right) * weight / Pow2(shift), left - right)
  }

  /** A weight of at most one keeps the middle between left and right. */
  lemma MiddleBetween(left: int, right: int, weight: nat, m: nat)
    requires weight <= m && m > 0
    ensures Min(left, right) <= right + (left - right) * weight / m
    ensures right + (left - right) * weight / m <= left + right - Min(left, right)
  {
    var d := left - right;
    if d >= 0 {
      MulMonotone(weight, m, d);
      ScaledQuotient(d * weight, m, 0, d);
    } else {
      MulMonotone(weight, m, -d);
      assert d * weight == 0 - (-d) * weight;
      ScaledQuotient(d * weight, m, d, 0);
    }
  }

  lemma MixSigned(left: int, right: int, shift: nat, weight: nat, size: nat)
    requires size >= 1 && Signed(left, size) && Signed(right, size) && weight <= Pow2(shift)
    ensures Signed(Mix(left, right, shift, weight).0, size + 1) && Signed(Mix(left, right, shift, weight).1, size + 1)
  {
    assert Pow2(size) == 2 * Pow2(size - 1);
    hide Pow2;
    MiddleBetween(left, right, weight, Pow2(shift));
  }

  lemma ScaledQuotient(x: int, m: nat, lo: int, hi: int)
    requires m > 0 && lo * m <= x <= hi * m
    ensures lo <= x / m <= hi
  {
    var q := x / m;
    assert x == m * q + x % m;
    if q < lo {
      MulMonotone(q + 1, lo, m);
      Distribute(q, 1, m);
    }
    if q > hi {
      MulMonotone(hi + 1, q, m);
      Distribute(hi, 1, m);
    }
  }

  function MixA(pcm: seq<int>, shift: nat, weight: nat): (r: seq<int>)
    requires |pcm| % 2 == 0
    ensures 2 * |r| == |pcm|
  {
    if pcm == [] then [] else [Mix(pcm[0], pcm[1], shift, weight).0] + MixA(pcm[2..], shift, weight)
  }

  function MixB(pcm: seq<int>, shift: nat, weight: nat): (r: seq<int>)
    requires |pcm| % 2 == 0
    ensures 2 * |r| == |pcm|
  {
    if pcm == [] then [] else [Mix(pcm[0], pcm[1], shift, weight).1] + MixB(pcm[2..], shift, weight)
  }

  /** Whether a product of a difference and a weight fits the 32 bits it is computed in. */
  predicate ProductFits(left: int, right: int, weight: nat)
  {
    FitsInt32((left - right) * weight)
  }

  /** The same for all pairs of a block. */
  predicate ProductsFit(pcm: seq<int>, weight: nat)
  {
    |pcm| < 2 || (ProductFits(pcm[0], pcm[1], weight) && ProductsFit(pcm[2..], weight))
  }

  /** How often 2^32 was lost from a number. */
  function Carry(x: int): int
  {
    (x + 0x8000_0000) / 0x1_0000_0000
  }

  lemma WrapCarry(x: int)
    ensures Wrap(x, 32) == x - Carry(x) * 0x1_0000_0000
  {
    Pow2Large();
  }

  lemma NoWrap(x: int)
    requires FitsInt32(x)
    ensures Wrap(x, 32) == x
  {
    hide Wrap;
    WrapCarry(x);
  }

  lemma CarryOf(x: int)
    requires 0 - 0x1_0000_0000 < x < 0x1_0000_0000
    ensures -1 <= Carry(x) <= 1 && (Carry(x) == 0 <==> FitsInt32(x))
  {
  }

  /** A difference of 24-bit samples times a weight. */
  lemma ProductRange(d: int, weight: nat)
    requires 0 - 0x100_0000 < d < 0x100_0000
    ensures 0 - 0xFF_FFFF * weight <= d * weight <= 0xFF_FFFF * weight
  {
    MulMonotone(d, 0xFF_FFFF, weight);
    MulMonotone(0 - 0xFF_FFFF, d, weight);
  }

  /** It loses 2^32 at most once, and only for a weight above 128. */
  lemma CarryBound(d: int, weight: nat)
    requires 0 - 0x100_0000 < d < 0x100_0000 && weight < 256
    ensures -1 <= Carry(d * weight) <= 1 && (Carry(d * weight) == 0 <==> FitsInt32(d * weight))
    ensures weight <= 128 ==> FitsInt32(d * weight)
  {
    hide Carry;
    ProductRange(d, weight);
    var x := d * weight;
    CarryOf(x);
  }

  /** What a lost 2^32 adds to both samples of a pair. */
  function Slip(left: int, right: int, shift: nat, weight: nat): int
    requires shift <= 32
  {
    Carry((left - right) * weight) * Pow2(32 - shift)
  }

  lemma DividePlus(w: int, k: int, m: nat)
    requires m > 0
    ensures (w + k * m) / m == w / m + k
  {
    var q, r := w / m, w % m;
    assert w == q * m + r;
    Distribute(q, k, m);
    SplitAt(q + k, r, m);
  }

  lemma SlipQuotient(x: int, shift: nat)
    requires shift <= 32
    ensures Wrap(x, 32) / Pow2(shift) == x / Pow2(shift) - Carry(x) * Pow2(32 - shift)
  {
    hide Wrap, Pow2, Carry;
    var c, m, k := Carry(x), Pow2(shift), Pow2(32 - shift);
    WrapCarry(x);
    Pow2Add(32 - shift, shift);
    assert k * m == 0x1_0000_0000 by { Pow2Large(); }
    Associate(c, k, m);
    DividePlus(Wrap(x, 32), c * k, m);
  }

  /** A slip is at most 2^24: a weight above 128 needs a shift of eight or more. */
  lemma SlipBound(left: int, right: int, shift: nat, weight: nat)
    requires Signed(left, 24) && Signed(right, 24) && shift < 32 && weight < 256 && weight <= Pow2(shift)
    ensures 0 - 0x100_0000 <= Slip(left, right, shift, weight) <= 0x100_0000
    ensures Slip(left, right, shift, weight) == 0 <==> ProductFits(left, right, weight)
    ensures Slip(left, right, shift, weight) % 0x100_0000 == 0 <==> shift <= 8 || ProductFits(left, right, weight)
  {
    Pow2Large();
    hide Pow2, Carry;
    CarryBound(left - right, weight);
    if !ProductFits(left, right, weight) {
      WideShift(shift, weight);
      SlipSize(shift);
      SlipCases(Carry((left - right) * weight), Pow2(32 - shift));
    }
  }

  lemma WideShift(shift: nat, weight: nat)
    requires 128 < weight <= Pow2(shift)
    ensures shift >= 8
  {
    if shift < 8 {
      Pow2Monotone(shift, 7);
      Pow2Small();
    }
  }

  lemma SlipCases(c: int, p: int)
    requires c == 1 || c == -1
    ensures c * p == if c == 1 then p else 0 - p
  {
  }

  lemma SlipSize(shift: nat)
    requires 8 <= shift < 32
    ensures if shift == 8 then Pow2(32 - shift) == 0x100_0000 else 0 < Pow2(32 - shift) <= 0x80_0000
  {
    Pow2Large();
    if shift > 8 {
      Pow2Monotone(32 - shift, 23);
    }
  }

  /** Unmixing a mixed pair gives it back, up to the slip. */
  lemma PairRoundTrip(left: int, right: int, shift: nat, weight: nat)
    requires Signed(left, 24) && Signed(right, 24) && shift < 32 && weight < 256 && weight <= Pow2(shift)
    ensures var (a, b) := Mix(left, right, shift, weight);
            var slip := Slip(left, right, shift, weight);
            Unmix(a, b, shift, weight) == (left + slip, right + slip)
  {
    Pow2Large();
    hide Pow2, Slip, Carry, Wrap, Unmix, Share;
    SlipBound(left, right, shift, weight);
    if weight == 0 {
      NoMixing(left, right, shift);
    } else {
      var x, slip := (left - right) * weight, Slip(left, right, shift, weight);
      SlipQuotient(x, shift);
      SlipIs(left, right, shift, weight);
      ShareIs(left - right, shift, weight);
      NoWrap(right + slip);
      NoWrap(left + slip);
      UnmixAs(right + x / Pow2(shift), left - right, shift, weight, right + slip);
    }
  }

  lemma NoMixing(left: int, right: int, shift: nat)
    requires shift <= 32
    ensures Mix(left, right, shift, 0) == (left, right) && Unmix(left, right, shift, 0) == (left, right)
    ensures Slip(left, right, shift, 0) == 0
  {
  }

  lemma SlipIs(left: int, right: int, shift: nat, weight: nat)
    requires shift <= 32
    ensures Slip(left, right, shift, weight) == Carry((left - right) * weight) * Pow2(32 - shift)
  {
  }

  lemma ShareIs(b: int, shift: nat, weight: nat)
    requires shift < 32
    ensures Share(b, shift, weight) == Wrap(b * weight, 32) / Pow2(shift)
  {
    assert shift % 32 == shift;
  }

  lemma UnmixAs(a: int, b: int, shift: nat, weight: nat, right: int)
    requires shift < 32 && weight != 0 && a - Share(b, shift, weight) == right && Wrap(right, 32) == right
    ensures Unmix(a, b, shift, weight) == (Wrap(right + b, 32), right)
  {
    hide Wrap, Share;
  }

  /** Unmixing undoes mixing on every block whose products fit. */
  lemma {:induction false} MixRoundTrip(pcm: seq<int>, shift: nat, weight: nat)
    requires |pcm| % 2 == 0 && AllSigned(pcm, 24) && shift < 32 && weight < 256 && weight <= Pow2(shift)
    requires ProductsFit(pcm, weight)
    ensures UnmixAll(MixA(pcm, shift, weight), MixB(pcm, shift, weight), shift, weight) == pcm
    decreases |pcm|
  {
    hide Pow2, Signed, Mix, Unmix, Slip, ProductFits;
    if pcm == [] {
    } else {
      MixRoundTrip(pcm[2..], shift, weight);
      PairRoundTrip(pcm[0], pcm[1], shift, weight);
      SlipBound(pcm[0], pcm[1], shift, weight);
      assert pcm == [pcm[0], pcm[1]] + pcm[2..];
    }
  }

  /** No block of narrower samples, and none with a weight of at most 128, loses anything. */
  lemma {:induction false} NarrowProductsFit(pcm: seq<int>, weight: nat, size: nat)
    requires 1 <= size <= 24 && AllSigned(pcm, size) && weight < 256 && (size <= 16 || weight <= 128)
    ensures ProductsFit(pcm, weight)
    decreases |pcm|
  {
    hide ProductFits, Signed;
    if |pcm| < 2 {
    } else {
      NarrowProductFits(pcm[0], pcm[1], weight, size);
      NarrowProductsFit(pcm[2..], weight, size);
    }
  }

  lemma NarrowProductFits(left: int, right: int, weight: nat, size: nat)
    requires 1 <= size <= 24 && Signed(left, size) && Signed(right, size) && weight < 256
    requires (size <= 16 || weight <= 128)
    ensures ProductFits(left, right, weight)
  {
    Pow2Large();
    Pow2Monotone(size - 1, if size <= 16 then 15 else 23);
    hide Pow2;
    if size <= 16 {
      MulMonotone(left - right, 0xFFFF, weight);
      MulMonotone(0 - 0xFFFF, left - right, weight);
    } else {
      CarryBound(left - right, weight);
    }
  }

  /** 128 is the largest weight for which no pair of 24-bit samples overflows. */
  lemma WeightBound(weight: nat)
    ensures (forall left, right :: Signed(left, 24) && Signed(right, 24) ==> ProductFits(left, right, weight))
       <==> weight <= 128
  {
    Pow2Large();
    hide Pow2;
    if weight <= 128 {
      forall left, right | Signed(left, 24) && Signed(right, 24)
        ensures ProductFits(left, right, weight)
      {
        NarrowProductFits(left, right, weight, 24);
      }
    } else {
      MulMonotone(129, weight, 0xFF_FFFF);
      assert Signed(0x7F_FFFF, 24) && Signed(-0x80_0000, 24) && !ProductFits(0x7F_FFFF, -0x80_0000, weight);
    }
  }

  lemma Low24(v: int) returns (k: int)
    ensures v == v % 256 + 256 * (v / 256 % 256) + 0x1_0000 * (v / 0x1_0000 % 256) + 0x100_0000 * k
  {
    var a := v / 256;
    var b := a / 256;
    assert b == v / 0x1_0000;
    k := b / 256;
  }

  lemma SameDigits(a: int, b: int, c: int, k: int, a': int, b': int, c': int, k': int)
    requires 0 <= a < 256 && 0 <= b < 256 && 0 <= c < 256 && 0 <= a' < 256 && 0 <= b' < 256 && 0 <= c' < 256
    ensures var x, y := a + 256 * b + 0x1_0000 * c + 0x100_0000 * k, a' + 256 * b' + 0x1_0000 * c' + 0x100_0000 * k';
            (x - y) % 0x100_0000 == 0 <==> a == a' && b == b' && c == c'
  {
    var d := a - a' + 256 * (b - b') + 0x1_0000 * (c - c');
    assert -0x100_0000 < d < 0x100_0000;
    assert d == 0 <==> a == a' && b == b' && c == c';
    SplitAt(k - k', if d < 0 then 0x100_0000 + d else d, 0x100_0000);
    SplitAt(k - k' - 1, if d < 0 then 0x100_0000 + d else d, 0x100_0000);
  }

  /** Three bytes are the same exactly when the numbers differ by a multiple of 2^24. */
  lemma SameBytes(x: int, y: int)
    ensures LittleEndian(x, 3) == LittleEndian(y, 3) <==> (x - y) % 0x100_0000 == 0
  {
    hide LittleEndian;
    LittleEndianBytes(x, 3);
    LittleEndianBytes(y, 3);
    var k := Low24(x);
    var k' := Low24(y);
    SameDigits(x % 256, x / 256 % 256, x / 0x1_0000 % 256, k, y % 256, y / 256 % 256, y / 0x1_0000 % 256, k');
    SameTriples(x % 256, x / 256 % 256, x / 0x1_0000 % 256, y % 256, y / 256 % 256, y / 0x1_0000 % 256);
  }

  lemma SameTriples(a: byte, b: byte, c: byte, a': byte, b': byte, c': byte)
    ensures [a, b, c] == [a', b', c'] <==> a == a' && b == b' && c == c'
  {
    if [a, b, c] == [a', b', c'] {
      assert [a, b, c][0] == [a', b', c'][0] && [a, b, c][1] == [a', b', c'][1] && [a, b, c][2] == [a', b', c'][2];
    }
  }

  lemma PairBytes(xs: seq<int>)
    requires |xs| >= 2
    ensures PcmBytes(xs, 3) == LittleEndian(xs[0], 3) + LittleEndian(xs[1], 3) + PcmBytes(xs[2..], 3)
  {
    hide LittleEndian, PcmBytes;
    PcmFirst(xs, 3);
    PcmFirst(xs[1..], 3);
    assert xs[1..][1..] == xs[2..];
  }

  lemma SamePieces(a: seq<byte>, b: seq<byte>, c: seq<byte>, a': seq<byte>, b': seq<byte>, c': seq<byte>)
    requires |a| == |a'| && |b| == |b'|
    ensures a + b + c == a' + b' + c' <==> a == a' && b == b' && c == c'
  {
    var x, y := a + b + c, a' + b' + c';
    if x == y {
      assert a == x[..|a|] && a' == y[..|a|];
      assert b == x[|a|..][..|b|] && b' == y[|a|..][..|b|];
      assert c == x[|a| + |b|..] && c' == y[|a| + |b|..];
    }
  }

  /**
   * The bytes of 24-bit samples come back from mixing exactly when no product overflows or the shift is at most
   * eight.
   */
  lemma {:induction false} MixedBytes(pcm: seq<int>, shift: nat, weight: nat)
    requires |pcm| % 2 == 0 && AllSigned(pcm, 24) && shift < 32 && weight < 256 && weight <= Pow2(shift)
    ensures PcmBytes(UnmixAll(MixA(pcm, shift, weight), MixB(pcm, shift, weight), shift, weight), 3) == PcmBytes(pcm, 3)
       <==> shift <= 8 || ProductsFit(pcm, weight)
    decreases |pcm|
  {
    hide Pow2, Signed, Mix, Unmix, Slip, ProductFits, PcmBytes, LittleEndian;
    if pcm == [] {
    } else {
      MixedBytes(pcm[2..], shift, weight);
      PairRoundTrip(pcm[0], pcm[1], shift, weight);
      SlipBound(pcm[0], pcm[1], shift, weight);
      var slip := Slip(pcm[0], pcm[1], shift, weight);
      SameBytes(pcm[0] + slip, pcm[0]);
      SameBytes(pcm[1] + slip, pcm[1]);
      var all := UnmixAll(MixA(pcm, shift, weight), MixB(pcm, shift, weight), shift, weight);
      var rest := UnmixAll(MixA(pcm[2..], shift, weight), MixB(pcm[2..], shift, weight), shift, weight);
      assert all == [pcm[0] + slip, pcm[1] + slip] + rest;
      assert all[2..] == rest;
      PairBytes(all);
      PairBytes(pcm);
      SamePieces(LittleEndian(all[0], 3), LittleEndian(all[1], 3), PcmBytes(rest, 3),
                 LittleEndian(pcm[0], 3), LittleEndian(pcm[1], 3), PcmBytes(pcm[2..], 3));
    }
  }

  lemma {:induction false} MixAllSigned(pcm: seq<int>, shift: nat, weight: nat, size: nat)
    requires |pcm| % 2 == 0 && size >= 1 && AllSigned(pcm, size) && weight <= Pow2(shift)
    ensures AllSigned(MixA(pcm, shift, weight), size + 1)
    ensures AllSigned(MixB(pcm, shift, weight), size + 1)
    decreases |pcm|
  {
    hide Signed, Mix;
    if pcm == [] {
    } else {
      MixSigned(pcm[0], pcm[1], shift, weight, size);
      MixAllSigned(pcm[2..], shift, weight, size);
    }
  }
}
