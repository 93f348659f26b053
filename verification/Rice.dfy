/**
 * The adaptive Rice and zero-run entropy stage of the ALAC decoder, the lockstep encoder that inverts it,
 * and the bounds that keep its 32-bit history arithmetic exact.
 */
module Rice {
  import opened Common
  import opened Powers
  import opened Bits

  const RICE_THRESHOLD: nat := 8
  const MAX_RUN: nat := 0xFFFF
  const MAX_HISTORY: nat := 0x200_0000

  newtype int32 = x: int | -0x8000_0000 <= x < 0x8000_0000

  predicate FitsInt32(x: int)
  {
    -0x8000_0000 <= x < 0x8000_0000
  }

  datatype RiceParams = RiceParams(initialHistory: nat, kModifier: nat, historyMult: nat)
  {
    predicate Valid()
    {
      initialHistory <= MAX_HISTORY && 1 <= kModifier <= 16 && historyMult <= 63
    }
  }

  // ---------------------------------------------------------------------------------------------
  // One code word
  // ---------------------------------------------------------------------------------------------

  /** How many of the bits at `p` are ones, counting no further than `limit`. */
  function LeadingOnes(s: seq<bool>, p: nat, limit: nat): (n: nat)
    ensures n <= limit
    decreases limit
  {
    if limit == 0 || Bit(s, p) == 0 then 0 else 1 + LeadingOnes(s, p + 1, limit - 1)
  }

  /** The multiplier of the unary part: `k` ones, kept to the low `maskBits` bits. */
  function Multiplier(k: nat, maskBits: nat): (m: nat)
    ensures k >= 1 && maskBits >= 1 ==> m >= 1
    ensures k == 1 ==> m <= 1
  {
    assert k == 1 ==> Pow2(1) == 2 && Pow2(0) == 1;
    Pow2(Min(k, maskBits)) - 1
  }

  /** What one code word at `p` stands for, and where the next one starts. */
  function DecodeValue(s: seq<bool>, p: nat, size: nat, k: nat, maskBits: nat): (r: (nat, nat))
    requires k >= 1
  {
    var ones := LeadingOnes(s, p, RICE_THRESHOLD + 1);
    if ones > RICE_THRESHOLD then
      (Value(s, p + ones, size), p + ones + size)
    else if k == 1 then
      (ones, p + ones + 1)
    else
      var extra := Value(s, p + ones + 1, k);
      var base := ones * Multiplier(k, maskBits);
      if extra > 1 then (base + extra - 1, p + ones + 1 + k) else (base, p + ones + k)
  }

  function Ones(n: nat): (s: seq<bool>)
    ensures |s| == n
  {
    seq(n, _ => true)
  }

  /** The code word that stands for `x`. */
  function EncodeValue(x: nat, size: nat, k: nat, maskBits: nat): (e: seq<bool>)
    requires k >= 1 && maskBits >= 1
    ensures e != []
  {
    var m := Multiplier(k, maskBits);
    var q, r := x / m, x % m;
    if q > RICE_THRESHOLD then
      Ones(RICE_THRESHOLD + 1) + ToBits(x, size)
    else if k == 1 then
      Ones(q) + [false]
    else if r == 0 then
      Ones(q) + [false] + ToBits(0, k - 1)
    else
      Ones(q) + [false] + ToBits(r + 1, k)
  }

  lemma {:induction false} LeadingOnesOfCode(s: seq<bool>, p: nat, n: nat, limit: nat)
    requires n <= limit
    requires Has(s, p, Ones(n))
    requires n < limit ==> Bit(s, p + n) == 0
    ensures LeadingOnes(s, p, limit) == n
    decreases n
  {
    if n == 0 {
    } else {
      assert Ones(n) == Ones(1) + Ones(n - 1);
      HasSplit(s, p, Ones(1), Ones(n - 1));
      assert s[p] == s[p..p + 1][0];
      LeadingOnesOfCode(s, p + 1, n - 1, limit - 1);
    }
  }

  /** The unary part of a code word that does not escape. */
  lemma UnaryPart(s: seq<bool>, p: nat, q: nat, rest: seq<bool>)
    requires q <= RICE_THRESHOLD
    requires Has(s, p, Ones(q) + [false] + rest)
    ensures LeadingOnes(s, p, RICE_THRESHOLD + 1) == q
    ensures Has(s, p + q + 1, rest)
  {
    HasSplit(s, p, Ones(q) + [false], rest);
    HasSplit(s, p, Ones(q), [false]);
    assert s[p + q] == s[p + q..p + q + 1][0];
    LeadingOnesOfCode(s, p, q, RICE_THRESHOLD + 1);
  }

  lemma EscapeRoundTrip(s: seq<bool>, p: nat, x: nat, size: nat, k: nat, maskBits: nat)
    requires k >= 1 && x < Pow2(size)
    requires Has(s, p, Ones(RICE_THRESHOLD + 1) + ToBits(x, size))
    ensures DecodeValue(s, p, size, k, maskBits) == (x, p + RICE_THRESHOLD + 1 + size)
  {
    HasSplit(s, p, Ones(RICE_THRESHOLD + 1), ToBits(x, size));
    LeadingOnesOfCode(s, p, RICE_THRESHOLD + 1, RICE_THRESHOLD + 1);
    ValueOfBits(s, p + RICE_THRESHOLD + 1, x, size);
  }

  /** The one-bit un-read: a zero remainder is written with `k - 1` bits, and the bit after it is given back. */
  lemma ShortRemainder(s: seq<bool>, p: nat, k: nat)
    requires k >= 1
    requires Has(s, p, ToBits(0, k - 1))
    ensures Value(s, p, k) <= 1
  {
    ValueOfBits(s, p, 0, k - 1);
  }

  lemma QuotientRemainder(x: nat, m: nat)
    requires m > 0
    ensures (x / m) * m + x % m == x
    ensures x % m < m
  {
  }

  lemma ShortCode(s: seq<bool>, p: nat, q: nat, size: nat, k: nat, maskBits: nat)
    requires k > 1 && q <= RICE_THRESHOLD
    requires Has(s, p, Ones(q) + [false] + ToBits(0, k - 1))
    ensures DecodeValue(s, p, size, k, maskBits) == (q * Multiplier(k, maskBits), p + q + k)
  {
    UnaryPart(s, p, q, ToBits(0, k - 1));
    ShortRemainder(s, p + q + 1, k);
  }

  lemma LongCode(s: seq<bool>, p: nat, q: nat, r: nat, size: nat, k: nat, maskBits: nat)
    requires k > 1 && q <= RICE_THRESHOLD && 0 < r < Multiplier(k, maskBits)
    requires Has(s, p, Ones(q) + [false] + ToBits(r + 1, k))
    ensures DecodeValue(s, p, size, k, maskBits) == (q * Multiplier(k, maskBits) + r, p + q + 1 + k)
  {
    hide Has, Ones, ToBits, Value, LeadingOnes, Multiplier, Pow2;
    MultiplierFits(k, maskBits);
    UnaryPart(s, p, q, ToBits(r + 1, k));
    ValueOfBits(s, p + q + 1, r + 1, k);
  }

  lemma MultiplierFits(k: nat, maskBits: nat)
    requires k >= 1
    ensures Multiplier(k, maskBits) < Pow2(k)
  {
    Pow2Monotone(Min(k, maskBits), k);
  }

  lemma UnaryCode(s: seq<bool>, p: nat, q: nat, size: nat, maskBits: nat)
    requires q <= RICE_THRESHOLD
    requires Has(s, p, Ones(q) + [false])
    ensures DecodeValue(s, p, size, 1, maskBits) == (q, p + q + 1)
  {
    assert Ones(q) + [false] == Ones(q) + [false] + [];
    UnaryPart(s, p, q, []);
  }

  /** A code word decodes to the number it was made from and is consumed exactly. */
  lemma ValueRoundTrip(s: seq<bool>, p: nat, x: nat, size: nat, k: nat, maskBits: nat)
    requires k >= 1 && maskBits >= 1 && x < Pow2(size)
    requires Has(s, p, EncodeValue(x, size, k, maskBits))
    ensures DecodeValue(s, p, size, k, maskBits) == (x, p + |EncodeValue(x, size, k, maskBits)|)
  {
    hide DecodeValue, Multiplier, Has, Pow2;
    var m := Multiplier(k, maskBits);
    var q, r := x / m, x % m;
    QuotientRemainder(x, m);
    if q > RICE_THRESHOLD {
      EscapeRoundTrip(s, p, x, size, k, maskBits);
    } else if k == 1 {
      UnaryCode(s, p, q, size, maskBits);
    } else if r == 0 {
      ShortCode(s, p, q, size, k, maskBits);
    } else {
      LongCode(s, p, q, r, size, k, maskBits);
    }
  }

  /** Whatever the bits, a code word stands for a number below `2^25`, and a run length below `2^16`. */
  lemma DecodedBound(s: seq<bool>, p: nat, size: nat, k: nat, maskBits: nat)
    requires 1 <= k <= 16 && size <= 25
    ensures DecodeValue(s, p, size, k, maskBits).0 < MAX_HISTORY
    ensures k <= 8 && size <= 16 ==> DecodeValue(s, p, size, k, maskBits).0 <= MAX_RUN
    ensures DecodeValue(s, p, size, k, maskBits).1 > p
  {
    hide Value, LeadingOnes, Pow2;
    var ones := LeadingOnes(s, p, RICE_THRESHOLD + 1);
    if ones > RICE_THRESHOLD {
      ValueBound(s, p + ones, size);
      PowerBounds();
      Pow2Monotone(size, 25);
      if size <= 16 {
        Pow2Monotone(size, 16);
      }
    } else if k != 1 {
      ValueBound(s, p + ones + 1, k);
      PowerBounds();
      Pow2Monotone(k, 16);
      Pow2Monotone(Min(k, maskBits), k);
      if k <= 8 {
        Pow2Monotone(k, 8);
      }
      MulMonotone(ones, RICE_THRESHOLD, Multiplier(k, maskBits));
    }
  }

  lemma PowerBounds()
    ensures Pow2(8) == 0x100 && Pow2(16) == 0x1_0000 && Pow2(25) == MAX_HISTORY
  {
    Pow2Small();
    Pow2Large();
    assert Pow2(25) == 2 * Pow2(24);
  }

  /** The unary part: at most nine bits, and the zero that ends it unless nine ones were read. */
  method ReadUnary(reader: BitReader) returns (x: nat)
    requires reader.Valid()
    modifies reader
    ensures reader.Valid()
    ensures x == LeadingOnes(Unpack(reader.buf), old(reader.Position()), RICE_THRESHOLD + 1)
    ensures reader.Position() == old(reader.Position()) + (if x > RICE_THRESHOLD then x else x + 1)
  {
    hide Unpack, Bit;
    ghost var s, p := Unpack(reader.buf), reader.Position();
    x := 0;
    while x <= RICE_THRESHOLD
      invariant x <= RICE_THRESHOLD + 1 && reader.Valid()
      invariant reader.Position() == p + x
      invariant x + LeadingOnes(s, p + x, RICE_THRESHOLD + 1 - x) == LeadingOnes(s, p, RICE_THRESHOLD + 1)
    {
      var bit := reader.ReadBit();
      if bit == 0 {
        return;
      }
      x := x + 1;
    }
  }

  method EntropyDecodeValue(reader: BitReader, size: nat, k: nat, maskBits: nat) returns (x: nat)
    requires reader.Valid() && 1 <= size <= 32 && 1 <= k <= 16
    modifies reader
    ensures reader.Valid()
    ensures (x, reader.Position()) == DecodeValue(Unpack(reader.buf), old(reader.Position()), size, k, maskBits)
  {
    hide Value, LeadingOnes, Multiplier, Unpack;
    x := ReadUnary(reader);
    if x > RICE_THRESHOLD {
      x := reader.ReadBits(size);
    } else if k != 1 {
      var extra := reader.ReadBits(k);
      x := x * Multiplier(k, maskBits);
      if extra > 1 {
        x := x + extra - 1;
      } else {
        reader.UnreadBits(1);
      }
    }
  }

  // ---------------------------------------------------------------------------------------------
  // Adaptation
  // ---------------------------------------------------------------------------------------------

  function BitLength(x: nat): nat
  {
    if x == 0 then 0 else 1 + BitLength(x / 2)
  }

  /** Leading zeros of a 32-bit word. */
  function LeadingZeros(x: nat): int
  {
    32 - BitLength(x)
  }

  /** The Rice parameter: it stays between 1 and the configured limit. */
  function RiceK(history: nat, kModifier: nat): (k: nat)
    requires history <= MAX_HISTORY && 1 <= kModifier <= 16
    ensures 1 <= k <= kModifier
  {
    HistoryLength(history);
    var v := 31 - kModifier - LeadingZeros(history / 512 + 3);
    if v < 0 then v + kModifier else kModifier
  }

  function RunK(history: nat): (k: nat)
    requires history < 128
    ensures 2 <= k <= 8
  {
    RunLength(history);
    LeadingZeros(history) + (history + 16) / 64 - 24
  }

  /** The history update, exact as long as it stays in its range. */
  function NextHistory(history: nat, decoded: nat, mult: nat): (h: nat)
    requires history <= MAX_HISTORY && decoded <= MAX_HISTORY && mult <= 63
    ensures h <= MAX_HISTORY
  {
    HistoryBound(history, decoded, mult);
    if decoded > 0xFFFF then 0xFFFF else history + (decoded * mult - history * mult / 512)
  }

  /** A decoded number is a signed residual: odd numbers are negative. */
  function Unfold(decoded: nat): int
  {
    var v := (decoded + 1) / 2;
    if decoded % 2 != 0 then -v else v
  }

  function Fold(v: int): nat
  {
    if v >= 0 then 2 * v else -2 * v - 1
  }

  predicate Signed(v: int, size: nat)
    requires size >= 1
  {
    -Pow2(size - 1) <= v < Pow2(size - 1)
  }

  lemma FoldUnfold(v: int)
    ensures Unfold(Fold(v)) == v
    ensures Fold(v) == 0 <==> v == 0
  {
  }

  lemma FoldBound(v: int, size: nat)
    requires 1 <= size <= 25 && Signed(v, size)
    ensures Fold(v) < Pow2(size) <= MAX_HISTORY
  {
    PowerBounds();
    Pow2Monotone(size, 25);
  }

  lemma {:induction false} BitLengthBounds(x: nat, n: nat)
    ensures x < Pow2(n) ==> BitLength(x) <= n
    ensures x >= Pow2(n) ==> BitLength(x) > n
    decreases n
  {
    if n != 0 {
      BitLengthBounds(x / 2, n - 1);
    } else if x >= 1 {
      assert BitLength(x) >= 1;
    }
  }

  lemma HistoryLength(history: nat)
    requires history <= MAX_HISTORY
    ensures 2 <= BitLength(history / 512 + 3) <= 17
  {
    var x := history / 512 + 3;
    assert Pow2(1) == 2;
    BitLengthBounds(x, 1);
    PowerBounds();
    assert Pow2(17) == 2 * Pow2(16);
    BitLengthBounds(x, 17);
  }

  lemma RunLength(history: nat)
    requires history < 128
    ensures BitLength(history) <= 7 && (BitLength(history) == 7 <==> history >= 64)
  {
    Pow2Small();
    BitLengthBounds(history, 7);
    BitLengthBounds(history, 6);
  }

  /** All the 32-bit steps of one history update, for a history and a decoded number in their ranges. */
  predicate HistoryStepFits(history: nat, decoded: nat, mult: nat)
  {
    && FitsInt32(decoded * mult)
    && FitsInt32(history * mult)
    && FitsInt32(decoded * mult - history * mult / 512)
    && FitsInt32(history + (decoded * mult - history * mult / 512))
  }

  /** One update keeps the history in `[0, 2^25]`, and none of its 32-bit steps overflows. */
  lemma HistoryBound(history: nat, decoded: nat, mult: nat)
    requires history <= MAX_HISTORY && decoded <= MAX_HISTORY && mult <= 63
    ensures HistoryStepFits(history, decoded, mult)
    ensures decoded <= 0xFFFF ==> 0 <= history + (decoded * mult - history * mult / 512) <= MAX_HISTORY
  {
    var hm, dm := history * mult, decoded * mult;
    assert hm / 512 <= history by { DecayBound(history, mult); }
    assert hm <= MAX_HISTORY * mult by { MulMonotone(history, MAX_HISTORY, mult); }
    assert dm <= MAX_HISTORY * mult by { MulMonotone(decoded, MAX_HISTORY, mult); }
    HistorySteps(history, mult, hm, dm);
    if decoded <= 0xFFFF {
      assert dm <= 0xFFFF * mult by { MulMonotone(decoded, 0xFFFF, mult); }
      assert history + 0xFFFF * mult - hm / 512 <= MAX_HISTORY by { GrowthBound(history, mult); }
    }
  }

  lemma HistorySteps(history: nat, mult: nat, hm: nat, dm: nat)
    requires history <= MAX_HISTORY && hm / 512 <= history && mult <= 63
    requires hm <= MAX_HISTORY * mult && dm <= MAX_HISTORY * mult
    requires mult == 63 ==> hm == history * 63
    ensures FitsInt32(dm) && FitsInt32(hm) && FitsInt32(dm - hm / 512) && FitsInt32(history + (dm - hm / 512))
  {
  }

  lemma DecayBound(history: nat, mult: nat)
    requires mult <= 63
    ensures history * mult / 512 <= history
  {
    MulMonotone(mult, 63, history);
  }

  /** At the top of the range the decay outweighs the largest growth. */
  lemma GrowthBound(history: nat, mult: nat)
    requires history <= MAX_HISTORY && mult <= 63
    ensures history + 0xFFFF * mult - history * mult / 512 <= MAX_HISTORY
  {
    var gap := MAX_HISTORY - history;
    assert history * mult == MAX_HISTORY * mult - gap * mult by { Distribute(MAX_HISTORY, gap, mult); }
    assert gap * mult <= 63 * gap by { MulMonotone(mult, 63, gap); }
    assert history * mult / 512 >= 0x1_0000 * mult - (63 * gap + 511) / 512;
    if mult == 0 {
      assert history * mult == 0;
    }
  }

  /** Sixty-three is the largest multiplier for which no history update can overflow. */
  lemma MultiplierBound(mult: nat)
    ensures (forall h: nat, d: nat {:trigger HistoryStepFits(h, d, mult)} ::
               h <= MAX_HISTORY && d <= MAX_HISTORY ==> HistoryStepFits(h, d, mult)) <==> mult <= 63
  {
    if mult <= 63 {
      forall h: nat, d: nat {:trigger HistoryStepFits(h, d, mult)} | h <= MAX_HISTORY && d <= MAX_HISTORY
        ensures HistoryStepFits(h, d, mult)
      {
        HistoryBound(h, d, mult);
      }
    } else {
      assert !HistoryStepFits(0, MAX_HISTORY, mult);
    }
  }

  // ---------------------------------------------------------------------------------------------
  // A block of residuals
  // ---------------------------------------------------------------------------------------------

  /** One decoded symbol: a residual, the zeros that follow it, and the state after them. */
  datatype Symbol = Symbol(value: int, zeros: nat, next: nat, history: nat, sign: nat)

  function DecodeSymbol(s: seq<bool>, p: nat, history: nat, sign: nat, n: nat, size: nat, rice: RiceParams)
    : (r: Symbol)
    requires rice.Valid() && history <= MAX_HISTORY && sign <= 1 && size <= 25 && n >= 1
    ensures r.zeros < n && r.history <= MAX_HISTORY && r.sign <= 1
  {
    var (raw, p1) := DecodeValue(s, p, size, RiceK(history, rice.kModifier), 32);
    DecodedBound(s, p, size, RiceK(history, rice.kModifier), 32);
    var h := NextHistory(history, raw + sign, rice.historyMult);
    if h < 128 && n > 1 then
      var (run, p2) := DecodeValue(s, p1, 16, RunK(h), rice.kModifier);
      Symbol(Unfold(raw + sign), Min(run, n - 1), p2, 0, if run > MAX_RUN then 0 else 1)
    else
      Symbol(Unfold(raw + sign), 0, p1, h, 0)
  }

  /** The next `n` residuals at `p`, and where they end. */
  function RiceDecode(s: seq<bool>, p: nat, history: nat, sign: nat, n: nat, size: nat, rice: RiceParams)
    : (r: (seq<int>, nat))
    requires rice.Valid() && history <= MAX_HISTORY && sign <= 1 && size <= 25
    ensures |r.0| == n
    decreases n
  {
    if n == 0 then ([], p) else
    var y := DecodeSymbol(s, p, history, sign, n, size, rice);
    var rest := RiceDecode(s, y.next, y.history, y.sign, n - 1 - y.zeros, size, rice);
    ([y.value] + Zeros(y.zeros) + rest.0, rest.1)
  }

  /** A number of at most 25 bits and a sign. */
  predicate Moderate(x: int)
  {
    -0x100_0000 <= x <= 0x100_0000
  }

  predicate AllModerate(xs: seq<int>)
  {
    forall i :: 0 <= i < |xs| ==> Moderate(xs[i])
  }

  /** Whatever the bits, no residual is beyond 2^24. */
  lemma {:induction false} ResidualsModerate(s: seq<bool>, p: nat, history: nat, sign: nat, n: nat, size: nat,
                                             rice: RiceParams)
    requires rice.Valid() && history <= MAX_HISTORY && sign <= 1 && size <= 25
    ensures AllModerate(RiceDecode(s, p, history, sign, n, size, rice).0)
    decreases n
  {
    hide DecodeSymbol;
    if n == 0 {
    } else {
      var y := DecodeSymbol(s, p, history, sign, n, size, rice);
      SymbolModerate(s, p, history, sign, n, size, rice);
      ResidualsModerate(s, y.next, y.history, y.sign, n - 1 - y.zeros, size, rice);
    }
  }

  lemma SymbolModerate(s: seq<bool>, p: nat, history: nat, sign: nat, n: nat, size: nat, rice: RiceParams)
    requires rice.Valid() && history <= MAX_HISTORY && sign <= 1 && size <= 25 && n >= 1
    ensures Moderate(DecodeSymbol(s, p, history, sign, n, size, rice).value)
  {
    hide DecodeValue, RiceK, RunK, NextHistory;
    DecodedBound(s, p, size, RiceK(history, rice.kModifier), 32);
  }

  /** How many zeros `xs` starts with. */
  function ZeroRun(xs: seq<int>): (n: nat)
    ensures n <= |xs|
    ensures xs[..n] == Zeros(n)
    ensures n < |xs| ==> xs[n] != 0
  {
    if xs == [] || xs[0] != 0 then 0 else
    var n := 1 + ZeroRun(xs[1..]);
    assert xs[..n] == [xs[0]] + xs[1..][..n - 1];
    n
  }

  predicate AllSigned(xs: seq<int>, size: nat)
    requires size >= 1
  {
    forall i :: 0 <= i < |xs| ==> Signed(xs[i], size)
  }

  /** The code of one symbol, and the decoder's state after it. */
  datatype Coded = Coded(code: seq<bool>, zeros: nat, history: nat, sign: nat)

  function EncodeSymbol(xs: seq<int>, history: nat, sign: nat, size: nat, rice: RiceParams): (r: Coded)
    requires rice.Valid() && history <= MAX_HISTORY && sign <= 1 && 1 <= size <= 25
    requires xs != [] && Signed(xs[0], size) && (sign == 1 ==> xs[0] != 0)
    ensures r.zeros < |xs| && r.history <= MAX_HISTORY && r.sign <= 1
    ensures r.sign == 1 && 1 + r.zeros < |xs| ==> xs[1 + r.zeros] != 0
    ensures xs[1..1 + r.zeros] == Zeros(r.zeros)
  {
    FoldBound(xs[0], size);
    var code := EncodeValue(Fold(xs[0]) - sign, size, RiceK(history, rice.kModifier), 32);
    var h := NextHistory(history, Fold(xs[0]), rice.historyMult);
    if h < 128 && |xs| > 1 then
      var run := ZeroRun(xs[1..]);
      Coded(code + EncodeValue(run, 16, RunK(h), rice.kModifier), run, 0, 1)
    else
      Coded(code, 0, h, 0)
  }

  /** The encoder in lockstep: same history, same parameter, same sign modifier, longest zero runs. */
  function RiceEncode(xs: seq<int>, history: nat, sign: nat, size: nat, rice: RiceParams): seq<bool>
    requires rice.Valid() && history <= MAX_HISTORY && sign <= 1 && 1 <= size <= 25
    requires AllSigned(xs, size)
    requires sign == 1 && xs != [] ==> xs[0] != 0
    decreases |xs|
  {
    if xs == [] then [] else
    var y := EncodeSymbol(xs, history, sign, size, rice);
    y.code + RiceEncode(xs[1 + y.zeros..], y.history, y.sign, size, rice)
  }

  /** Every run the code would need is one that a 16-bit run length can say, and no residual after a run is zero. */
  predicate Codable(xs: seq<int>, history: nat, sign: nat, size: nat, rice: RiceParams)
    requires rice.Valid() && history <= MAX_HISTORY && sign <= 1 && 1 <= size <= 25 && AllSigned(xs, size)
    decreases |xs|
  {
    xs == [] ||
    (&& (sign == 1 ==> xs[0] != 0)
     && var y := EncodeSymbol(xs, history, sign, size, rice);
        y.zeros <= MAX_RUN && Codable(xs[1 + y.zeros..], y.history, y.sign, size, rice))
  }

  lemma SymbolRoundTrip(s: seq<bool>, p: nat, xs: seq<int>, history: nat, sign: nat, size: nat, rice: RiceParams)
    requires rice.Valid() && history <= MAX_HISTORY && sign <= 1 && 1 <= size <= 25
    requires xs != [] && Signed(xs[0], size) && (sign == 1 ==> xs[0] != 0)
    requires EncodeSymbol(xs, history, sign, size, rice).zeros <= MAX_RUN
    requires Has(s, p, EncodeSymbol(xs, history, sign, size, rice).code)
    ensures DecodeSymbol(s, p, history, sign, |xs|, size, rice)
         == var y := EncodeSymbol(xs, history, sign, size, rice);
            Symbol(xs[0], y.zeros, p + |y.code|, y.history, y.sign)
  {
    hide DecodeValue, EncodeValue, NextHistory, RiceK, RunK, Has, Pow2, ZeroRun, Unfold;
    FoldBound(xs[0], size);
    FoldUnfold(xs[0]);
    var k := RiceK(history, rice.kModifier);
    var code := EncodeValue(Fold(xs[0]) - sign, size, k, 32);
    var h := NextHistory(history, Fold(xs[0]), rice.historyMult);
    if h < 128 && |xs| > 1 {
      var run := ZeroRun(xs[1..]);
      assert MAX_RUN < Pow2(16) by { PowerBounds(); }
      HasSplit(s, p, code, EncodeValue(run, 16, RunK(h), rice.kModifier));
      ValueRoundTrip(s, p, Fold(xs[0]) - sign, size, k, 32);
      ValueRoundTrip(s, p + |code|, run, 16, RunK(h), rice.kModifier);
    } else {
      ValueRoundTrip(s, p, Fold(xs[0]) - sign, size, k, 32);
    }
  }

  lemma CodableStep(xs: seq<int>, history: nat, sign: nat, size: nat, rice: RiceParams)
    requires rice.Valid() && history <= MAX_HISTORY && sign <= 1 && 1 <= size <= 25 && AllSigned(xs, size)
    requires Codable(xs, history, sign, size, rice) && xs != []
    ensures sign == 1 ==> xs[0] != 0
    ensures var y := EncodeSymbol(xs, history, sign, size, rice);
            y.zeros <= MAX_RUN && Codable(xs[1 + y.zeros..], y.history, y.sign, size, rice)
  {
    hide EncodeSymbol, Signed;
  }

  /** The entropy stage is lossless: the encoder's bits decode to the same residuals and are consumed exactly. */
  lemma {:induction false} RiceRoundTrip(s: seq<bool>, p: nat, xs: seq<int>, history: nat, sign: nat, size: nat,
                                         rice: RiceParams)
    requires rice.Valid() && history <= MAX_HISTORY && sign <= 1 && 1 <= size <= 25
    requires AllSigned(xs, size) && Codable(xs, history, sign, size, rice) && (sign == 1 && xs != [] ==> xs[0] != 0)
    requires Has(s, p, RiceEncode(xs, history, sign, size, rice))
    ensures RiceDecode(s, p, history, sign, |xs|, size, rice)
         == (xs, p + |RiceEncode(xs, history, sign, size, rice)|)
    decreases |xs|
  {
    hide EncodeSymbol, DecodeSymbol, Has, Codable, Signed, Zeros;
    if xs == [] {
    } else {
      CodableStep(xs, history, sign, size, rice);
      var y := EncodeSymbol(xs, history, sign, size, rice);
      var tail := xs[1 + y.zeros..];
      HasSplit(s, p, y.code, RiceEncode(tail, y.history, y.sign, size, rice));
      SymbolRoundTrip(s, p, xs, history, sign, size, rice);
      RiceRoundTrip(s, p + |y.code|, tail, y.history, y.sign, size, rice);
      assert xs == [xs[0]] + xs[1..1 + y.zeros] + tail;
    }
  }

  lemma UnfoldFold(d: nat)
    ensures Fold(Unfold(d)) == d
  {
  }

  /** What a decoded symbol can be: its sign modifier rules out zero, and its zeros are at most a run length. */
  lemma SymbolLimits(s: seq<bool>, p: nat, history: nat, sign: nat, n: nat, size: nat, rice: RiceParams)
    requires rice.Valid() && history <= MAX_HISTORY && sign <= 1 && size <= 25 && n >= 1
    ensures var y := DecodeSymbol(s, p, history, sign, n, size, rice);
            && (sign == 1 ==> y.value != 0) && Fold(y.value) <= MAX_HISTORY && y.zeros <= MAX_RUN
            && var h := NextHistory(history, Fold(y.value), rice.historyMult);
               if h < 128 && n > 1 then y.history == 0 && y.sign == 1 else y.zeros == 0 && y.history == h && y.sign == 0
  {
    hide DecodeValue, RiceK, RunK, NextHistory, Unfold, Fold;
    var k := RiceK(history, rice.kModifier);
    var (raw, p1) := DecodeValue(s, p, size, k, 32);
    DecodedBound(s, p, size, k, 32);
    UnfoldFold(raw + sign);
    FoldUnfold(Unfold(raw + sign));
    var h := NextHistory(history, raw + sign, rice.historyMult);
    if h < 128 && n > 1 {
      DecodedBound(s, p1, 16, RunK(h), rice.kModifier);
    }
  }

  /** The zeros of a run that a nonzero residual or the end follows are all the zeros there are. */
  lemma {:induction false} RunIsWhole(xs: seq<int>, z: nat)
    requires z <= |xs| && xs[..z] == Zeros(z) && (z < |xs| ==> xs[z] != 0)
    ensures ZeroRun(xs) == z
  {
    if z == 0 {
    } else {
      assert xs[0] == xs[..z][0];
      assert xs[1..][..z - 1] == xs[..z][1..];
      RunIsWhole(xs[1..], z - 1);
    }
  }

  /** Whatever bits a block was decoded from, it is codable. */
  lemma {:induction false} DecodedIsCodable(s: seq<bool>, p: nat, xs: seq<int>, history: nat, sign: nat, size: nat,
                                            rice: RiceParams)
    requires rice.Valid() && history <= MAX_HISTORY && sign <= 1 && 1 <= size <= 25 && AllSigned(xs, size)
    requires RiceDecode(s, p, history, sign, |xs|, size, rice).0 == xs
    ensures Codable(xs, history, sign, size, rice)
    decreases |xs|
  {
    hide DecodeSymbol, DecodeValue, EncodeValue, NextHistory, RiceK, RunK, Signed, Fold;
    if xs == [] {
    } else {
      var y := DecodeSymbol(s, p, history, sign, |xs|, size, rice);
      var tail := RiceDecode(s, y.next, y.history, y.sign, |xs| - 1 - y.zeros, size, rice).0;
      SymbolLimits(s, p, history, sign, |xs|, size, rice);
      assert xs == [y.value] + Zeros(y.zeros) + tail;
      assert tail == xs[1 + y.zeros..] && xs[1..][..y.zeros] == Zeros(y.zeros);
      if y.sign == 1 {
        if tail != [] {
          SymbolLimits(s, y.next, y.history, y.sign, |tail|, size, rice);
          assert tail[0] == DecodeSymbol(s, y.next, y.history, y.sign, |tail|, size, rice).value;
        }
        RunIsWhole(xs[1..], y.zeros);
      }
      DecodedIsCodable(s, y.next, tail, y.history, y.sign, size, rice);
    }
  }

  /** A block of residuals has a code exactly when it is codable. */
  lemma DecodableExactly(xs: seq<int>, history: nat, sign: nat, size: nat, rice: RiceParams)
    requires rice.Valid() && history <= MAX_HISTORY && sign <= 1 && 1 <= size <= 25 && AllSigned(xs, size)
    ensures (exists s, p: nat :: RiceDecode(s, p, history, sign, |xs|, size, rice).0 == xs)
       <==> Codable(xs, history, sign, size, rice)
  {
    hide RiceDecode, Codable, EncodeSymbol, Signed;
    if s, p: nat :| RiceDecode(s, p, history, sign, |xs|, size, rice).0 == xs {
      DecodedIsCodable(s, p, xs, history, sign, size, rice);
    }
    if Codable(xs, history, sign, size, rice) {
      if xs != [] {
        CodableStep(xs, history, sign, size, rice);
      }
      var code := RiceEncode(xs, history, sign, size, rice);
      assert code[0..0 + |code|] == code;
      RiceRoundTrip(code, 0, xs, history, sign, size, rice);
    }
  }

  /** Every block of at most 65536 residuals is codable, whatever the history. */
  lemma {:induction false} ShortBlocksCodable(xs: seq<int>, history: nat, sign: nat, size: nat, rice: RiceParams)
    requires rice.Valid() && history <= MAX_HISTORY && sign <= 1 && 1 <= size <= 25 && AllSigned(xs, size)
    requires |xs| <= MAX_RUN + 1 && (sign == 1 && xs != [] ==> xs[0] != 0)
    ensures Codable(xs, history, sign, size, rice)
    decreases |xs|
  {
    hide EncodeSymbol, Signed;
    if xs == [] {
    } else {
      var y := EncodeSymbol(xs, history, sign, size, rice);
      ShortBlocksCodable(xs[1 + y.zeros..], y.history, y.sign, size, rice);
    }
  }

  lemma ZerosSigned(n: nat, size: nat)
    requires size >= 1
    ensures AllSigned(Zeros(n), size)
  {
  }

  /**
   * Silence, exactly: it is codable up to 65536 residuals; a longer one only while the history stays at 128 or more
   * for one more residual, and the rest after it is codable.
   */
  lemma SilenceExactly(n: nat, history: nat, size: nat, rice: RiceParams)
    requires rice.Valid() && history <= MAX_HISTORY && 1 <= size <= 25
    ensures AllSigned(Zeros(n), size)
    ensures n > MAX_RUN + 1 ==>
              AllSigned(Zeros(n - 1), size) &&
              (Codable(Zeros(n), history, 0, size, rice) <==>
                 NextHistory(history, 0, rice.historyMult) >= 128 &&
                 Codable(Zeros(n - 1), NextHistory(history, 0, rice.historyMult), 0, size, rice))
    ensures n <= MAX_RUN + 1 ==> Codable(Zeros(n), history, 0, size, rice)
  {
    hide NextHistory, EncodeValue, RiceK, RunK, Signed;
    ZerosSigned(n, size);
    if n <= MAX_RUN + 1 {
      ShortBlocksCodable(Zeros(n), history, 0, size, rice);
    } else {
      ZerosSigned(n - 1, size);
      var xs := Zeros(n);
      assert xs[1..] == Zeros(n - 1) && Zeros(n - 1)[..n - 1] == Zeros(n - 1);
      RunIsWhole(Zeros(n - 1), n - 1);
    }
  }

  /** With a small history longer silence has no code at all. */
  lemma SilenceLimit(s: seq<bool>, p: nat, n: nat, size: nat, rice: RiceParams)
    requires rice.Valid() && rice.initialHistory < 128 && 1 <= size <= 25 && n > MAX_RUN + 1
    ensures RiceDecode(s, p, rice.initialHistory, 0, n, size, rice).0 != Zeros(n)
  {
    hide RiceDecode, Codable;
    SilenceExactly(n, rice.initialHistory, size, rice);
    QuietHistory(rice.initialHistory, rice.historyMult);
    DecodableExactly(Zeros(n), rice.initialHistory, 0, size, rice);
  }

  /** With a history of 128 or more that does not decay, silence of any length has a code. */
  lemma {:induction false} LoudSilence(n: nat, history: nat, size: nat, rice: RiceParams)
    requires rice.Valid() && 128 <= history <= MAX_HISTORY && rice.historyMult == 0 && 1 <= size <= 25
    ensures AllSigned(Zeros(n), size) && Codable(Zeros(n), history, 0, size, rice)
    decreases n
  {
    hide Codable, Signed;
    SilenceExactly(n, history, size, rice);
    if n <= MAX_RUN + 1 {
    } else {
      LoudSilence(n - 1, history, size, rice);
    }
  }

  lemma QuietHistory(h: nat, mult: nat)
    requires h < 128 && mult <= 63
    ensures NextHistory(h, 0, mult) < 128
  {
    assert h * mult / 512 >= 0;
  }

  /** One turn of the decoding loop: one residual into `output[i]` and the zeros of its run after it. */
  method DecodeSymbolInto(reader: BitReader, output: array<int>, i: nat, outputSize: nat, history: nat, sign: nat,
                          size: nat, rice: RiceParams)
    returns (i': nat, history': nat, sign': nat)
    requires reader.Valid() && i < outputSize <= output.Length && 1 <= size <= 25 && rice.Valid()
    requires history <= MAX_HISTORY && sign <= 1
    modifies reader, output
    ensures reader.Valid()
    ensures var s, p := Unpack(reader.buf), old(reader.Position());
            var y := DecodeSymbol(s, p, history, sign, outputSize - i, size, rice);
            && i' == i + 1 + y.zeros
            && y == Symbol(output[i], y.zeros, reader.Position(), history', sign')
            && output[..] == old(output[..i]) + ([y.value] + Zeros(y.zeros)) + old(output[i + 1 + y.zeros..])
  {
    hide DecodeValue, RiceK, RunK, NextHistory, Unfold, Unpack, Zeros;
    ghost var s, before := Unpack(reader.buf), output[..];
    DecodedBound(s, reader.Position(), size, RiceK(history, rice.kModifier), 32);
    var raw := EntropyDecodeValue(reader, size, RiceK(history, rice.kModifier), 32);
    output[i] := Unfold(raw + sign);
    assert output[..] == before[i := output[i]];
    history', sign' := UpdateHistory(history, raw + sign, rice.historyMult), 0;
    var run := 0;
    if history' < 128 && i + 1 < outputSize {
      run := EntropyDecodeValue(reader, 16, RunK(history'), rice.kModifier);
      sign' := if run > MAX_RUN then 0 else 1;
      history' := 0;
    }
    i' := FillRun(output, i + 1, run, outputSize);
    AfterRun(before, i, Unfold(raw + sign), i' - i - 1);
  }

  /** The zeros of a run, as many as there is room for. */
  method FillRun(output: array<int>, from: nat, run: nat, limit: nat) returns (to: nat)
    requires from <= limit <= output.Length
    modifies output
    ensures to == from + Min(run, limit - from)
    ensures output[..] == old(output[..])[..from] + Zeros(to - from) + old(output[..])[to..]
  {
    hide Zeros;
    to := from;
    if run > 0 {
      to := Min(from + run, limit);
    }
    FillZeros(output, from, to);
  }

  lemma AfterRun(before: seq<int>, i: nat, v: int, z: nat)
    requires i + 1 + z <= |before|
    ensures var mid := before[i := v];
            mid[..i + 1] + Zeros(z) + mid[i + 1 + z..] == before[..i] + ([v] + Zeros(z)) + before[i + 1 + z..]
  {
    hide Zeros;
  }

  method EntropyRiceDecode(reader: BitReader, output: array<int>, outputSize: nat, size: nat, rice: RiceParams)
    requires reader.Valid() && outputSize <= output.Length && 1 <= size <= 25 && rice.Valid()
    modifies reader, output
    ensures reader.Valid()
    ensures (output[..outputSize], reader.Position())
         == RiceDecode(Unpack(reader.buf), old(reader.Position()), rice.initialHistory, 0, outputSize, size, rice)
    ensures output[outputSize..] == old(output[outputSize..])
  {
    hide DecodeSymbol, Unpack, Zeros;
    ghost var s := Unpack(reader.buf);
    ghost var goal := RiceDecode(s, reader.Position(), rice.initialHistory, 0, outputSize, size, rice);
    var history: nat := rice.initialHistory;
    var sign: nat := 0;
    var i: nat := 0;
    while i < outputSize
      invariant 0 <= i <= outputSize && reader.Valid()
      invariant history <= MAX_HISTORY && sign <= 1
      invariant output[outputSize..] == old(output[outputSize..])
      invariant output[..i] + RiceDecode(s, reader.Position(), history, sign, outputSize - i, size, rice).0 == goal.0
      invariant RiceDecode(s, reader.Position(), history, sign, outputSize - i, size, rice).1 == goal.1
    {
      ghost var y := DecodeSymbol(s, reader.Position(), history, sign, outputSize - i, size, rice);
      ghost var before := output[..];
      i, history, sign := DecodeSymbolInto(reader, output, i, outputSize, history, sign, size, rice);
      assert output[..i] == before[..i - 1 - y.zeros] + ([y.value] + Zeros(y.zeros));
      assert output[outputSize..] == before[outputSize..];
    }
    assert output[..outputSize] == output[..i] + [];
  }

  method FillZeros(output: array<int>, from: nat, to: nat)
    requires from <= to <= output.Length
    modifies output
    ensures output[..] == old(output[..from]) + Zeros(to - from) + old(output[to..])
  {
    for j := from to to
      invariant output[..] == old(output[..from]) + Zeros(j - from) + old(output[j..])
    {
      output[j] := 0;
    }
  }

  /** The history update in 32-bit arithmetic: every step must be shown to fit. */
  function UpdateHistory(history: nat, decoded: nat, mult: nat): (r: nat)
    requires history <= MAX_HISTORY && decoded <= MAX_HISTORY && mult <= 63
    ensures r == NextHistory(history, decoded, mult)
  {
    HistoryBound(history, decoded, mult);
    var h, d, m := history as int32, decoded as int32, mult as int32;
    var next := h + (d * m - h * m / 512);
    if d > 0xFFFF then 0xFFFF else next as int
  }
}
