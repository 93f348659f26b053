/** The encoder side of the ALAC frame format and the proof that the decoder undoes it. */
module AlacLossless {
  import opened Common
  import opened Powers
  import opened Bits
  import opened Rice
  import opened Predictor
  import opened AlacFrame
  import opened AlacMix

  // ---------------------------------------------------------------------------------------------
  // Bytes
  // ---------------------------------------------------------------------------------------------

  function Pack(bits: seq<bool>): (r: seq<byte>)
    requires |bits| % 8 == 0
    ensures 8 * |r| == |bits|
  {
    if bits == [] then [] else
    ByteBound(bits);
    [Value(bits, 0, 8)] + Pack(bits[8..])
  }

  lemma ByteBound(bits: seq<bool>)
    ensures Value(bits, 0, 8) < 256
  {
    ValueBound(bits, 0, 8);
    Pow2Small();
  }

  function Pad(bits: seq<bool>): (r: seq<bool>)
    ensures |r| % 8 == 0 && bits <= r
  {
    bits + seq((8 - |bits| % 8) % 8, _ => false)
  }

  lemma BitOfValue(bits: seq<bool>, j: nat)
    requires |bits| >= 8 && j < 8
    ensures 0 <= Value(bits, 0, 8) < 256
    ensures BitOfByte(Value(bits, 0, 8), j) == bits[j]
  {
    hide Value, Pow2;
    ByteBound(bits);
    ValueConcat(bits, 0, j + 1, 7 - j);
    ValueBound(bits, j + 1, 7 - j);
    SplitAt(Value(bits, 0, j + 1), Value(bits, j + 1, 7 - j), Pow2(7 - j));
    LastBit(bits, j);
  }

  lemma LastBit(bits: seq<bool>, j: nat)
    requires j < |bits|
    ensures Value(bits, 0, j + 1) % 2 == 1 <==> bits[j]
  {
    Odd(Value(bits, 0, j), Bit(bits, j));
  }

  lemma Odd(v: int, b: int)
    requires 0 <= b <= 1
    ensures (2 * v + b) % 2 == b
  {
  }

  lemma {:induction false} PackUnpack(bits: seq<bool>)
    requires |bits| % 8 == 0
    ensures Unpack(Pack(bits)) == bits
  {
    if bits == [] {
    } else {
      PackUnpack(bits[8..]);
      var s := Unpack(Pack(bits));
      forall i | 0 <= i < |bits|
        ensures s[i] == bits[i]
      {
        if i < 8 {
          BitOfValue(bits, i);
        } else {
          assert (i - 8) / 8 == i / 8 - 1 && (i - 8) % 8 == i % 8;
          assert Pack(bits)[i / 8] == Pack(bits[8..])[i / 8 - 1];
          assert Unpack(Pack(bits[8..]))[i - 8] == bits[8..][i - 8];
        }
      }
    }
  }

  // ---------------------------------------------------------------------------------------------
  // Fields
  // ---------------------------------------------------------------------------------------------

  lemma TakeField(s: seq<bool>, p: nat, v: nat, w: nat, rest: seq<bool>)
    requires v < Pow2(w)
    requires Has(s, p, ToBits(v, w) + rest)
    ensures Value(s, p, w) == v
    ensures Has(s, p + w, rest)
  {
    HasSplit(s, p, ToBits(v, w), rest);
    ValueOfBits(s, p, v, w);
  }

  /** The low `w` bits of each number. */
  function WordBits(vs: seq<int>, w: nat): (r: seq<bool>)
    ensures |r| == w * |vs|
  {
    if vs == [] then [] else
    assert w * |vs| == w + w * |vs[1..]|;
    ToBits(vs[0] % Pow2(w), w) + WordBits(vs[1..], w)
  }

  function Lows(vs: seq<int>, w: nat): (r: seq<int>)
    ensures |r| == |vs|
  {
    if vs == [] then [] else [vs[0] % Pow2(w)] + Lows(vs[1..], w)
  }

  lemma {:induction false} WordsRoundTrip(s: seq<bool>, p: nat, vs: seq<int>, w: nat)
    requires Has(s, p, WordBits(vs, w))
    ensures Words(s, p, |vs|, w) == Lows(vs, w)
    decreases |vs|
  {
    hide Has, Value, Pow2;
    if vs == [] {
    } else {
      TakeField(s, p, vs[0] % Pow2(w), w, WordBits(vs[1..], w));
      WordsRoundTrip(s, p + w, vs[1..], w);
    }
  }

  lemma RemainderAsSum(v: int, m: nat)
    requires m > 0
    ensures v % m == (0 - v / m) * m + v
  {
    Distribute(0, v / m, m);
  }

  lemma WrapLow(v: int, w: nat)
    requires w >= 1 && Signed(v, w)
    ensures Wrap(v % Pow2(w), w) == v
  {
    hide Pow2, Wrap;
    RemainderAsSum(v, Pow2(w));
    WrapUnique(v, 0 - v / Pow2(w), w);
  }

  lemma {:induction false} SignedWordsRoundTrip(s: seq<bool>, p: nat, vs: seq<int>, w: nat)
    requires w >= 1 && AllSigned(vs, w) && Has(s, p, WordBits(vs, w))
    ensures SignedWords(s, p, |vs|, w) == vs
    decreases |vs|
  {
    hide Has, Value, Pow2, Wrap, Signed;
    if vs == [] {
    } else {
      TakeField(s, p, vs[0] % Pow2(w), w, WordBits(vs[1..], w));
      WrapLow(vs[0], w);
      SignedWordsRoundTrip(s, p + w, vs[1..], w);
    }
  }

  function HeaderBits(h: ChannelHeader, rest: seq<bool>): seq<bool>
  {
    ToBits(0, 4) + (ToBits(h.quant, 4) + (ToBits(h.ricemod, 3) +
      (ToBits(|h.coefs|, 5) + (WordBits(h.coefs, 16) + rest))))
  }

  predicate HeaderFields(h: ChannelHeader)
  {
    h.quant < 16 && h.ricemod < 8 && |h.coefs| <= DELTA_MODE && AllSigned(h.coefs, 16)
  }

  lemma HeaderRoundTrip(s: seq<bool>, p: nat, h: ChannelHeader, rest: seq<bool>)
    requires HeaderFields(h) && Has(s, p, HeaderBits(h, rest))
    ensures ReadChannelHeader(s, p) == (h, p + 16 + 16 * |h.coefs|)
    ensures Has(s, p + 16 + 16 * |h.coefs|, rest)
  {
    hide Has, Value, Signed;
    Pow2Small();
    var words := WordBits(h.coefs, 16) + rest;
    TakeField(s, p, 0, 4, ToBits(h.quant, 4) + (ToBits(h.ricemod, 3) + (ToBits(|h.coefs|, 5) + words)));
    TakeField(s, p + 4, h.quant, 4, ToBits(h.ricemod, 3) + (ToBits(|h.coefs|, 5) + words));
    TakeField(s, p + 8, h.ricemod, 3, ToBits(|h.coefs|, 5) + words);
    TakeField(s, p + 11, |h.coefs|, 5, words);
    HasSplit(s, p + 16, WordBits(h.coefs, 16), rest);
    SignedWordsRoundTrip(s, p + 16, h.coefs, 16);
  }

  function Flag(b: bool): nat
  {
    if b then 1 else 0
  }

  function SubframeBits(tag: nat, sized: bool, n: nat, lowBytes: nat, verbatim: bool, rest: seq<bool>): seq<bool>
  {
    ToBits(tag, 3) + (ToBits(0, 16) + (ToBits(Flag(sized), 1) + (ToBits(lowBytes, 2) + (ToBits(Flag(verbatim), 1) +
      if sized then ToBits(n, 32) + rest else rest))))
  }

  function BodyStart(sized: bool): nat
  {
    if sized then 55 else 23
  }

  /** The sample count is written out, or is the configured one. */
  predicate CountFits(cfg: Config, sized: bool, n: nat)
  {
    0 < n <= cfg.maxSamples && (if sized then n < 0x1_0000_0000 else n == cfg.maxSamples)
  }

  lemma SubframeRoundTrip(cfg: Config, s: seq<bool>, tag: nat, sized: bool, n: nat, lowBytes: nat, verbatim: bool,
                          rest: seq<bool>)
    requires tag < 8 && lowBytes < 4 && CountFits(cfg, sized, n)
    requires Has(s, 0, SubframeBits(tag, sized, n, lowBytes, verbatim, rest))
    ensures Value(s, 0, 3) == tag
    ensures ParseSubframe(cfg, s) == Subframe(n, lowBytes, verbatim, BodyStart(sized))
    ensures Has(s, BodyStart(sized), rest)
  {
    hide Has, Value;
    Pow2Small();
    assert Pow2(16) > 0 && Pow2(32) == 0x1_0000_0000 by { Pow2Large(); }
    var body := if sized then ToBits(n, 32) + rest else rest;
    TakeField(s, 0, tag, 3,
      ToBits(0, 16) + (ToBits(Flag(sized), 1) + (ToBits(lowBytes, 2) + (ToBits(Flag(verbatim), 1) + body))));
    TakeField(s, 3, 0, 16, ToBits(Flag(sized), 1) + (ToBits(lowBytes, 2) + (ToBits(Flag(verbatim), 1) + body)));
    TakeField(s, 19, Flag(sized), 1, ToBits(lowBytes, 2) + (ToBits(Flag(verbatim), 1) + body));
    TakeField(s, 20, lowBytes, 2, ToBits(Flag(verbatim), 1) + body);
    TakeField(s, 22, Flag(verbatim), 1, body);
    if sized {
      TakeField(s, 23, n, 32, rest);
    }
  }

  // ---------------------------------------------------------------------------------------------
  // Channels
  // ---------------------------------------------------------------------------------------------

  predicate HeaderFits(cfg: Config, h: ChannelHeader, n: nat)
  {
    HeaderFields(h) && PredictorFits(h, n) && ChannelInProfile(cfg, h)
  }

  function Residuals(h: ChannelHeader, samples: seq<int>, size: nat): (r: seq<int>)
    requires 1 <= size <= 25 && |h.coefs| <= DELTA_MODE && AllSigned(samples, size)
    ensures |r| == |samples| && AllSigned(r, size)
  {
    FirRoundTrip(FirOf(h, size), [], Table(h), samples);
    FirEncode(FirOf(h, size), [], Table(h), samples)
  }

  function ChannelBits(cfg: Config, h: ChannelHeader, samples: seq<int>, size: nat): seq<bool>
    requires cfg.Valid() && 1 <= size <= 25 && |h.coefs| <= DELTA_MODE && ChannelInProfile(cfg, h)
    requires AllSigned(samples, size)
  {
    RiceEncode(Residuals(h, samples, size), cfg.initialHistory, 0, size, RiceOf(cfg, h))
  }

  /** Whether the residuals of a channel have a code. */
  predicate ChannelCodable(cfg: Config, h: ChannelHeader, samples: seq<int>, size: nat)
    requires cfg.Valid() && 1 <= size <= 25 && |h.coefs| <= DELTA_MODE && ChannelInProfile(cfg, h)
    requires AllSigned(samples, size)
  {
    Codable(Residuals(h, samples, size), cfg.initialHistory, 0, size, RiceOf(cfg, h))
  }

  /** One channel survives prediction, entropy coding and back. */
  lemma ChannelRoundTrip(cfg: Config, s: seq<bool>, p: nat, h: ChannelHeader, samples: seq<int>, size: nat)
    requires cfg.Valid() && 1 <= size <= 25 && |h.coefs| <= DELTA_MODE && ChannelInProfile(cfg, h)
    requires AllSigned(samples, size) && ChannelCodable(cfg, h, samples, size)
    requires Has(s, p, ChannelBits(cfg, h, samples, size))
    ensures DecodeChannel(cfg, s, p, |samples|, size, h)
         == (samples, p + |ChannelBits(cfg, h, samples, size)|)
  {
    hide Has, Codable, FirEncode, FirDecode, RiceDecode, RiceEncode, Signed;
    RiceRoundTrip(s, p, Residuals(h, samples, size), cfg.initialHistory, 0, size, RiceOf(cfg, h));
    FirRoundTrip(FirOf(h, size), [], Table(h), samples);
    assert [] + samples == samples;
  }

  // ---------------------------------------------------------------------------------------------
  // Samples
  // ---------------------------------------------------------------------------------------------

  function Highs(pcm: seq<int>, lowBytes: nat): (r: seq<int>)
    ensures |r| == |pcm|
  {
    if pcm == [] then [] else [pcm[0] / Pow2(8 * lowBytes)] + Highs(pcm[1..], lowBytes)
  }

  lemma HighSigned(v: int, w: nat, size: nat)
    requires size >= 1 && Signed(v, size + w)
    ensures Signed(v / Pow2(w), size)
  {
    hide Pow2;
    var m, h := Pow2(w), Pow2(size - 1);
    Pow2Add(size - 1, w);
    QuotientRange(v, m, h);
  }

  lemma QuotientRange(v: int, m: nat, h: nat)
    requires m > 0 && 0 - h * m <= v < h * m
    ensures 0 - h <= v / m < h
  {
    Distribute(0, h, m);
    ScaledQuotient(v, m, 0 - h, h);
    assert v == m * (v / m) + v % m;
  }

  lemma {:induction false} HighsSigned(pcm: seq<int>, lowBytes: nat, size: nat)
    requires size >= 1 && AllSigned(pcm, size + 8 * lowBytes)
    ensures AllSigned(Highs(pcm, lowBytes), size)
  {
    hide Signed;
    if pcm == [] {
    } else {
      HighSigned(pcm[0], 8 * lowBytes, size);
      HighsSigned(pcm[1..], lowBytes, size);
    }
  }

  lemma MergeSplit(cfg: Config, v: int, lowBytes: nat)
    requires cfg.depth == 24 || lowBytes == 0
    ensures Merge(cfg, v / Pow2(8 * lowBytes), v % Pow2(8 * lowBytes), lowBytes) == v
  {
    var m := Pow2(8 * lowBytes);
    assert v == (v / m) * m + v % m;
    SplitAt(0, v % m, m);
  }

  lemma {:induction false} MergeAllSplit(cfg: Config, pcm: seq<int>, lowBytes: nat)
    requires cfg.depth == 24 || lowBytes == 0
    ensures MergeAll(cfg, Highs(pcm, lowBytes), Lows(pcm, 8 * lowBytes), lowBytes) == pcm
  {
    hide Merge, Pow2;
    if pcm == [] {
    } else {
      MergeSplit(cfg, pcm[0], lowBytes);
      MergeAllSplit(cfg, pcm[1..], lowBytes);
      var all := MergeAll(cfg, Highs(pcm, lowBytes), Lows(pcm, 8 * lowBytes), lowBytes);
      var rest := MergeAll(cfg, Highs(pcm[1..], lowBytes), Lows(pcm[1..], 8 * lowBytes), lowBytes);
      assert all == [pcm[0]] + rest;
    }
  }

  // ---------------------------------------------------------------------------------------------
  // Whole frames
  // ---------------------------------------------------------------------------------------------

  /** Everything an encoder is free to choose. */
  datatype Settings = Settings(
    sized: bool, lowBytes: nat, shift: nat, weight: nat, a: ChannelHeader, b: ChannelHeader)

  /** A block of PCM samples of the configured width, interleaved when there are two channels. */
  predicate IsBlock(cfg: Config, pcm: seq<int>, n: nat)
  {
    cfg.Valid() && |pcm| == cfg.channels * n && AllSigned(pcm, cfg.depth)
  }

  predicate SettingsFit(cfg: Config, st: Settings, n: nat)
  {
    && CountFits(cfg, st.sized, n)
    && 8 * st.lowBytes < cfg.depth && (cfg.depth == 16 ==> st.lowBytes == 0)
    && st.shift < 32 && st.weight < 256 && st.weight <= Pow2(st.shift)
    && HeaderFits(cfg, st.a, n) && HeaderFits(cfg, st.b, n)
  }

  // Mono

  function MonoWidth(cfg: Config, st: Settings): (w: nat)
    requires cfg.Valid() && 8 * st.lowBytes < cfg.depth
    ensures 1 <= w <= 24
  {
    cfg.depth - 8 * st.lowBytes
  }

  predicate MonoCodable(cfg: Config, st: Settings, pcm: seq<int>, n: nat)
    requires IsBlock(cfg, pcm, n) && SettingsFit(cfg, st, n)
  {
    HighsSigned(pcm, st.lowBytes, MonoWidth(cfg, st));
    ChannelCodable(cfg, st.a, Highs(pcm, st.lowBytes), MonoWidth(cfg, st))
  }

  function MonoBody(cfg: Config, st: Settings, pcm: seq<int>, n: nat): seq<bool>
    requires IsBlock(cfg, pcm, n) && SettingsFit(cfg, st, n)
  {
    HighsSigned(pcm, st.lowBytes, MonoWidth(cfg, st));
    ToBits(st.shift, 8) + (ToBits(st.weight, 8) + HeaderBits(st.a,
      WordBits(pcm, 8 * st.lowBytes) + ChannelBits(cfg, st.a, Highs(pcm, st.lowBytes), MonoWidth(cfg, st))))
  }

  /** Where the parts of a mono body stand. */
  lemma MonoFields(st: Settings, s: seq<bool>, p: nat, pcm: seq<int>, channel: seq<bool>)
    requires st.shift < 32 && st.weight < 256 && HeaderFields(st.a)
    requires Has(s, p, ToBits(st.shift, 8) + (ToBits(st.weight, 8) +
                       HeaderBits(st.a, WordBits(pcm, 8 * st.lowBytes) + channel)))
    ensures var q := p + 32 + 16 * |st.a.coefs|;
            && ReadChannelHeader(s, p + 16) == (st.a, q)
            && Words(s, q, |pcm|, 8 * st.lowBytes) == Lows(pcm, 8 * st.lowBytes)
            && Has(s, q + 8 * st.lowBytes * |pcm|, channel)
  {
    hide Has, Value, HeaderBits, ReadChannelHeader, Signed, Pow2, HeaderFields, WordBits;
    var width := 8 * st.lowBytes;
    var tail := HeaderBits(st.a, WordBits(pcm, width) + channel);
    ByteFields(st.shift, st.weight);
    TakeField(s, p, st.shift, 8, ToBits(st.weight, 8) + tail);
    TakeField(s, p + 8, st.weight, 8, tail);
    HeaderRoundTrip(s, p + 16, st.a, WordBits(pcm, width) + channel);
    var q := p + 32 + 16 * |st.a.coefs|;
    HasSplit(s, q, WordBits(pcm, width), channel);
    WordsRoundTrip(s, q, pcm, width);
  }

  lemma MonoRoundTrip(cfg: Config, st: Settings, pcm: seq<int>, n: nat, s: seq<bool>, p: nat)
    requires IsBlock(cfg, pcm, n) && SettingsFit(cfg, st, n) && cfg.channels == 1 && MonoCodable(cfg, st, pcm, n)
    requires Has(s, p, MonoBody(cfg, st, pcm, n))
    ensures var f := Subframe(n, st.lowBytes, false, p);
            MonoInProfile(cfg, s, f) && MonoSamples(cfg, s, f) == pcm
  {
    hide Has, Value, ChannelCodable, ChannelBits, HeaderBits, ReadChannelHeader, DecodeChannel, Signed, Pow2, MergeAll,
      HeaderFields, Words, Lows, Highs, ToBits, WordBits;
    var size, width := MonoWidth(cfg, st), 8 * st.lowBytes;
    var highs := Highs(pcm, st.lowBytes);
    HighsSigned(pcm, st.lowBytes, size);
    CoefCount(st.a);
    MonoFields(st, s, p, pcm, ChannelBits(cfg, st.a, highs, size));
    var q := p + 32 + 16 * |st.a.coefs|;
    ChannelRoundTrip(cfg, s, q + width * n, st.a, highs, size);
    MergeAllSplit(cfg, pcm, st.lowBytes);
  }

  lemma CoefCount(h: ChannelHeader)
    requires HeaderFields(h)
    ensures |h.coefs| <= DELTA_MODE
  {
  }

  lemma ByteFields(shift: nat, weight: nat)
    requires shift < 32 && weight < 256
    ensures shift < Pow2(8) && weight < Pow2(8)
  {
    Pow2Small();
  }

  // Stereo

  predicate StereoCodable(cfg: Config, st: Settings, pcm: seq<int>, n: nat)
    requires IsBlock(cfg, pcm, n) && SettingsFit(cfg, st, n) && cfg.channels == 2
  {
    hide ChannelCodable, Signed, Pow2, MixA, MixB, Highs;
    var size := MonoWidth(cfg, st);
    HighsSigned(pcm, st.lowBytes, size);
    MixAllSigned(Highs(pcm, st.lowBytes), st.shift, st.weight, size);
    && ChannelCodable(cfg, st.a, MixA(Highs(pcm, st.lowBytes), st.shift, st.weight), size + 1)
    && ChannelCodable(cfg, st.b, MixB(Highs(pcm, st.lowBytes), st.shift, st.weight), size + 1)
  }

  function StereoBody(cfg: Config, st: Settings, pcm: seq<int>, n: nat): seq<bool>
    requires IsBlock(cfg, pcm, n) && SettingsFit(cfg, st, n) && cfg.channels == 2
  {
    hide Signed, Pow2, MixA, MixB, Highs, ToBits, WordBits, HeaderBits, ChannelBits;
    var size := MonoWidth(cfg, st);
    HighsSigned(pcm, st.lowBytes, size);
    MixAllSigned(Highs(pcm, st.lowBytes), st.shift, st.weight, size);
    ToBits(st.shift, 8) + (ToBits(st.weight, 8) + HeaderBits(st.a, HeaderBits(st.b,
      WordBits(pcm, 8 * st.lowBytes) +
        (ChannelBits(cfg, st.a, MixA(Highs(pcm, st.lowBytes), st.shift, st.weight), size + 1) +
         ChannelBits(cfg, st.b, MixB(Highs(pcm, st.lowBytes), st.shift, st.weight), size + 1)))))
  }

  /** Where the parts of a stereo body stand. */
  lemma StereoFields(st: Settings, s: seq<bool>, p: nat, pcm: seq<int>, bitsA: seq<bool>, bitsB: seq<bool>)
    requires st.shift < 32 && st.weight < 256 && HeaderFields(st.a) && HeaderFields(st.b)
    requires Has(s, p, ToBits(st.shift, 8) + (ToBits(st.weight, 8) +
                       HeaderBits(st.a, HeaderBits(st.b, WordBits(pcm, 8 * st.lowBytes) + (bitsA + bitsB)))))
    ensures var q := p + 32 + 16 * |st.a.coefs|;
            var r := q + 16 + 16 * |st.b.coefs|;
            var t := r + 8 * st.lowBytes * |pcm|;
            && Value(s, p, 8) == st.shift && Value(s, p + 8, 8) == st.weight
            && ReadChannelHeader(s, p + 16) == (st.a, q) && ReadChannelHeader(s, q) == (st.b, r)
            && Words(s, r, |pcm|, 8 * st.lowBytes) == Lows(pcm, 8 * st.lowBytes)
            && Has(s, t, bitsA) && Has(s, t + |bitsA|, bitsB)
  {
    hide Has, Value, HeaderBits, ReadChannelHeader, Signed, Pow2, HeaderFields, WordBits, Words, Lows, ToBits;
    var width := 8 * st.lowBytes;
    var body := WordBits(pcm, width) + (bitsA + bitsB);
    ByteFields(st.shift, st.weight);
    TakeField(s, p, st.shift, 8, ToBits(st.weight, 8) + HeaderBits(st.a, HeaderBits(st.b, body)));
    TakeField(s, p + 8, st.weight, 8, HeaderBits(st.a, HeaderBits(st.b, body)));
    HeaderRoundTrip(s, p + 16, st.a, HeaderBits(st.b, body));
    var q := p + 32 + 16 * |st.a.coefs|;
    HeaderRoundTrip(s, q, st.b, body);
    var r := q + 16 + 16 * |st.b.coefs|;
    StereoResiduals(s, r, pcm, width, bitsA, bitsB);
  }

  lemma StereoResiduals(s: seq<bool>, r: nat, pcm: seq<int>, width: nat, bitsA: seq<bool>, bitsB: seq<bool>)
    requires Has(s, r, WordBits(pcm, width) + (bitsA + bitsB))
    ensures Words(s, r, |pcm|, width) == Lows(pcm, width)
    ensures Has(s, r + width * |pcm|, bitsA) && Has(s, r + width * |pcm| + |bitsA|, bitsB)
  {
    hide Has, WordBits, Words, Lows;
    HasSplit(s, r, WordBits(pcm, width), bitsA + bitsB);
    WordsRoundTrip(s, r, pcm, width);
    HasSplit(s, r + width * |pcm|, bitsA, bitsB);
  }

  lemma HeaderFitsParts(cfg: Config, h: ChannelHeader, n: nat)
    requires HeaderFits(cfg, h, n)
    ensures HeaderFields(h) && |h.coefs| <= DELTA_MODE && PredictorFits(h, n) && ChannelInProfile(cfg, h)
  {
  }

  lemma StereoRoundTrip(cfg: Config, st: Settings, pcm: seq<int>, n: nat, s: seq<bool>, p: nat, stale: seq<int>)
    requires IsBlock(cfg, pcm, n) && SettingsFit(cfg, st, n) && cfg.channels == 2 && StereoCodable(cfg, st, pcm, n)
    requires Has(s, p, StereoBody(cfg, st, pcm, n)) && |stale| >= 2 * n
    ensures var f := Subframe(n, st.lowBytes, false, p);
            StereoInProfile(cfg, s, f) && StereoSamples(cfg, s, f, stale) == Remixed(cfg, st, pcm)
  {
    hide Has, Value, ChannelCodable, ChannelBits, HeaderBits, ReadChannelHeader, DecodeChannel, Signed, Pow2, MergeAll,
      HeaderFields, HeaderFits, PredictorFits, ChannelInProfile, UnmixAll, MixA, MixB, Highs, Words, Lows, ToBits,
      WordBits, UnmixedSamples;
    var size, width := MonoWidth(cfg, st), 8 * st.lowBytes;
    var highs := Highs(pcm, st.lowBytes);
    HighsSigned(pcm, st.lowBytes, size);
    MixAllSigned(highs, st.shift, st.weight, size);
    HeaderFitsParts(cfg, st.a, n);
    HeaderFitsParts(cfg, st.b, n);
    var mixA, mixB := MixA(highs, st.shift, st.weight), MixB(highs, st.shift, st.weight);
    var bitsA, bitsB := ChannelBits(cfg, st.a, mixA, size + 1), ChannelBits(cfg, st.b, mixB, size + 1);
    StereoFields(st, s, p, pcm, bitsA, bitsB);
    var q := p + 32 + 16 * |st.a.coefs|;
    var r := q + 16 + 16 * |st.b.coefs|;
    var t := r + width * (2 * n);
    ChannelRoundTrip(cfg, s, t, st.a, mixA, size + 1);
    ChannelRoundTrip(cfg, s, t + |bitsA|, st.b, mixB, size + 1);
    Unmixed(cfg, s, r, n, st, size + 1, mixA, mixB, t + |bitsA|);
  }

  lemma Unmixed(cfg: Config, s: seq<bool>, p: nat, n: nat, st: Settings, size: nat, a: seq<int>, b: seq<int>, next: nat)
    requires cfg.Valid() && 1 <= size <= 25 && |st.a.coefs| <= DELTA_MODE && |st.b.coefs| <= DELTA_MODE
    requires ChannelInProfile(cfg, st.a) && ChannelInProfile(cfg, st.b)
    requires DecodeChannel(cfg, s, p + Span(8 * st.lowBytes, 2 * n), n, size, st.a) == (a, next)
    requires DecodeChannel(cfg, s, next, n, size, st.b).0 == b
    ensures |a| == |b| == n
    ensures UnmixedSamples(cfg, s, p, n, st.lowBytes, size, st.a, st.b, st.shift, st.weight)
         == MergeAll(cfg, UnmixAll(a, b, st.shift, st.weight), Words(s, p, 2 * n, 8 * st.lowBytes), st.lowBytes)
  {
    hide DecodeChannel, Words, MergeAll, UnmixAll, ChannelInProfile, Span;
  }

  /** What mixing and unmixing in 32 bits make of a block. */
  function Remixed(cfg: Config, st: Settings, pcm: seq<int>): seq<int>
  {
    if |pcm| % 2 != 0 then [] else
    var highs := Highs(pcm, st.lowBytes);
    MergeAll(cfg, UnmixAll(MixA(highs, st.shift, st.weight), MixB(highs, st.shift, st.weight), st.shift, st.weight),
             Lows(pcm, 8 * st.lowBytes), st.lowBytes)
  }

  /** No product of the unmixing overflows, or what it loses is beyond the bytes of a sample. */
  predicate MixExact(cfg: Config, st: Settings, pcm: seq<int>)
  {
    cfg.channels == 1 || st.shift <= 8 || ProductsFit(Highs(pcm, st.lowBytes), st.weight)
  }

  lemma {:induction false} HighsWhole(pcm: seq<int>)
    ensures Highs(pcm, 0) == pcm
  {
    if pcm == [] {
    } else {
      HighsWhole(pcm[1..]);
    }
  }

  lemma RemixedBytes(cfg: Config, st: Settings, pcm: seq<int>, n: nat)
    requires IsBlock(cfg, pcm, n) && SettingsFit(cfg, st, n) && cfg.channels == 2
    ensures PcmBytes(Remixed(cfg, st, pcm), cfg.depth / 8) == PcmBytes(pcm, cfg.depth / 8) <==> MixExact(cfg, st, pcm)
  {
    hide PcmBytes, UnmixAll, MixA, MixB, Highs, Lows, MergeAll, Signed, Pow2, HeaderFits, ProductsFit;
    var size := MonoWidth(cfg, st);
    var highs := Highs(pcm, st.lowBytes);
    HighsSigned(pcm, st.lowBytes, size);
    if size <= 16 {
      NarrowProductsFit(highs, st.weight, size);
      WidenSigned(highs, size);
      MixRoundTrip(highs, st.shift, st.weight);
      MergeAllSplit(cfg, pcm, st.lowBytes);
    } else {
      HighsWhole(pcm);
      MixedBytes(pcm, st.shift, st.weight);
      NoMerge(cfg, UnmixAll(MixA(pcm, st.shift, st.weight), MixB(pcm, st.shift, st.weight), st.shift, st.weight),
              Lows(pcm, 0));
    }
  }

  lemma WidenSigned(xs: seq<int>, size: nat)
    requires 1 <= size <= 24 && AllSigned(xs, size)
    ensures AllSigned(xs, 24)
  {
    Pow2Monotone(size - 1, 23);
  }

  // Frames

  function Body(cfg: Config, st: Settings, pcm: seq<int>, n: nat): seq<bool>
    requires IsBlock(cfg, pcm, n) && SettingsFit(cfg, st, n)
  {
    if cfg.channels == 1 then MonoBody(cfg, st, pcm, n) else StereoBody(cfg, st, pcm, n)
  }

  predicate BlockCodable(cfg: Config, st: Settings, pcm: seq<int>, n: nat)
    requires IsBlock(cfg, pcm, n) && SettingsFit(cfg, st, n)
  {
    if cfg.channels == 1 then MonoCodable(cfg, st, pcm, n) else StereoCodable(cfg, st, pcm, n)
  }

  /** The bytes of a compressed frame. */
  function CompressedFrame(cfg: Config, st: Settings, pcm: seq<int>, n: nat): seq<byte>
    requires IsBlock(cfg, pcm, n) && SettingsFit(cfg, st, n)
  {
    Pack(Pad(SubframeBits(cfg.channels - 1, st.sized, n, st.lowBytes, false, Body(cfg, st, pcm, n))))
  }

  /** The bytes of a frame that carries its samples as they are. */
  function VerbatimFrame(cfg: Config, sized: bool, pcm: seq<int>, n: nat): seq<byte>
    requires IsBlock(cfg, pcm, n)
  {
    Pack(Pad(SubframeBits(cfg.channels - 1, sized, n, 0, true, WordBits(pcm, cfg.depth))))
  }

  lemma PackedHas(bits: seq<bool>)
    ensures Has(Unpack(Pack(Pad(bits))), 0, bits)
  {
    PackUnpack(Pad(bits));
    assert Pad(bits)[0..0 + |bits|] == bits;
  }

  lemma FrameAccepted(cfg: Config, s: seq<bool>, sized: bool, n: nat, lowBytes: nat, verbatim: bool, outLen: nat)
    requires cfg.Valid() && CountFits(cfg, sized, n) && 8 * lowBytes <= cfg.depth
    requires outLen >= cfg.maxSamples * cfg.BytesPerSample()
    requires Value(s, 0, 3) == cfg.channels - 1
    requires ParseSubframe(cfg, s) == Subframe(n, lowBytes, verbatim, BodyStart(sized))
    ensures Accepted(cfg, s, outLen)
  {
    hide Value;
    MulMonotone(n, cfg.maxSamples, cfg.BytesPerSample());
  }

  /**
   * Compression is lossless exactly when the unmixing is: for every valid configuration and every setting of the
   * encoder, whatever the decoder held before, the frame of a block decodes to the block's little-endian bytes if and
   * only if no product of its unmixing overflows 32 bits or the mixing shift is at most eight.
   */
  lemma CompressedLossless(cfg: Config, st: Settings, pcm: seq<int>, n: nat, outLen: nat, stale: seq<int>)
    requires IsBlock(cfg, pcm, n) && SettingsFit(cfg, st, n) && BlockCodable(cfg, st, pcm, n)
    requires outLen >= cfg.maxSamples * cfg.BytesPerSample() && |stale| >= 2 * cfg.maxSamples
    ensures var s := Unpack(CompressedFrame(cfg, st, pcm, n));
            && InProfile(cfg, s)
            && (DecodeFrame(cfg, s, outLen, stale) == PcmBytes(pcm, cfg.depth / 8) <==> MixExact(cfg, st, pcm))
  {
    hide Has, Value, Unpack, Pack, Pad, SubframeBits, MonoBody, StereoBody, MonoCodable, StereoCodable, MonoInProfile,
      StereoInProfile, MonoSamples, StereoSamples, PcmBytes, ParseSubframe, Accepted, HeaderFits, Signed, Remixed;
    var body := Body(cfg, st, pcm, n);
    var bits := SubframeBits(cfg.channels - 1, st.sized, n, st.lowBytes, false, body);
    var s := Unpack(CompressedFrame(cfg, st, pcm, n));
    PackedHas(bits);
    SubframeRoundTrip(cfg, s, cfg.channels - 1, st.sized, n, st.lowBytes, false, body);
    FrameAccepted(cfg, s, st.sized, n, st.lowBytes, false, outLen);
    if cfg.channels == 1 {
      MonoRoundTrip(cfg, st, pcm, n, s, BodyStart(st.sized));
    } else {
      StereoRoundTrip(cfg, st, pcm, n, s, BodyStart(st.sized), stale);
      RemixedBytes(cfg, st, pcm, n);
    }
  }

  /** In particular with every setting but a mixing weight above 128 at a shift above eight on 24-bit samples. */
  lemma SafeSettings(cfg: Config, st: Settings, pcm: seq<int>, n: nat)
    requires IsBlock(cfg, pcm, n) && SettingsFit(cfg, st, n)
    requires cfg.depth == 16 || st.lowBytes > 0 || st.weight <= 128 || st.shift <= 8
    ensures MixExact(cfg, st, pcm)
  {
    hide Signed, HeaderFits, Pow2, Highs, ProductsFit;
    HighsSigned(pcm, st.lowBytes, MonoWidth(cfg, st));
    if st.shift > 8 {
      NarrowProductsFit(Highs(pcm, st.lowBytes), st.weight, MonoWidth(cfg, st));
    }
  }

  /** A block of one pair that the unmixing does not give back. */
  lemma OverflowExample(outLen: nat, stale: seq<int>)
    requires outLen >= 6 && |stale| >= 2
    ensures var cfg := Config(1, 24, 2, 40, 10, 14); var plain := ChannelHeader(0, 4, []);
            var st := Settings(false, 0, 9, 200, plain, plain); var pcm := [0x7F_FFFF, -0x80_0000];
            && IsBlock(cfg, pcm, 1) && SettingsFit(cfg, st, 1)
            && InProfile(cfg, Unpack(CompressedFrame(cfg, st, pcm, 1)))
            && DecodeFrame(cfg, Unpack(CompressedFrame(cfg, st, pcm, 1)), outLen, stale) != PcmBytes(pcm, 3)
  {
    var cfg, plain := Config(1, 24, 2, 40, 10, 14), ChannelHeader(0, 4, []);
    var st, pcm := Settings(false, 0, 9, 200, plain, plain), [0x7F_FFFF, -0x80_0000];
    Pow2Large();
    assert Pow2(9) == 512 by { Pow2Small(); assert Pow2(9) == 2 * Pow2(8); }
    assert IsBlock(cfg, pcm, 1) && SettingsFit(cfg, st, 1);
    hide DecodeFrame, InProfile, CompressedFrame, BlockCodable, PcmBytes, Unpack, IsBlock, SettingsFit;
    ShortBlocksCompress(cfg, st, pcm, 1);
    CompressedLossless(cfg, st, pcm, 1, outLen, stale);
    HighsWhole(pcm);
    assert !ProductFits(pcm[0], pcm[1], 200);
  }

  /** Frames without compression carry the samples through. */
  lemma VerbatimLossless(cfg: Config, sized: bool, pcm: seq<int>, n: nat, outLen: nat, stale: seq<int>)
    requires IsBlock(cfg, pcm, n) && CountFits(cfg, sized, n)
    requires outLen >= cfg.maxSamples * cfg.BytesPerSample() && |stale| >= 2 * cfg.maxSamples
    ensures var s := Unpack(VerbatimFrame(cfg, sized, pcm, n));
            InProfile(cfg, s) && DecodeFrame(cfg, s, outLen, stale) == PcmBytes(pcm, cfg.depth / 8)
  {
    hide Has, Value, Unpack, Pack, Pad, SubframeBits, PcmBytes, ParseSubframe, Accepted, SignedWords, WordBits,
      MergeAll, Signed;
    var words := WordBits(pcm, cfg.depth);
    var bits := SubframeBits(cfg.channels - 1, sized, n, 0, true, words);
    var s := Unpack(VerbatimFrame(cfg, sized, pcm, n));
    PackedHas(bits);
    SubframeRoundTrip(cfg, s, cfg.channels - 1, sized, n, 0, true, words);
    FrameAccepted(cfg, s, sized, n, 0, true, outLen);
    SignedWordsRoundTrip(s, BodyStart(sized), pcm, cfg.depth);
    if cfg.channels == 2 {
      NoMerge(cfg, pcm, stale);
    }
  }

  /** Every block of at most 65536 samples a channel can be compressed, with every setting. */
  lemma ShortBlocksCompress(cfg: Config, st: Settings, pcm: seq<int>, n: nat)
    requires IsBlock(cfg, pcm, n) && SettingsFit(cfg, st, n) && n <= MAX_RUN + 1
    ensures BlockCodable(cfg, st, pcm, n)
  {
    hide ChannelCodable, Signed, HeaderFits, Pow2, MixA, MixB, Highs;
    var size := MonoWidth(cfg, st);
    HighsSigned(pcm, st.lowBytes, size);
    var highs := Highs(pcm, st.lowBytes);
    CoefBound(cfg, st.a, n);
    CoefBound(cfg, st.b, n);
    if cfg.channels == 1 {
      ShortChannelCodable(cfg, st.a, highs, size);
    } else {
      MixAllSigned(highs, st.shift, st.weight, size);
      ShortChannelCodable(cfg, st.a, MixA(highs, st.shift, st.weight), size + 1);
      ShortChannelCodable(cfg, st.b, MixB(highs, st.shift, st.weight), size + 1);
    }
  }

  lemma ShortChannelCodable(cfg: Config, h: ChannelHeader, samples: seq<int>, size: nat)
    requires cfg.Valid() && 1 <= size <= 25 && |h.coefs| <= DELTA_MODE && ChannelInProfile(cfg, h)
    requires AllSigned(samples, size) && |samples| <= MAX_RUN + 1
    ensures ChannelCodable(cfg, h, samples, size)
  {
    hide Codable, Signed;
    ShortBlocksCodable(Residuals(h, samples, size), cfg.initialHistory, 0, size, RiceOf(cfg, h));
  }

  lemma CoefBound(cfg: Config, h: ChannelHeader, n: nat)
    requires HeaderFits(cfg, h, n)
    ensures |h.coefs| <= DELTA_MODE && ChannelInProfile(cfg, h)
  {
  }

  /** So every such block has a compressed frame that decodes to it. */
  lemma EveryBlockCompresses(cfg: Config, pcm: seq<int>, n: nat, outLen: nat, stale: seq<int>)
    returns (frame: seq<byte>)
    requires IsBlock(cfg, pcm, n) && 0 < n <= cfg.maxSamples && n <= MAX_RUN + 1
    requires outLen >= cfg.maxSamples * cfg.BytesPerSample() && |stale| >= 2 * cfg.maxSamples
    ensures InProfile(cfg, Unpack(frame))
    ensures DecodeFrame(cfg, Unpack(frame), outLen, stale) == PcmBytes(pcm, cfg.depth / 8)
  {
    hide DecodeFrame, InProfile, CompressedFrame, BlockCodable, PcmBytes, Unpack, IsBlock;
    var plain := ChannelHeader(0, 0, []);
    var st := Settings(true, 0, 0, 0, plain, plain);
    BlockDepth(cfg, pcm, n);
    assert HeaderFits(cfg, plain, n);
    ShortBlocksCompress(cfg, st, pcm, n);
    CompressedLossless(cfg, st, pcm, n, outLen, stale);
    SafeSettings(cfg, st, pcm, n);
    frame := CompressedFrame(cfg, st, pcm, n);
  }

  lemma BlockDepth(cfg: Config, pcm: seq<int>, n: nat)
    requires IsBlock(cfg, pcm, n)
    ensures cfg.Valid()
  {
  }
}
