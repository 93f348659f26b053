/** ALAC frames as a function of their bits: headers, channels, unmixing and the PCM bytes they decode to. */
module AlacFrame {
  import opened Common
  import opened Endian
  import opened Powers
  import opened Bits
  import opened Rice
  import opened Predictor

  datatype Config = Config(
    maxSamples: nat, depth: nat, channels: nat, historyMult: nat, initialHistory: nat, kModifier: nat)
  {
    predicate Valid()
    {
      && (depth == 16 || depth == 24)
      && (channels == 1 || channels == 2)
      && historyMult < 256 && initialHistory < 256
      && 1 <= kModifier <= 16
    }

    function BytesPerSample(): nat
    {
      depth / 8 * channels
    }
  }

  // ---------------------------------------------------------------------------------------------
  // Decoding
  // ---------------------------------------------------------------------------------------------

  /** `n` consecutive `w`-bit words. */
  function Words(s: seq<bool>, p: nat, n: nat, w: nat): (r: seq<int>)
    ensures |r| == n
    decreases n
  {
    if n == 0 then [] else [Value(s, p, w)] + Words(s, p + w, n - 1, w)
  }

  /** How many bits `n` words take. */
  function Span(w: nat, n: nat): nat
  {
    w * n
  }

  function SignedWords(s: seq<bool>, p: nat, n: nat, w: nat): (r: seq<int>)
    requires w >= 1
    ensures |r| == n && AllSigned(r, w)
    decreases n
  {
    if n == 0 then [] else [Wrap(Value(s, p, w), w)] + SignedWords(s, p + w, n - 1, w)
  }

  datatype Subframe = Subframe(samples: nat, lowBytes: nat, verbatim: bool, next: nat)

  function ParseSubframe(cfg: Config, s: seq<bool>): Subframe
  {
    var sized := Value(s, 19, 1) != 0;
    Subframe(if sized then Value(s, 23, 32) else cfg.maxSamples,
             Value(s, 20, 2),
             Value(s, 22, 1) != 0,
             if sized then 55 else 23)
  }

  datatype ChannelHeader = ChannelHeader(quant: nat, ricemod: nat, coefs: seq<int>)

  function ReadChannelHeader(s: seq<bool>, p: nat): (r: (ChannelHeader, nat))
    ensures |r.0.coefs| <= DELTA_MODE
  {
    ValueBound(s, p + 11, 5);
    Pow2Small();
    var num := Value(s, p + 11, 5);
    (ChannelHeader(Value(s, p + 4, 4), Value(s, p + 8, 3), SignedWords(s, p + 16, num, 16)), p + 16 + 16 * num)
  }

  /** The coefficient table: 32 entries, the unused ones zero. */
  function Table(h: ChannelHeader): (t: seq<int>)
    requires |h.coefs| <= DELTA_MODE
    ensures |t| == 32
  {
    h.coefs + Zeros(32 - |h.coefs|)
  }

  function RiceOf(cfg: Config, h: ChannelHeader): RiceParams
  {
    RiceParams(cfg.initialHistory, cfg.kModifier, h.ricemod * cfg.historyMult / 4)
  }

  function FirOf(h: ChannelHeader, size: nat): Fir
  {
    Fir(|h.coefs|, h.quant, size)
  }

  /** The warm-up samples must exist: a longer predictor than the block indexes past it. */
  predicate PredictorFits(h: ChannelHeader, n: nat)
  {
    |h.coefs| == 0 || |h.coefs| == DELTA_MODE || |h.coefs| < n
  }

  /** Header values for which the 32-bit history arithmetic is exact. */
  predicate ChannelInProfile(cfg: Config, h: ChannelHeader)
  {
    h.ricemod * cfg.historyMult / 4 <= 63
  }

  function DecodeChannel(cfg: Config, s: seq<bool>, p: nat, n: nat, size: nat, h: ChannelHeader)
    : (r: (seq<int>, nat))
    requires cfg.Valid() && 1 <= size <= 25 && |h.coefs| <= DELTA_MODE && ChannelInProfile(cfg, h)
    ensures |r.0| == n
  {
    var (errors, next) := RiceDecode(s, p, cfg.initialHistory, 0, n, size, RiceOf(cfg, h));
    (FirDecode(FirOf(h, size), [], Table(h), errors), next)
  }

  /** Whatever the bits, every 32-bit step of a channel's predictor fits and no sample is beyond 2^24. */
  lemma ChannelFits(cfg: Config, s: seq<bool>, p: nat, n: nat, size: nat, h: ChannelHeader)
    requires cfg.Valid() && 1 <= size <= 25 && |h.coefs| <= DELTA_MODE && ChannelInProfile(cfg, h)
    ensures var errors := RiceDecode(s, p, cfg.initialHistory, 0, n, size, RiceOf(cfg, h)).0;
            AllModerate(errors) && StepsFit(FirOf(h, size), [], Table(h), errors)
    ensures AllModerate(DecodeChannel(cfg, s, p, n, size, h).0)
  {
    hide RiceDecode, FirDecode, StepsFit;
    var errors := RiceDecode(s, p, cfg.initialHistory, 0, n, size, RiceOf(cfg, h)).0;
    ResidualsModerate(s, p, cfg.initialHistory, 0, n, size, RiceOf(cfg, h));
    BlockFits(FirOf(h, size), [], Table(h), errors);
    SamplesModerate(FirOf(h, size), [], Table(h), errors);
  }

  /** The low bytes that travel beside the compressed high part of a 24-bit sample. */
  function Merge(cfg: Config, high: int, low: int, lowBytes: nat): int
  {
    if cfg.depth == 24 && lowBytes > 0 then high * Pow2(8 * lowBytes) + low % Pow2(8 * lowBytes) else high
  }

  function MergeAll(cfg: Config, high: seq<int>, low: seq<int>, lowBytes: nat): (r: seq<int>)
    requires |high| <= |low|
    ensures |r| == |high|
  {
    seq(|high|, i requires 0 <= i < |high| => Merge(cfg, high[i], low[i], lowBytes))
  }

  /** Without low bytes the samples are what was decoded. */
  lemma NoMerge(cfg: Config, high: seq<int>, low: seq<int>)
    requires |high| <= |low|
    ensures MergeAll(cfg, high, low, 0) == high
  {
  }

  function MonoSize(cfg: Config, f: Subframe): int
  {
    cfg.depth - 8 * f.lowBytes
  }

  predicate MonoInProfile(cfg: Config, s: seq<bool>, f: Subframe)
  {
    !f.verbatim ==> MonoSize(cfg, f) >= 1 && ChannelInProfile(cfg, ReadChannelHeader(s, f.next + 16).0)
  }

  /** The samples of a mono frame; none when the predictor does not fit the block. */
  function MonoSamples(cfg: Config, s: seq<bool>, f: Subframe): (r: seq<int>)
    requires cfg.Valid() && MonoInProfile(cfg, s, f)
    ensures |r| == f.samples || r == []
  {
    hide ReadChannelHeader, DecodeChannel, Words, SignedWords, Merge, ChannelInProfile;
    if f.verbatim then SignedWords(s, f.next, f.samples, cfg.depth) else
    var (h, p) := ReadChannelHeader(s, f.next + 16);
    if !PredictorFits(h, f.samples) then [] else
    var width := 8 * f.lowBytes;
    MergeAll(cfg,
      DecodeChannel(cfg, s, p + Span(width, f.samples), f.samples, MonoSize(cfg, f), h).0,
      Words(s, p, f.samples, width), f.lowBytes)
  }

  /** The weighted share of a difference, in 32-bit arithmetic that wraps and shifts by less than 32. */
  function Share(b: int, shift: nat, weight: nat): int
  {
    Wrap(b * weight, 32) / Pow2(shift % 32)
  }

  /** Left and right from the mixed channels, each step in 32 bits. */
  function Unmix(a: int, b: int, shift: nat, weight: nat): (int, int)
  {
    if weight == 0 then (a, b) else
    var right := Wrap(a - Share(b, shift, weight), 32);
    (Wrap(right + b, 32), right)
  }

  function UnmixAll(a: seq<int>, b: seq<int>, shift: nat, weight: nat): (r: seq<int>)
    requires |a| == |b|
    ensures |r| == 2 * |a|
  {
    if a == [] then [] else
    var (left, right) := Unmix(a[0], b[0], shift, weight);
    [left, right] + UnmixAll(a[1..], b[1..], shift, weight)
  }

  function StereoSize(cfg: Config, f: Subframe): int
  {
    cfg.depth - 8 * f.lowBytes + 1
  }

  predicate StereoInProfile(cfg: Config, s: seq<bool>, f: Subframe)
  {
    !f.verbatim ==>
      && StereoSize(cfg, f) >= 1
      && ChannelInProfile(cfg, ReadChannelHeader(s, f.next + 16).0)
      && ChannelInProfile(cfg, ReadChannelHeader(s, ReadChannelHeader(s, f.next + 16).1).0)
  }

  /** The interleaved samples of two channels after their headers. */
  function UnmixedSamples(cfg: Config, s: seq<bool>, p: nat, n: nat, lowBytes: nat, size: nat, ha: ChannelHeader,
                          hb: ChannelHeader, shift: nat, weight: nat): (r: seq<int>)
    requires cfg.Valid() && 1 <= size <= 25 && |ha.coefs| <= DELTA_MODE && |hb.coefs| <= DELTA_MODE
    requires ChannelInProfile(cfg, ha) && ChannelInProfile(cfg, hb)
    ensures |r| == 2 * n
  {
    hide DecodeChannel, Words, Merge, ChannelInProfile, UnmixAll;
    var width := 8 * lowBytes;
    var (a, next) := DecodeChannel(cfg, s, p + Span(width, 2 * n), n, size, ha);
    var (b, _) := DecodeChannel(cfg, s, next, n, size, hb);
    MergeAll(cfg, UnmixAll(a, b, shift, weight), Words(s, p, 2 * n, width), lowBytes)
  }

  /** The interleaved samples of a stereo frame; `stale` is what the low-byte buffers still hold. */
  function StereoSamples(cfg: Config, s: seq<bool>, f: Subframe, stale: seq<int>): (r: seq<int>)
    requires cfg.Valid() && StereoInProfile(cfg, s, f) && |stale| >= 2 * f.samples
    ensures |r| == 2 * f.samples || r == []
  {
    hide ReadChannelHeader, UnmixedSamples, SignedWords, Merge, ChannelInProfile;
    var n := f.samples;
    if f.verbatim then MergeAll(cfg, SignedWords(s, f.next, 2 * n, cfg.depth), stale, f.lowBytes) else
    var (ha, p) := ReadChannelHeader(s, f.next + 16);
    var (hb, q) := ReadChannelHeader(s, p);
    if !PredictorFits(ha, n) || !PredictorFits(hb, n) then [] else
    UnmixedSamples(cfg, s, q, n, f.lowBytes, StereoSize(cfg, f), ha, hb, Value(s, f.next, 8), Value(s, f.next + 8, 8))
  }

  function PcmBytes(samples: seq<int>, width: nat): (r: seq<byte>)
    ensures |r| == width * |samples|
  {
    if samples == [] then [] else
    assert width * |samples| == width + width * |samples[1..]|;
    LittleEndian(samples[0], width) + PcmBytes(samples[1..], width)
  }

  lemma PcmFirst(xs: seq<int>, width: nat)
    ensures xs == [] ==> PcmBytes(xs, width) == []
    ensures xs != [] ==> PcmBytes(xs, width) == LittleEndian(xs[0], width) + PcmBytes(xs[1..], width)
  {
    hide LittleEndian;
  }

  /** Whether the frame goes to the mono or the stereo decoder at all. */
  predicate Accepted(cfg: Config, s: seq<bool>, outLen: nat)
  {
    var f := ParseSubframe(cfg, s);
    && cfg.maxSamples > 0 && outLen >= cfg.maxSamples * cfg.BytesPerSample()
    && Value(s, 0, 3) == cfg.channels - 1
    && 0 < f.samples <= cfg.maxSamples && f.samples * cfg.BytesPerSample() <= outLen
    && 8 * f.lowBytes <= cfg.depth
  }

  predicate InProfile(cfg: Config, s: seq<bool>)
  {
    var f := ParseSubframe(cfg, s);
    if cfg.channels == 1 then MonoInProfile(cfg, s, f) else StereoInProfile(cfg, s, f)
  }

  function FrameSamples(cfg: Config, s: seq<bool>, stale: seq<int>): seq<int>
    requires cfg.Valid() && InProfile(cfg, s)
    requires |stale| >= 2 * ParseSubframe(cfg, s).samples
  {
    var f := ParseSubframe(cfg, s);
    if cfg.channels == 1 then MonoSamples(cfg, s, f) else StereoSamples(cfg, s, f, stale)
  }

  /** The bytes one frame decodes to; none when it is refused or makes the decoder index out of range. */
  function DecodeFrame(cfg: Config, s: seq<bool>, outLen: nat, stale: seq<int>): seq<byte>
    requires cfg.Valid() && |stale| >= 2 * cfg.maxSamples
    requires Accepted(cfg, s, outLen) ==> InProfile(cfg, s)
  {
    if !Accepted(cfg, s, outLen) then [] else
    PcmBytes(FrameSamples(cfg, s, stale), cfg.depth / 8)
  }
}
