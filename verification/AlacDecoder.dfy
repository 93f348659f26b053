/** The decoder object: buffers reused from frame to frame, and the loops that fill and empty them. */
module AlacDecoder {
  import opened Common
  import opened Endian
  import opened Powers
  import opened Bits
  import opened Rice
  import opened Predictor
  import opened AlacFrame

  // ---------------------------------------------------------------------------------------------
  // Growing at the end
  // ---------------------------------------------------------------------------------------------

  lemma {:induction false} PcmAppend(xs: seq<int>, x: int, width: nat)
    ensures PcmBytes(xs + [x], width) == PcmBytes(xs, width) + LittleEndian(x, width)
  {
    hide PcmBytes, LittleEndian;
    PcmFirst(xs + [x], width);
    PcmFirst(xs, width);
    if xs == [] {
      assert (xs + [x])[1..] == xs;
      Concatenated([], LittleEndian(x, width), []);
    } else {
      PcmAppend(xs[1..], x, width);
      assert (xs + [x])[1..] == xs[1..] + [x];
      Concatenated(LittleEndian(xs[0], width), PcmBytes(xs[1..], width), LittleEndian(x, width));
    }
  }

  lemma Concatenated(a: seq<byte>, b: seq<byte>, c: seq<byte>)
    ensures a + (b + c) == a + b + c && [] + b == b && b + [] == b
  {
  }

  lemma {:induction false} UnmixAppend(a: seq<int>, b: seq<int>, x: int, y: int, shift: nat, weight: nat)
    requires |a| == |b|
    ensures UnmixAll(a + [x], b + [y], shift, weight)
         == UnmixAll(a, b, shift, weight) + [Unmix(x, y, shift, weight).0, Unmix(x, y, shift, weight).1]
  {
    hide Unmix;
    if a == [] {
      assert a + [x] == [x] && b + [y] == [y];
    } else {
      UnmixAppend(a[1..], b[1..], x, y, shift, weight);
      assert (a + [x])[1..] == a[1..] + [x] && (b + [y])[1..] == b[1..] + [y];
    }
  }

  lemma {:induction false} UnmixAt(a: seq<int>, b: seq<int>, shift: nat, weight: nat, i: nat)
    requires |a| == |b| && i < |a|
    ensures UnmixAll(a, b, shift, weight)[2 * i] == Unmix(a[i], b[i], shift, weight).0
    ensures UnmixAll(a, b, shift, weight)[2 * i + 1] == Unmix(a[i], b[i], shift, weight).1
    decreases i
  {
    hide Unmix;
    if i == 0 {
    } else {
      UnmixAt(a[1..], b[1..], shift, weight, i - 1);
    }
  }

  /** Two channels side by side. */
  ghost function Interleaved(a: seq<int>, b: seq<int>): (r: seq<int>)
    requires |a| == |b|
    ensures |r| == 2 * |a|
  {
    UnmixAll(a, b, 0, 0)
  }

  lemma InterleavedAppend(a: seq<int>, b: seq<int>, x: int, y: int)
    requires |a| == |b|
    ensures Interleaved(a + [x], b + [y]) == Interleaved(a, b) + [x, y]
  {
    UnmixAppend(a, b, x, y, 0, 0);
  }

  lemma InterleavedPrefix(a: seq<int>, b: seq<int>, n: nat)
    requires |a| == |b| && n <= |a|
    ensures Interleaved(a, b)[..2 * n] == Interleaved(a[..n], b[..n])
  {
    hide UnmixAll;
    forall i | 0 <= i < 2 * n
      ensures Interleaved(a, b)[i] == Interleaved(a[..n], b[..n])[i]
    {
      UnmixAt(a, b, 0, 0, i / 2);
      UnmixAt(a[..n], b[..n], 0, 0, i / 2);
    }
  }

  lemma MergeAt(cfg: Config, high: seq<int>, low: seq<int>, lowBytes: nat, i: nat)
    requires i < |high| <= |low|
    ensures MergeAll(cfg, high, low, lowBytes)[i] == Merge(cfg, high[i], low[i], lowBytes)
  {
  }

  lemma MergePrefix(cfg: Config, high: seq<int>, low: seq<int>, low': seq<int>, lowBytes: nat)
    requires |high| <= |low| && |high| <= |low'| && low[..|high|] == low'[..|high|]
    ensures MergeAll(cfg, high, low, lowBytes) == MergeAll(cfg, high, low', lowBytes)
  {
    forall i | 0 <= i < |high|
      ensures low[i] == low'[i]
    {
      assert low[..|high|][i] == low'[..|high|][i];
    }
  }

  // ---------------------------------------------------------------------------------------------
  // Headers
  // ---------------------------------------------------------------------------------------------

  method ParseSubframeHeader(cfg: Config, reader: BitReader) returns (f: Subframe)
    requires reader.Valid() && reader.Position() == 3
    modifies reader
    ensures reader.Valid() && reader.Position() == f.next
    ensures f == ParseSubframe(cfg, Unpack(reader.buf))
  {
    hide Unpack, Value;
    var _ := reader.ReadBits(4);
    var _ := reader.ReadBits(12);
    var hasSize := reader.ReadBits(1);
    var lowBytes := reader.ReadBits(2);
    var isNotCompressed := reader.ReadBits(1);
    var samples := cfg.maxSamples;
    if hasSize != 0 {
      samples := reader.ReadBits(32);
    }
    f := Subframe(samples, lowBytes, isNotCompressed != 0, if hasSize != 0 then 55 else 23);
  }

  method ReadPredictorHeader(reader: BitReader) returns (h: ChannelHeader)
    requires reader.Valid()
    modifies reader
    ensures reader.Valid()
    ensures (h, reader.Position()) == ReadChannelHeader(Unpack(reader.buf), old(reader.Position()))
  {
    hide Unpack, Value, SignedWords;
    var _ := reader.ReadBits(4);
    var quant := reader.ReadBits(4);
    var ricemod := reader.ReadBits(3);
    var num := reader.ReadBits(5);
    var coefs := ReadCoefficients(reader, num);
    h := ChannelHeader(quant, ricemod, coefs);
  }

  method ReadCoefficients(reader: BitReader, num: nat) returns (coefs: seq<int>)
    requires reader.Valid()
    modifies reader
    ensures reader.Valid() && reader.Position() == old(reader.Position()) + 16 * num
    ensures coefs == SignedWords(Unpack(reader.buf), old(reader.Position()), num, 16)
  {
    hide Unpack, Value, Wrap, SignedWords;
    ghost var s, p := Unpack(reader.buf), reader.Position();
    coefs := [];
    for i := 0 to num
      invariant reader.Valid() && reader.Position() == p + 16 * i
      invariant coefs + SignedWords(s, reader.Position(), num - i, 16) == SignedWords(s, p, num, 16)
    {
      NextSignedWord(s, reader.Position(), num - i, 16);
      var v := reader.ReadBits(16);
      coefs := coefs + [Wrap(v, 16)];
    }
    NoSignedWords(s, reader.Position(), 16);
    assert coefs + [] == coefs;
  }

  lemma NextSignedWord(s: seq<bool>, p: nat, n: nat, w: nat)
    requires n > 0 && w >= 1
    ensures SignedWords(s, p, n, w) == [Wrap(Value(s, p, w), w)] + SignedWords(s, p + w, n - 1, w)
  {
  }

  lemma NoSignedWords(s: seq<bool>, p: nat, w: nat)
    requires w >= 1
    ensures SignedWords(s, p, 0, w) == []
  {
  }

  /** One little-endian sample, after the bytes already written. */
  method WriteSample(output: array<byte>, offset: nat, v: int, width: nat, ghost done: seq<byte>, ghost rest: seq<byte>)
    requires width == 2 || width == 3
    requires output[..] == done + rest && |done| == offset && |rest| >= width
    modifies output
    ensures output[..] == done + LittleEndian(v, width) + rest[width..]
  {
    LittleEndianBytes(v, width);
    output[offset] := v % 256;
    output[offset + 1] := v / 256 % 256;
    if width == 3 {
      output[offset + 2] := v / 0x1_0000 % 256;
    }
  }

  /** Sample `i` of `all`, after the samples before it. */
  method WriteNext(output: array<byte>, v: int, i: nat, width: nat, ghost all: seq<int>, ghost before: seq<byte>)
    requires width == 2 || width == 3
    requires i < |all| && v == all[i] && width * |all| <= |before|
    requires output[..] == Written(all, i, width, before)
    modifies output
    ensures output[..] == Written(all, i + 1, width, before)
  {
    hide LittleEndian;
    Distribute(i, 1, width);
    MulMonotone(i + 1, |all|, width);
    GrowOne(all, i, width, before);
    WriteSample(output, width * i, v, width, PcmBytes(all[..i], width), before[width * i..]);
  }

  /** The output when the first `i` samples are written over `before`. */
  ghost function Written(all: seq<int>, i: nat, width: nat, before: seq<byte>): (r: seq<byte>)
    requires i <= |all| && width * |all| <= |before|
  {
    MulMonotone(i, |all|, width);
    PcmBytes(all[..i], width) + before[width * i..]
  }

  lemma WrittenNone(all: seq<int>, width: nat, before: seq<byte>)
    requires width * |all| <= |before|
    ensures Written(all, 0, width, before) == before
  {
  }

  lemma WrittenAll(all: seq<int>, width: nat, before: seq<byte>)
    requires width * |all| <= |before|
    ensures Written(all, |all|, width, before) == PcmBytes(all, width) + before[width * |all|..]
  {
    assert all[..|all|] == all;
  }

  lemma GrowOne(all: seq<int>, i: nat, width: nat, before: seq<byte>)
    requires i < |all| && width * |all| <= |before|
    ensures width * i + width <= |before|
    ensures Written(all, i + 1, width, before)
         == PcmBytes(all[..i], width) + LittleEndian(all[i], width) + before[width * i..][width..]
  {
    hide PcmBytes, LittleEndian;
    Distribute(i, 1, width);
    MulMonotone(i + 1, |all|, width);
    assert all[..i + 1] == all[..i] + [all[i]];
    PcmAppend(all[..i], all[i], width);
    assert before[width * i..][width..] == before[width * (i + 1)..];
  }

  class Decoder {
    const cfg: Config
    const errorsA: array<int>
    const errorsB: array<int>
    const samplesA: array<int>
    const samplesB: array<int>
    const lowA: array<int>
    const lowB: array<int>

    ghost predicate Valid()
    {
      && cfg.Valid()
      && errorsA.Length == errorsB.Length == samplesA.Length == samplesB.Length == cfg.maxSamples
      && lowA.Length == lowB.Length == cfg.maxSamples
      && errorsA != errorsB && errorsA != samplesA && errorsA != samplesB && errorsA != lowA && errorsA != lowB
      && errorsB != samplesA && errorsB != samplesB && errorsB != lowA && errorsB != lowB
      && samplesA != samplesB && samplesA != lowA && samplesA != lowB
      && samplesB != lowA && samplesB != lowB
      && lowA != lowB
    }

    /** What the low-byte buffers hold from earlier frames. */
    ghost function Stale(): (r: seq<int>)
      requires Valid()
      reads lowA, lowB
      ensures |r| == 2 * cfg.maxSamples
    {
      Interleaved(lowA[..], lowB[..])
    }

    constructor (cfg: Config)
      requires cfg.Valid()
      ensures Valid() && this.cfg == cfg
      ensures fresh(errorsA) && fresh(errorsB) && fresh(samplesA) && fresh(samplesB) && fresh(lowA) && fresh(lowB)
    {
      this.cfg := cfg;
      errorsA := new int[cfg.maxSamples](_ => 0);
      errorsB := new int[cfg.maxSamples](_ => 0);
      samplesA := new int[cfg.maxSamples](_ => 0);
      samplesB := new int[cfg.maxSamples](_ => 0);
      lowA := new int[cfg.maxSamples](_ => 0);
      lowB := new int[cfg.maxSamples](_ => 0);
    }

    /** Rice decoding, then prediction, of one channel; `false` stands for the slice error of an oversized predictor. */
    method DecodeOne(reader: BitReader, channelB: bool, n: nat, size: nat, h: ChannelHeader) returns (ok: bool)
      requires Valid() && reader.Valid() && n <= cfg.maxSamples && 1 <= size <= 25
      requires |h.coefs| <= DELTA_MODE && ChannelInProfile(cfg, h)
      modifies reader, errorsA, errorsB, if channelB then samplesB else samplesA
      ensures reader.Valid() && ok == PredictorFits(h, n)
      ensures ok ==> (((if channelB then samplesB else samplesA)[..n], reader.Position())
                      == DecodeChannel(cfg, Unpack(reader.buf), old(reader.Position()), n, size, h))
    {
      hide Unpack, RiceDecode, FirDecode;
      var errors := if channelB then errorsB else errorsA;
      var out := if channelB then samplesB else samplesA;
      EntropyRiceDecode(reader, errors, n, size, RiceOf(cfg, h));
      ok := PredictorFits(h, n);
      if ok {
        ghost var residuals := errors[..n];
        var table := new int[32](i requires 0 <= i < 32 => Table(h)[i]);
        assert table[..] == Table(h);
        PredictorDecompress(FirOf(h, size), errors, out, n, table);
      }
    }

    /** One sample of a frame that is not compressed: one word, or a 16-bit word and the rest. */
    method ReadVerbatim(reader: BitReader) returns (v: int)
      requires Valid() && reader.Valid()
      modifies reader
      ensures reader.Valid() && reader.Position() == old(reader.Position()) + cfg.depth
      ensures v == Wrap(Value(Unpack(reader.buf), old(reader.Position()), cfg.depth), cfg.depth)
    {
      hide Unpack, Value, Wrap, SignExtend32, Pow2;
      ghost var s, p := Unpack(reader.buf), reader.Position();
      var word: nat;
      if cfg.depth <= 16 {
        word := reader.ReadBits(cfg.depth);
      } else {
        var high := reader.ReadBits(16);
        var low := reader.ReadBits(cfg.depth - 16);
        word := high * 256 + low;
        VerbatimWord(s, p);
      }
      WordFits(s, p, cfg.depth);
      v := SignExtend32(word, cfg.depth);
      SignExtendWord(word, cfg.depth);
    }

    method ReadVerbatimMono(reader: BitReader, n: nat)
      requires Valid() && reader.Valid() && n <= cfg.maxSamples
      modifies reader, samplesA
      ensures reader.Valid()
      ensures samplesA[..n] == SignedWords(Unpack(reader.buf), old(reader.Position()), n, cfg.depth)
    {
      hide Unpack, Value, Wrap, SignedWords;
      ghost var s, goal := Unpack(reader.buf), SignedWords(Unpack(reader.buf), reader.Position(), n, cfg.depth);
      for i := 0 to n
        invariant reader.Valid()
        invariant samplesA[..i] + SignedWords(s, reader.Position(), n - i, cfg.depth) == goal
      {
        ghost var done := samplesA[..i];
        NextSignedWord(s, reader.Position(), n - i, cfg.depth);
        samplesA[i] := ReadVerbatim(reader);
        assert samplesA[..i + 1] == done + [samplesA[i]];
      }
      NoSignedWords(s, reader.Position(), cfg.depth);
      assert samplesA[..n] + [] == samplesA[..n];
    }

    method ReadVerbatimStereo(reader: BitReader, n: nat)
      requires Valid() && reader.Valid() && n <= cfg.maxSamples
      modifies reader, samplesA, samplesB
      ensures reader.Valid()
      ensures Interleaved(samplesA[..n], samplesB[..n])
           == SignedWords(Unpack(reader.buf), old(reader.Position()), 2 * n, cfg.depth)
    {
      hide Unpack, Value, Wrap, UnmixAll;
      ghost var s, goal := Unpack(reader.buf), SignedWords(Unpack(reader.buf), reader.Position(), 2 * n, cfg.depth);
      InterleavedNone();
      for i := 0 to n
        invariant reader.Valid()
        invariant Interleaved(samplesA[..i], samplesB[..i])
                + SignedWords(s, reader.Position(), 2 * (n - i), cfg.depth) == goal
      {
        ghost var a, b := samplesA[..i], samplesB[..i];
        TwoSignedWords(s, reader.Position(), 2 * (n - i), cfg.depth);
        samplesA[i] := ReadVerbatim(reader);
        samplesB[i] := ReadVerbatim(reader);
        assert samplesA[..i + 1] == a + [samplesA[i]] && samplesB[..i + 1] == b + [samplesB[i]];
        InterleavedAppend(a, b, samplesA[i], samplesB[i]);
      }
      assert Interleaved(samplesA[..n], samplesB[..n]) + [] == Interleaved(samplesA[..n], samplesB[..n]);
    }

    method ReadLowMono(reader: BitReader, n: nat, width: nat)
      requires Valid() && reader.Valid() && n <= cfg.maxSamples && width <= 24
      modifies reader, lowA
      ensures reader.Valid() && reader.Position() == old(reader.Position()) + Span(width, n)
      ensures lowA[..n] == Words(Unpack(reader.buf), old(reader.Position()), n, width)
    {
      hide Unpack, Value, Span;
      ghost var s, p := Unpack(reader.buf), reader.Position();
      SpanStep(width, 0);
      for i := 0 to n
        invariant reader.Valid() && reader.Position() == p + Span(width, i)
        invariant lowA[..i] + Words(s, reader.Position(), n - i, width) == Words(s, p, n, width)
      {
        ghost var done := lowA[..i];
        lowA[i] := reader.ReadBits(width);
        assert lowA[..i + 1] == done + [lowA[i]];
        SpanStep(width, i);
      }
      assert lowA[..n] + [] == lowA[..n];
    }

    method ReadLowStereo(reader: BitReader, n: nat, width: nat)
      requires Valid() && reader.Valid() && n <= cfg.maxSamples && width <= 24
      modifies reader, lowA, lowB
      ensures reader.Valid() && reader.Position() == old(reader.Position()) + Span(width, 2 * n)
      ensures Interleaved(lowA[..n], lowB[..n]) == Words(Unpack(reader.buf), old(reader.Position()), 2 * n, width)
    {
      hide Unpack, Value, Words, Interleaved, Span;
      ghost var s, p := Unpack(reader.buf), reader.Position();
      SpanStep(width, 0);
      InterleavedNone();
      for i := 0 to n
        invariant reader.Valid() && reader.Position() == p + Span(width, 2 * i)
        invariant Interleaved(lowA[..i], lowB[..i]) + Words(s, reader.Position(), 2 * (n - i), width)
            == Words(s, p, 2 * n, width)
      {
        ghost var a, b := lowA[..i], lowB[..i];
        TwoWords(s, reader.Position(), 2 * (n - i), width);
        lowA[i] := reader.ReadBits(width);
        lowB[i] := reader.ReadBits(width);
        assert lowA[..i + 1] == a + [lowA[i]] && lowB[..i + 1] == b + [lowB[i]];
        InterleavedAppend(a, b, lowA[i], lowB[i]);
        SpanStep(width, 2 * i);
        SpanStep(width, 2 * i + 1);
      }
      NoWords(s, reader.Position(), width);
      assert Interleaved(lowA[..n], lowB[..n]) + [] == Interleaved(lowA[..n], lowB[..n]);
    }

    method WriteMono16(output: array<byte>, n: nat)
      requires Valid() && n <= cfg.maxSamples && 2 * n <= output.Length
      modifies output
      ensures output[..] == PcmBytes(samplesA[..n], 2) + old(output[..])[2 * n..]
    {
      hide PcmBytes, Written;
      ghost var all, before := samplesA[..n], output[..];
      WrittenNone(all, 2, before);
      for i := 0 to n
        invariant samplesA[..n] == all
        invariant output[..] == Written(all, i, 2, before)
      {
        WriteNext(output, samplesA[i], i, 2, all, before);
      }
      WrittenAll(all, 2, before);
    }

    method WriteMono24(output: array<byte>, n: nat, lowBytes: nat)
      requires Valid() && n <= cfg.maxSamples && 3 * n <= output.Length
      modifies output
      ensures output[..] == PcmBytes(MergeAll(cfg, samplesA[..n], lowA[..n], lowBytes), 3) + old(output[..])[3 * n..]
    {
      hide PcmBytes, Written, Merge, MergeAll;
      ghost var a, low, before := samplesA[..n], lowA[..n], output[..];
      ghost var all := MergeAll(cfg, a, low, lowBytes);
      WrittenNone(all, 3, before);
      for i := 0 to n
        invariant samplesA[..n] == a && lowA[..n] == low
        invariant output[..] == Written(all, i, 3, before)
      {
        MergeAt(cfg, a, low, lowBytes, i);
        WriteNext(output, Merge(cfg, samplesA[i], lowA[i], lowBytes), i, 3, all, before);
      }
      WrittenAll(all, 3, before);
    }

    method Deinterlace16(output: array<byte>, n: nat, shift: nat, weight: nat)
      requires Valid() && n <= cfg.maxSamples && 4 * n <= output.Length
      modifies output
      ensures output[..]
           == PcmBytes(UnmixAll(samplesA[..n], samplesB[..n], shift, weight), 2) + old(output[..])[4 * n..]
    {
      hide PcmBytes, Written, UnmixAll, Unmix;
      ghost var a, b, before := samplesA[..n], samplesB[..n], output[..];
      ghost var all := UnmixAll(a, b, shift, weight);
      WrittenNone(all, 2, before);
      for i := 0 to n
        invariant samplesA[..n] == a && samplesB[..n] == b
        invariant output[..] == Written(all, 2 * i, 2, before)
      {
        UnmixAt(a, b, shift, weight, i);
        var (left, right) := Unmix(samplesA[i], samplesB[i], shift, weight);
        WriteNext(output, left, 2 * i, 2, all, before);
        WriteNext(output, right, 2 * i + 1, 2, all, before);
      }
      WrittenAll(all, 2, before);
    }

    method Deinterlace24(output: array<byte>, n: nat, shift: nat, weight: nat, lowBytes: nat)
      requires Valid() && n <= cfg.maxSamples && 6 * n <= output.Length
      modifies output
      ensures output[..]
           == PcmBytes(MergeAll(cfg, UnmixAll(samplesA[..n], samplesB[..n], shift, weight),
                                Interleaved(lowA[..n], lowB[..n]), lowBytes), 3) + old(output[..])[6 * n..]
    {
      hide PcmBytes, Written, UnmixAll, Unmix, Merge, MergeAll;
      ghost var a, b, before := samplesA[..n], samplesB[..n], output[..];
      ghost var la, lb := lowA[..n], lowB[..n];
      ghost var mixed, low := UnmixAll(a, b, shift, weight), Interleaved(la, lb);
      ghost var all := MergeAll(cfg, mixed, low, lowBytes);
      WrittenNone(all, 3, before);
      for i := 0 to n
        invariant samplesA[..n] == a && samplesB[..n] == b && lowA[..n] == la && lowB[..n] == lb
        invariant output[..] == Written(all, 2 * i, 3, before)
      {
        UnmixAt(a, b, shift, weight, i);
        UnmixAt(la, lb, 0, 0, i);
        NoMix(lowA[i], lowB[i]);
        MergeAt(cfg, mixed, low, lowBytes, 2 * i);
        MergeAt(cfg, mixed, low, lowBytes, 2 * i + 1);
        var (left, right) := Unmix(samplesA[i], samplesB[i], shift, weight);
        WriteNext(output, Merge(cfg, left, lowA[i], lowBytes), 2 * i, 3, all, before);
        WriteNext(output, Merge(cfg, right, lowB[i], lowBytes), 2 * i + 1, 3, all, before);
      }
      WrittenAll(all, 3, before);
    }

    /** The compressed samples of a mono frame; `false` when the predictor does not fit the block. */
    method FillMono(reader: BitReader, f: Subframe) returns (ok: bool)
      requires Valid() && reader.Valid() && reader.Position() == f.next && !f.verbatim
      requires f.samples <= cfg.maxSamples && 8 * f.lowBytes <= cfg.depth
      requires MonoInProfile(cfg, Unpack(reader.buf), f)
      modifies reader, errorsA, errorsB, samplesA, lowA
      ensures var all := MonoSamples(cfg, Unpack(reader.buf), f);
              if ok then MergeAll(cfg, samplesA[..f.samples], lowA[..f.samples], f.lowBytes) == all else all == []
    {
      hide Unpack, Value, ReadChannelHeader, DecodeChannel, Words, MergeAll, ChannelInProfile, Span;
      ghost var s := Unpack(reader.buf);
      var _ := reader.ReadBits(8);
      var _ := reader.ReadBits(8);
      var h := ReadPredictorHeader(reader);
      ghost var p := reader.Position();
      if f.lowBytes > 0 {
        ReadLowMono(reader, f.samples, 8 * f.lowBytes);
      } else {
        NoSpan(f.samples);
      }
      ok := DecodeOne(reader, false, f.samples, MonoSize(cfg, f), h);
      if ok && f.lowBytes == 0 {
        NoMerge(cfg, samplesA[..f.samples], lowA[..f.samples]);
        NoMerge(cfg, samplesA[..f.samples], Words(s, p, f.samples, 0));
      }
    }

    /** A mono frame after its header. */
    method DecodeMono(reader: BitReader, output: array<byte>, f: Subframe) returns (n: nat)
      requires Valid() && reader.Valid() && reader.Position() == f.next
      requires f.samples <= cfg.maxSamples && 8 * f.lowBytes <= cfg.depth
      requires MonoInProfile(cfg, Unpack(reader.buf), f)
      requires f.samples * (cfg.depth / 8) <= output.Length
      modifies reader, errorsA, errorsB, samplesA, lowA, output
      ensures n <= output.Length
      ensures output[..n] == PcmBytes(MonoSamples(cfg, Unpack(reader.buf), f), cfg.depth / 8)
      ensures output[n..] == old(output[n..])
    {
      hide Unpack, Value, ReadChannelHeader, DecodeChannel, Words, SignedWords, PcmBytes, MergeAll, ChannelInProfile,
        Span, MonoInProfile;
      var lowBytes := f.lowBytes;
      if f.verbatim {
        lowBytes := 0;
        ReadVerbatimMono(reader, f.samples);
        NoMerge(cfg, samplesA[..f.samples], lowA[..f.samples]);
      } else {
        var ok := FillMono(reader, f);
        if !ok {
          PcmNone(cfg.depth / 8);
          return 0;
        }
      }
      if cfg.depth == 16 {
        NarrowMerge(cfg, samplesA[..f.samples], lowA[..f.samples], lowBytes);
        WriteMono16(output, f.samples);
        n := 2 * f.samples;
      } else {
        WriteMono24(output, f.samples, lowBytes);
        n := 3 * f.samples;
      }
    }

    /** The compressed samples of a stereo frame, still mixed; both headers come before either channel. */
    method FillStereo(reader: BitReader, f: Subframe, ghost stale: seq<int>) returns (ok: bool, shift: nat, weight: nat)
      requires Valid() && reader.Valid() && reader.Position() == f.next && !f.verbatim
      requires f.samples <= cfg.maxSamples && 8 * f.lowBytes <= cfg.depth
      requires StereoInProfile(cfg, Unpack(reader.buf), f) && |stale| >= 2 * f.samples
      modifies reader, errorsA, errorsB, samplesA, samplesB, lowA, lowB
      ensures var n, all := f.samples, StereoSamples(cfg, Unpack(reader.buf), f, stale);
              if !ok then all == [] else
              MergeAll(cfg, UnmixAll(samplesA[..n], samplesB[..n], shift, weight),
                       Interleaved(lowA[..n], lowB[..n]), f.lowBytes) == all
    {
      hide Unpack, Value, ReadChannelHeader, DecodeChannel, Words, MergeAll, ChannelInProfile, Span, UnmixAll,
        Interleaved;
      ghost var s := Unpack(reader.buf);
      shift := reader.ReadBits(8);
      weight := reader.ReadBits(8);
      var ha := ReadPredictorHeader(reader);
      var hb := ReadPredictorHeader(reader);
      ghost var q := reader.Position();
      if f.lowBytes > 0 {
        ReadLowStereo(reader, f.samples, 8 * f.lowBytes);
      } else {
        NoSpan(2 * f.samples);
      }
      ok := DecodeOne(reader, false, f.samples, StereoSize(cfg, f), ha);
      if ok {
        ok := DecodeOne(reader, true, f.samples, StereoSize(cfg, f), hb);
      }
      if ok && f.lowBytes == 0 {
        ghost var mixed := UnmixAll(samplesA[..f.samples], samplesB[..f.samples], shift, weight);
        NoMerge(cfg, mixed, Interleaved(lowA[..f.samples], lowB[..f.samples]));
        NoMerge(cfg, mixed, Words(s, q, 2 * f.samples, 0));
      }
    }

    /** A stereo frame after its header. */
    method DecodeStereo(reader: BitReader, output: array<byte>, f: Subframe) returns (n: nat)
      requires Valid() && reader.Valid() && reader.Position() == f.next
      requires f.samples <= cfg.maxSamples && 8 * f.lowBytes <= cfg.depth
      requires StereoInProfile(cfg, Unpack(reader.buf), f)
      requires f.samples * (2 * (cfg.depth / 8)) <= output.Length
      modifies reader, errorsA, errorsB, samplesA, samplesB, lowA, lowB, output
      ensures n <= output.Length
      ensures output[..n] == PcmBytes(StereoSamples(cfg, Unpack(reader.buf), f, old(Stale())), cfg.depth / 8)
      ensures output[n..] == old(output[n..])
    {
      hide Unpack, Value, ReadChannelHeader, DecodeChannel, Words, SignedWords, PcmBytes, MergeAll, ChannelInProfile,
        Span, StereoInProfile, UnmixAll;
      ghost var k, stale := f.samples, Stale();
      var shift, weight := 0, 0;
      if f.verbatim {
        InterleavedPrefix(lowA[..], lowB[..], k);
        assert lowA[..][..k] == lowA[..k] && lowB[..][..k] == lowB[..k];
        ReadVerbatimStereo(reader, f.samples);
        MergePrefix(cfg, Interleaved(samplesA[..k], samplesB[..k]), Interleaved(lowA[..k], lowB[..k]), stale,
                    f.lowBytes);
      } else {
        var ok;
        ok, shift, weight := FillStereo(reader, f, stale);
        if !ok {
          PcmNone(cfg.depth / 8);
          return 0;
        }
      }
      if cfg.depth == 16 {
        NarrowMerge(cfg, UnmixAll(samplesA[..k], samplesB[..k], shift, weight), Interleaved(lowA[..k], lowB[..k]),
                    f.lowBytes);
        Deinterlace16(output, f.samples, shift, weight);
        n := 4 * f.samples;
      } else {
        Deinterlace24(output, f.samples, shift, weight, f.lowBytes);
        n := 6 * f.samples;
      }
    }

    /**
     * One frame: the number of bytes written, with the rest of the output left alone. A frame that makes the decoder
     * index out of range counts as refused, as it does behind the callers' panic guard.
     */
    method DecodeInto(input: seq<byte>, output: array<byte>) returns (n: nat)
      requires Valid()
      requires Accepted(cfg, Unpack(input), output.Length) ==> InProfile(cfg, Unpack(input))
      modifies errorsA, errorsB, samplesA, samplesB, lowA, lowB, output
      ensures n <= output.Length
      ensures output[..n] == DecodeFrame(cfg, Unpack(input), output.Length, old(Stale()))
      ensures output[n..] == old(output[n..])
    {
      hide Unpack, Value, ParseSubframe, PcmBytes, MonoSamples, StereoSamples, DecodeFrame, Accepted, InProfile,
        MonoInProfile, StereoInProfile, Interleaved;
      ghost var s, stale := Unpack(input), Stale();
      FrameCases(cfg, s, output.Length, stale);
      n := 0;
      if cfg.maxSamples == 0 {
        return;
      }
      var reader := new BitReader(input);
      var channels := reader.ReadBits(3);
      if output.Length < cfg.maxSamples * cfg.BytesPerSample() || channels != cfg.channels - 1 {
        return;
      }
      var f := ParseSubframeHeader(cfg, reader);
      if f.samples > cfg.maxSamples || f.samples * cfg.BytesPerSample() > output.Length || f.samples == 0 {
        return;
      }
      if 8 * f.lowBytes > cfg.depth {
        return;
      }
      if cfg.channels == 1 {
        n := DecodeMono(reader, output, f);
      } else {
        n := DecodeStereo(reader, output, f);
      }
    }
  }

  /** Decoding a frame, by cases. */
  lemma FrameCases(cfg: Config, s: seq<bool>, outLen: nat, stale: seq<int>)
    requires cfg.Valid() && |stale| == 2 * cfg.maxSamples
    requires Accepted(cfg, s, outLen) ==> InProfile(cfg, s)
    ensures Accepted(cfg, s, outLen) <==>
              var f := ParseSubframe(cfg, s);
              && cfg.maxSamples > 0 && outLen >= cfg.maxSamples * cfg.BytesPerSample()
              && Value(s, 0, 3) == cfg.channels - 1
              && 0 < f.samples <= cfg.maxSamples && f.samples * cfg.BytesPerSample() <= outLen
              && 8 * f.lowBytes <= cfg.depth
    ensures !Accepted(cfg, s, outLen) ==> DecodeFrame(cfg, s, outLen, stale) == []
    ensures Accepted(cfg, s, outLen) && cfg.channels == 1 ==>
              var f := ParseSubframe(cfg, s);
              && MonoInProfile(cfg, s, f) && f.samples * (cfg.depth / 8) <= outLen
              && DecodeFrame(cfg, s, outLen, stale) == PcmBytes(MonoSamples(cfg, s, f), cfg.depth / 8)
    ensures Accepted(cfg, s, outLen) && cfg.channels == 2 ==>
              var f := ParseSubframe(cfg, s);
              && StereoInProfile(cfg, s, f) && f.samples * (2 * (cfg.depth / 8)) <= outLen
              && DecodeFrame(cfg, s, outLen, stale) == PcmBytes(StereoSamples(cfg, s, f, stale), cfg.depth / 8)
  {
    hide Value, ParseSubframe, PcmBytes, MonoInProfile, StereoInProfile, MonoSamples, StereoSamples;
  }

  lemma NoSpan(n: nat)
    ensures Span(0, n) == 0
  {
  }

  /** The 16-bit output never looks at the low bytes. */
  lemma NarrowMerge(cfg: Config, high: seq<int>, low: seq<int>, lowBytes: nat)
    requires cfg.depth == 16 && |high| <= |low|
    ensures MergeAll(cfg, high, low, lowBytes) == high
  {
  }

  lemma NoMix(a: int, b: int)
    ensures Unmix(a, b, 0, 0) == (a, b)
  {
  }

  lemma PcmNone(width: nat)
    ensures PcmBytes([], width) == []
  {
  }

  lemma InterleavedNone()
    ensures Interleaved([], []) == []
  {
  }

  lemma SpanStep(w: nat, n: nat)
    ensures Span(w, 0) == 0 && Span(w, n + 1) == Span(w, n) + w
  {
  }

  lemma NoWords(s: seq<bool>, p: nat, w: nat)
    ensures Words(s, p, 0, w) == []
  {
  }

  lemma TwoWords(s: seq<bool>, p: nat, n: nat, w: nat)
    requires n >= 2
    ensures Words(s, p, n, w) == [Value(s, p, w), Value(s, p + w, w)] + Words(s, p + w + w, n - 2, w)
  {
  }

  lemma TwoSignedWords(s: seq<bool>, p: nat, n: nat, w: nat)
    requires n >= 2 && w >= 1
    ensures SignedWords(s, p, n, w)
         == [Wrap(Value(s, p, w), w), Wrap(Value(s, p + w, w), w)] + SignedWords(s, p + w + w, n - 2, w)
  {
    hide Wrap, Value;
  }

  lemma VerbatimWord(s: seq<bool>, p: nat)
    ensures Value(s, p, 16) * 256 + Value(s, p + 16, 8) == Value(s, p, 24)
  {
    hide Value;
    assert Pow2(8) == 256 by { Pow2Small(); }
    ValueConcat(s, p, 16, 8);
  }

  lemma WordFits(s: seq<bool>, p: nat, n: nat)
    requires n <= 24
    ensures Value(s, p, n) < 0x8000_0000
  {
    hide Value;
    ValueBound(s, p, n);
    Pow2Monotone(n, 24);
    Pow2Large();
  }

  lemma SignExtendWord(v: nat, bits: nat)
    requires v < 0x8000_0000 && 1 <= bits <= 32
    ensures SignExtend32(v, bits) == Wrap(v, bits)
  {
    hide Wrap, SignExtend32;
    assert Signed(v, 32) by {
      Pow2Large();
      assert Pow2(32) == 2 * Pow2(31);
    }
    WrapUnique(v, 0, 32);
    SignExtendWraps(v, bits);
  }
}
