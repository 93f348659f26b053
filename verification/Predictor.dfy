/**
 * The sign-adaptive FIR predictor of the ALAC decoder. Its coefficients move with every residual, so it is
 * modelled as a step that sees the samples so far; the inverse step sees the same samples and moves the same way.
 */
module Predictor {
  import opened Powers
  import opened Rice

  // ---------------------------------------------------------------------------------------------
  // Two's complement
  // ---------------------------------------------------------------------------------------------

  /** The number nearest zero that differs from `x` by a multiple of `m`, when `m` is twice `h`. */
  function Centred(x: int, h: nat, m: nat): int
    requires m > 0
  {
    (x + h) % m - h
  }

  /** The low `bits` bits of `x`, read as a signed number. */
  function Wrap(x: int, bits: nat): (r: int)
    requires bits >= 1
    ensures Signed(r, bits)
  {
    Centred(x, Pow2(bits - 1), Pow2(bits))
  }

  /** A 32-bit left shift followed by an arithmetic right shift. */
  function SignExtend32(v: int, bits: nat): int
    requires 1 <= bits <= 32
  {
    Wrap(v * Pow2(32 - bits), 32) / Pow2(32 - bits)
  }

  lemma WrapAt(y: int, k: int, h: nat, m: nat)
    requires m == 2 * h && 0 <= y + h < m
    ensures Centred(k * m + y, h, m) == y
  {
    SplitAt(k, y + h, m);
    assert k * m + y + h == k * m + (y + h);
  }

  lemma WrapUnique(y: int, k: int, bits: nat)
    requires bits >= 1 && Signed(y, bits)
    ensures Wrap(k * Pow2(bits) + y, bits) == y
  {
    hide Centred;
    WrapAt(y, k, Pow2(bits - 1), Pow2(bits));
  }

  lemma WrapMultiple(x: int, bits: nat) returns (k: int)
    requires bits >= 1
    ensures x == k * Pow2(bits) + Wrap(x, bits)
  {
    k := (x + Pow2(bits - 1)) / Pow2(bits);
  }

  /** Wrapping a difference loses nothing that adding it back does not restore. */
  lemma WrapAdd(a: int, b: int, bits: nat)
    requires bits >= 1 && Signed(a + b, bits)
    ensures Wrap(a + Wrap(b, bits), bits) == a + b
  {
    var k := WrapMultiple(b, bits);
    assert a + Wrap(b, bits) == (0 - k) * Pow2(bits) + (a + b);
    WrapUnique(a + b, 0 - k, bits);
  }

  lemma SignedScale(y: int, bits: nat)
    requires 1 <= bits <= 32 && Signed(y, bits)
    ensures Signed(y * Pow2(32 - bits), 32)
  {
    hide Pow2;
    Pow2Add(bits - 1, 32 - bits);
    MulMonotone(-Pow2(bits - 1), y, Pow2(32 - bits));
    MulMonotone(y + 1, Pow2(bits - 1), Pow2(32 - bits));
    Distribute(y, 1, Pow2(32 - bits));
  }

  /** Truncating to 32 bits and sign-extending `bits` of them is wrapping to `bits`. */
  lemma SignExtendWraps(x: int, bits: nat)
    requires 1 <= bits <= 32
    ensures SignExtend32(Wrap(x, 32), bits) == Wrap(x, bits)
  {
    hide Pow2, Wrap, Signed;
    var s, y := Pow2(32 - bits), Wrap(x, bits);
    var k := WrapMultiple(x, bits);
    var j := WrapMultiple(x, 32);
    Pow2Add(bits, 32 - bits);
    assert Wrap(x, 32) * s == (k - j * s) * Pow2(32) + y * s by {
      ScaleBoth(k, j, y, Pow2(bits), s, Pow2(32));
    }
    SignedScale(y, bits);
    WrapUnique(y * s, k - j * s, 32);
    SplitAt(y, 0, s);
  }

  lemma ScaleBoth(k: int, j: int, y: int, m: int, s: int, w: int)
    requires w == m * s
    ensures (k * m + y - j * w) * s == (k - j * s) * w + y * s
  {
    Associate(k, m, s);
    Associate(j, s, w);
    assert (j * w) * s == (j * s) * w;
  }

  // ---------------------------------------------------------------------------------------------
  // One step of the predictor
  // ---------------------------------------------------------------------------------------------

  const DELTA_MODE: nat := 0x1f

  /** The predictor's settings: coefficient count, quantisation and sample width. */
  datatype Fir = Fir(num: nat, quant: nat, size: nat)
  {
    predicate Valid()
    {
      num <= DELTA_MODE && 1 <= size <= 32
    }
  }

  function SignOnly(v: int): int
  {
    if v < 0 then -1 else if v > 0 then 1 else 0
  }

  /** The oldest sample of the window that `num` coefficients look at. */
  function Base(out: seq<int>, num: nat): int
    requires num < |out|
  {
    out[|out| - 1 - num]
  }

  /** The first `j` terms of the weighted sum of the window, relative to its base. */
  function Weighted(out: seq<int>, coefs: seq<int>, num: nat, j: nat): int
    requires j <= num < |out| && num <= |coefs|
  {
    if j == 0 then 0 else
    Weighted(out, coefs, num, j - 1) + (out[|out| - j] - Base(out, num)) * coefs[j - 1]
  }

  function Rounding(quant: nat): int
  {
    if quant == 0 then 0 else Pow2(quant - 1)
  }

  function Predict(f: Fir, out: seq<int>, coefs: seq<int>): int
    requires f.num < |out| && f.num <= |coefs|
  {
    (Rounding(f.quant) + Weighted(out, coefs, f.num, f.num)) / Pow2(f.quant) + Base(out, f.num)
  }

  /** The coefficient update, from coefficient `m - 1` down, while the remaining error keeps its direction. */
  function Adapt(f: Fir, out: seq<int>, coefs: seq<int>, m: nat, error: int, dir: int): (r: seq<int>)
    requires m <= f.num < |out| && f.num <= |coefs|
    ensures |r| == |coefs|
    decreases m
  {
    if m == 0 || error * dir <= 0 then coefs else
    var val := Base(out, f.num) - out[|out| - m];
    var sign := dir * SignOnly(val);
    var moved := coefs[m - 1 := Wrap(coefs[m - 1] - sign, 16)];
    Adapt(f, out, moved, m - 1, error - val * sign / Pow2(f.quant) * (f.num - m + 1), dir)
  }

  function Adapted(f: Fir, out: seq<int>, coefs: seq<int>, error: int): (r: seq<int>)
    requires f.num < |out| && f.num <= |coefs|
    ensures |r| == |coefs|
  {
    if error == 0 then coefs else Adapt(f, out, coefs, f.num, error, SignOnly(error))
  }

  /** The first sample, and every sample when there is no coefficient, is its residual. */
  predicate Verbatim(f: Fir, out: seq<int>)
  {
    out == [] || f.num == 0
  }

  /** The warm-up samples, and every sample in delta mode, are predicted by the sample before. */
  predicate Delta(f: Fir, out: seq<int>)
  {
    f.num == DELTA_MODE || |out| <= f.num
  }

  function Prediction(f: Fir, out: seq<int>, coefs: seq<int>): int
    requires !Verbatim(f, out) && f.num <= |coefs|
  {
    if Delta(f, out) then out[|out| - 1] else Predict(f, out, coefs)
  }

  function Sample(f: Fir, out: seq<int>, coefs: seq<int>, error: int): int
    requires f.Valid() && f.num <= |coefs|
  {
    if Verbatim(f, out) then error else Wrap(Prediction(f, out, coefs) + error, f.size)
  }

  function Residual(f: Fir, out: seq<int>, coefs: seq<int>, sample: int): int
    requires f.Valid() && f.num <= |coefs|
  {
    if Verbatim(f, out) then sample else Wrap(sample - Prediction(f, out, coefs), f.size)
  }

  function NextCoefs(f: Fir, out: seq<int>, coefs: seq<int>, error: int): (r: seq<int>)
    requires f.num <= |coefs|
    ensures |r| == |coefs|
  {
    if Verbatim(f, out) || Delta(f, out) then coefs else Adapted(f, out, coefs, error)
  }

  /** One residual undoes one sample and the other way round, whatever the samples so far. */
  lemma StepInverse(f: Fir, out: seq<int>, coefs: seq<int>, v: int)
    requires f.Valid() && f.num <= |coefs| && Signed(v, f.size)
    ensures Sample(f, out, coefs, Residual(f, out, coefs, v)) == v
    ensures Residual(f, out, coefs, Sample(f, out, coefs, v)) == v
    ensures Signed(Residual(f, out, coefs, v), f.size) && Signed(Sample(f, out, coefs, v), f.size)
  {
    hide Predict, Wrap;
    if !Verbatim(f, out) {
      var p := Prediction(f, out, coefs);
      assert p + (v - p) == v;
      WrapAdd(p, v - p, f.size);
      assert -p + (p + v) == v;
      WrapAdd(-p, p + v, f.size);
    }
  }

  // ---------------------------------------------------------------------------------------------
  // A block
  // ---------------------------------------------------------------------------------------------

  /** The samples that `errors` add to the samples `out`. */
  function FirDecode(f: Fir, out: seq<int>, coefs: seq<int>, errors: seq<int>): (r: seq<int>)
    requires f.Valid() && f.num <= |coefs|
    ensures |r| == |out| + |errors|
    decreases |errors|
  {
    if errors == [] then out else
    FirDecode(f, out + [Sample(f, out, coefs, errors[0])], NextCoefs(f, out, coefs, errors[0]), errors[1..])
  }

  lemma SampleModerate(f: Fir, out: seq<int>, coefs: seq<int>, error: int)
    requires f.Valid() && f.num <= |coefs| && f.size <= 25 && Moderate(error)
    ensures Moderate(Sample(f, out, coefs, error))
  {
    hide Prediction;
    Pow2Monotone(f.size - 1, 24);
    Pow2Large();
  }

  /** Samples are no larger than the residuals allow. */
  lemma {:induction false} SamplesModerate(f: Fir, out: seq<int>, coefs: seq<int>, errors: seq<int>)
    requires f.Valid() && f.num <= |coefs| && f.size <= 25 && AllModerate(out) && AllModerate(errors)
    ensures AllModerate(FirDecode(f, out, coefs, errors))
    decreases |errors|
  {
    hide Prediction, Adapted;
    if errors == [] {
    } else {
      SampleModerate(f, out, coefs, errors[0]);
      SamplesModerate(f, out + [Sample(f, out, coefs, errors[0])], NextCoefs(f, out, coefs, errors[0]), errors[1..]);
    }
  }

  /** Whether every 32-bit step of a coefficient update fits. */
  predicate AdaptFits(f: Fir, out: seq<int>, m: nat, error: int, dir: int)
    requires m <= f.num < |out|
    decreases m
  {
    m == 0 || error * dir <= 0 ||
    var val := Base(out, f.num) - out[|out| - m];
    var sign := dir * SignOnly(val);
    var step := val * sign / Pow2(f.quant) * (f.num - m + 1);
    && FitsInt32(val) && FitsInt32(val * sign) && FitsInt32(step) && FitsInt32(error - step)
    && AdaptFits(f, out, m - 1, error - step, dir)
  }

  /** One step: the size of a difference, shifted and multiplied by at most 31. */
  lemma AdaptStepFits(val: int, error: int, quant: nat, k: nat, dir: int)
    requires -0x200_0000 <= val <= 0x200_0000 && Moderate(error) && k <= 31 && (dir == 1 || dir == -1)
    requires error * dir > 0
    ensures var sign := dir * SignOnly(val); var step := val * sign / Pow2(quant) * k;
            && FitsInt32(val * sign) && FitsInt32(step) && FitsInt32(error - step)
            && ((error - step) * dir > 0 ==> Moderate(error - step))
  {
    var size := if val < 0 then 0 - val else val;
    var sign := dir * SignOnly(val);
    assert val * sign == dir * size;
    QuotientSize(dir * size, Pow2(quant), dir);
    var q := val * sign / Pow2(quant);
    MulMonotone(q, 0x200_0000, k);
    MulMonotone(0 - 0x200_0000, q, k);
    MulMonotone(if dir == 1 then 0 else q, if dir == 1 then q else 0, k);
  }

  lemma QuotientSize(x: int, m: int, dir: int)
    requires m >= 1 && -0x200_0000 <= x <= 0x200_0000 && (if dir == 1 then x >= 0 else x <= 0)
    ensures -0x200_0000 <= x / m <= 0x200_0000 && (if dir == 1 then x / m >= 0 else x / m <= 0)
  {
    var q := x / m;
    assert x == q * m + x % m;
    if q >= 1 {
      MulMonotone(1, m, q);
    } else if q <= -1 {
      MulMonotone(1, m, 0 - q - 1);
      assert q * m == 0 - (0 - q - 1) * m - m;
    }
  }

  /** No step of a coefficient update overflows, for any samples and residual a frame can decode to. */
  lemma {:induction false} AdaptAlwaysFits(f: Fir, out: seq<int>, m: nat, error: int, dir: int)
    requires m <= f.num < |out| && f.num <= DELTA_MODE && AllModerate(out) && Moderate(error) && (dir == 1 || dir == -1)
    ensures AdaptFits(f, out, m, error, dir)
    decreases m
  {
    hide SignOnly, Pow2;
    if m == 0 || error * dir <= 0 {
    } else {
      var val := Base(out, f.num) - out[|out| - m];
      AdaptStepFits(val, error, f.quant, f.num - m + 1, dir);
      var step := val * (dir * SignOnly(val)) / Pow2(f.quant) * (f.num - m + 1);
      if (error - step) * dir > 0 {
        AdaptAlwaysFits(f, out, m - 1, error - step, dir);
      }
    }
  }

  /** Whether every difference over the window of a prediction fits 32 bits. */
  predicate WindowFits(f: Fir, out: seq<int>)
    requires f.num < |out|
  {
    forall i :: |out| - f.num <= i < |out| ==> FitsInt32(out[i] - Base(out, f.num))
  }

  /** Whether every 32-bit step fits, along the whole block that `errors` add to the samples `out`. */
  predicate StepsFit(f: Fir, out: seq<int>, coefs: seq<int>, errors: seq<int>)
    requires f.Valid() && f.num <= |coefs|
    decreases |errors|
  {
    errors == [] ||
    (&& (Verbatim(f, out) || Delta(f, out) ||
         (WindowFits(f, out) && (errors[0] == 0 || AdaptFits(f, out, f.num, errors[0], SignOnly(errors[0])))))
     && StepsFit(f, out + [Sample(f, out, coefs, errors[0])], NextCoefs(f, out, coefs, errors[0]), errors[1..]))
  }

  /** Moderate residuals after moderate samples: every step fits and every sample is moderate. */
  lemma {:induction false} BlockFits(f: Fir, out: seq<int>, coefs: seq<int>, errors: seq<int>)
    requires f.Valid() && f.num <= |coefs| && f.size <= 25 && AllModerate(out) && AllModerate(errors)
    ensures StepsFit(f, out, coefs, errors)
    decreases |errors|
  {
    hide Prediction, Adapted, AdaptFits, FirDecode;
    if errors == [] {
    } else {
      var next := out + [Sample(f, out, coefs, errors[0])];
      if !Verbatim(f, out) && !Delta(f, out) && errors[0] != 0 {
        AdaptAlwaysFits(f, out, f.num, errors[0], SignOnly(errors[0]));
      }
      SampleModerate(f, out, coefs, errors[0]);
      BlockFits(f, next, NextCoefs(f, out, coefs, errors[0]), errors[1..]);
    }
  }

  /** The residuals of `samples` after the samples `out`, with the coefficients in lockstep. */
  function FirEncode(f: Fir, out: seq<int>, coefs: seq<int>, samples: seq<int>): (r: seq<int>)
    requires f.Valid() && f.num <= |coefs|
    ensures |r| == |samples|
    decreases |samples|
  {
    if samples == [] then [] else
    var e := Residual(f, out, coefs, samples[0]);
    [e] + FirEncode(f, out + [samples[0]], NextCoefs(f, out, coefs, e), samples[1..])
  }

  /** Every block of samples comes back from its residuals, and the residuals fit the same width. */
  lemma {:induction false} FirRoundTrip(f: Fir, out: seq<int>, coefs: seq<int>, samples: seq<int>)
    requires f.Valid() && f.num <= |coefs| && AllSigned(samples, f.size)
    ensures FirDecode(f, out, coefs, FirEncode(f, out, coefs, samples)) == out + samples
    ensures AllSigned(FirEncode(f, out, coefs, samples), f.size)
    decreases |samples|
  {
    hide Residual, Sample, NextCoefs, Signed;
    if samples == [] {
      assert out + samples == out;
    } else {
      var e := Residual(f, out, coefs, samples[0]);
      StepInverse(f, out, coefs, samples[0]);
      var next, coefs' := out + [samples[0]], NextCoefs(f, out, coefs, e);
      FirRoundTrip(f, next, coefs', samples[1..]);
      var rest := FirEncode(f, next, coefs', samples[1..]);
      assert ([e] + rest)[1..] == rest;
      assert next + samples[1..] == out + samples;
    }
  }

  /** No two residual blocks give the same samples: encoding what was decoded returns the residuals. */
  lemma {:induction false} FirUnique(f: Fir, out: seq<int>, coefs: seq<int>, errors: seq<int>)
    requires f.Valid() && f.num <= |coefs| && AllSigned(errors, f.size)
    ensures FirDecode(f, out, coefs, errors)[..|out|] == out
    ensures FirEncode(f, out, coefs, FirDecode(f, out, coefs, errors)[|out|..]) == errors
    ensures AllSigned(FirDecode(f, out, coefs, errors)[|out|..], f.size)
    decreases |errors|
  {
    hide Residual, Sample, NextCoefs, Signed;
    if errors == [] {
    } else {
      var v := Sample(f, out, coefs, errors[0]);
      StepInverse(f, out, coefs, errors[0]);
      var next, coefs' := out + [v], NextCoefs(f, out, coefs, errors[0]);
      FirUnique(f, next, coefs', errors[1..]);
      var all := FirDecode(f, next, coefs', errors[1..]);
      assert all[..|out|] == next[..|out|] == out;
      assert all[|out|..] == [v] + all[|next|..];
    }
  }

  /** A block of in-range samples comes from exactly one block of in-range residuals. */
  lemma FirBijection(f: Fir, coefs: seq<int>, samples: seq<int>, errors: seq<int>)
    requires f.Valid() && f.num <= |coefs| && AllSigned(samples, f.size) && AllSigned(errors, f.size)
    ensures FirDecode(f, [], coefs, errors) == samples <==> errors == FirEncode(f, [], coefs, samples)
  {
    FirRoundTrip(f, [], coefs, samples);
    FirUnique(f, [], coefs, errors);
    assert [] + samples == samples;
    var d := FirDecode(f, [], coefs, errors);
    assert d[0..] == d;
  }

  // ---------------------------------------------------------------------------------------------
  // The loops
  // ---------------------------------------------------------------------------------------------

  /** The update of the coefficient table in place, for a nonzero residual. */
  method AdaptInPlace(f: Fir, out: array<int>, end: nat, coefs: array<int>, error: int)
    requires f.num < end <= out.Length && f.num <= coefs.Length && error != 0 && out != coefs
    modifies coefs
    ensures coefs[..] == Adapted(f, out[..end], old(coefs[..]), error)
  {
    hide Wrap;
    var dir := SignOnly(error);
    ghost var window, goal := out[..end], Adapted(f, out[..end], coefs[..], error);
    var pn := f.num - 1;
    var ev := error;
    while pn >= 0 && ev * dir > 0
      invariant -1 <= pn < f.num
      invariant out[..end] == window
      invariant Adapt(f, window, coefs[..], pn + 1, ev, dir) == goal
    {
      ghost var before := coefs[..];
      var val := out[end - 1 - f.num] - out[end - 1 - pn];
      var sign := dir * SignOnly(val);
      coefs[pn] := Wrap(coefs[pn] - sign, 16);
      ev := ev - val * sign / Pow2(f.quant) * (f.num - pn);
      pn := pn - 1;
      assert coefs[..] == before[pn + 1 := coefs[pn + 1]];
    }
  }

  /** The prediction from the window that ends before `end`. */
  method PredictAt(f: Fir, out: array<int>, end: nat, coefs: array<int>) returns (p: int)
    requires f.num < end <= out.Length && f.num <= coefs.Length
    ensures p == Predict(f, out[..end], coefs[..])
  {
    var sum := 0;
    for j := 0 to f.num
      invariant sum == Weighted(out[..end], coefs[..], f.num, j)
    {
      sum := sum + (out[end - 1 - j] - out[end - 1 - f.num]) * coefs[j];
    }
    p := (Rounding(f.quant) + sum) / Pow2(f.quant) + out[end - 1 - f.num];
  }

  /** What a loop has done: `i` samples are out, and the coefficients are those of the block at that point. */
  ghost predicate Decoded(f: Fir, goal: seq<int>, es: seq<int>, out: seq<int>, coefs: seq<int>)
  {
    && f.Valid() && f.num <= |coefs|
    && |out| <= |es|
    && FirDecode(f, out, coefs, es[|out|..]) == goal
  }

  lemma DecodedStep(f: Fir, goal: seq<int>, es: seq<int>, out: seq<int>, coefs: seq<int>, out': seq<int>,
                    coefs': seq<int>)
    requires Decoded(f, goal, es, out, coefs) && |out| < |es|
    requires out' == out + [Sample(f, out, coefs, es[|out|])] && coefs' == NextCoefs(f, out, coefs, es[|out|])
    ensures Decoded(f, goal, es, out', coefs')
  {
    hide Sample, NextCoefs;
    assert es[|out|..][1..] == es[|out| + 1..];
  }

  lemma DecodedAll(f: Fir, goal: seq<int>, es: seq<int>, out: seq<int>, coefs: seq<int>)
    requires Decoded(f, goal, es, out, coefs) && |out| == |es|
    ensures out == goal
  {
    assert es[|out|..] == [];
  }

  method PredictorDecompress(f: Fir, errors: array<int>, out: array<int>, n: nat, coefs: array<int>)
    requires f.Valid() && f.num <= coefs.Length && n <= errors.Length && n <= out.Length
    requires f.num == 0 || f.num == DELTA_MODE || f.num < n
    requires out != coefs && out != errors && errors != coefs
    modifies out, coefs
    ensures out[..n] == FirDecode(f, [], old(coefs[..]), errors[..n])
    ensures out[n..] == old(out[n..])
  {
    hide FirDecode, Predict, Adapted, Wrap;
    if n == 0 {
      EmptyBlock(f, coefs[..]);
      return;
    }
    ghost var es, goal, rest := errors[..n], FirDecode(f, [], coefs[..], errors[..n]), out[n..];
    FirstStep(f, goal, es, coefs[..]);
    out[0] := errors[0];
    assert out[..1] == [es[0]];
    if f.num == 0 {
      for i := 1 to n
        invariant errors[..n] == es && out[n..] == rest
        invariant Decoded(f, goal, es, out[..i], coefs[..])
      {
        ghost var done := out[..i];
        out[i] := errors[i];
        assert out[..i + 1] == done + [out[i]];
        DecodedStep(f, goal, es, done, coefs[..], out[..i + 1], coefs[..]);
      }
      DecodedAll(f, goal, es, out[..n], coefs[..]);
      return;
    }
    if f.num == DELTA_MODE {
      for i := 1 to n
        invariant errors[..n] == es && out[n..] == rest
        invariant Decoded(f, goal, es, out[..i], coefs[..])
      {
        DeltaStep(f, goal, es, errors, out, i, coefs);
      }
      DecodedAll(f, goal, es, out[..n], coefs[..]);
      return;
    }
    for i := 1 to f.num + 1
      invariant errors[..n] == es && out[n..] == rest
      invariant Decoded(f, goal, es, out[..i], coefs[..])
    {
      DeltaStep(f, goal, es, errors, out, i, coefs);
    }
    for i := f.num + 1 to n
      invariant errors[..n] == es && out[n..] == rest
      invariant Decoded(f, goal, es, out[..i], coefs[..])
    {
      AdaptiveStep(f, goal, es, errors, out, i, coefs);
    }
    DecodedAll(f, goal, es, out[..n], coefs[..]);
  }

  /** One sample predicted by the filter, which then adapts. */
  method AdaptiveStep(f: Fir, ghost goal: seq<int>, ghost es: seq<int>, errors: array<int>, out: array<int>, i: nat,
                      coefs: array<int>)
    requires f.num < i < |es| <= errors.Length && |es| <= out.Length && es == errors[..|es|]
    requires f.num != 0 && f.num != DELTA_MODE && f.num <= coefs.Length && Decoded(f, goal, es, out[..i], coefs[..])
    requires out != coefs && out != errors && errors != coefs
    modifies out, coefs
    ensures out[i + 1..] == old(out[i + 1..])
    ensures Decoded(f, goal, es, out[..i + 1], coefs[..])
  {
    hide FirDecode, Predict, Adapted, Wrap;
    ghost var done, table := out[..i], coefs[..];
    var p := PredictAt(f, out, i, coefs);
    out[i] := SignExtend32(Wrap(p + errors[i], 32), f.size);
    SignExtendWraps(p + errors[i], f.size);
    assert out[..i] == done;
    if errors[i] != 0 {
      AdaptInPlace(f, out, i, coefs, errors[i]);
    } else {
      NoAdaptation(f, done, table);
    }
    assert out[..i + 1] == done + [out[i]];
    DecodedStep(f, goal, es, done, table, out[..i + 1], coefs[..]);
  }

  /** One sample predicted by the sample before it. */
  method DeltaStep(f: Fir, ghost goal: seq<int>, ghost es: seq<int>, errors: array<int>, out: array<int>, i: nat,
                   coefs: array<int>)
    requires 1 <= i < |es| <= errors.Length && |es| <= out.Length && es == errors[..|es|]
    requires Decoded(f, goal, es, out[..i], coefs[..]) && f.num != 0 && Delta(f, out[..i])
    requires out != coefs && out != errors
    modifies out
    ensures out[i + 1..] == old(out[i + 1..])
    ensures Decoded(f, goal, es, out[..i + 1], coefs[..])
  {
    hide FirDecode, Wrap;
    ghost var done := out[..i];
    SignExtendWraps(out[i - 1] + errors[i], f.size);
    out[i] := SignExtend32(Wrap(out[i - 1] + errors[i], 32), f.size);
    assert out[..i + 1] == done + [out[i]];
    assert !Verbatim(f, done);
    DecodedStep(f, goal, es, done, coefs[..], out[..i + 1], coefs[..]);
  }

  lemma EmptyBlock(f: Fir, coefs: seq<int>)
    requires f.Valid() && f.num <= |coefs|
    ensures FirDecode(f, [], coefs, []) == []
  {
  }

  lemma FirstStep(f: Fir, goal: seq<int>, es: seq<int>, coefs: seq<int>)
    requires f.Valid() && f.num <= |coefs| && es != []
    requires FirDecode(f, [], coefs, es) == goal
    ensures Decoded(f, goal, es, [es[0]], coefs)
  {
    assert es[|[es[0]]|..] == es[1..];
    assert [] + [es[0]] == [es[0]];
  }

  lemma NoAdaptation(f: Fir, out: seq<int>, coefs: seq<int>)
    requires f.num < |out| && f.num <= |coefs|
    ensures Adapted(f, out, coefs, 0) == coefs
  {
  }
}
