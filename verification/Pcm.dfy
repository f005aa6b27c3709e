/** 16-bit little-endian PCM: what the exporter writes, what the browser reads,
    and the browser's linear resampling. Samples are exact reals. */
module Pcm {
  import opened Basics

  function Clip(x: real): real { if x > 1.0 then 1.0 else if x < -1.0 then -1.0 else x }

  /** Math.round(clipped * 32767): to nearest, ties up. */
  function Quantize(x: real): (q: int)
    ensures -32767 <= q <= 32767
  {
    (Clip(x) * 32767.0 + 0.5).Floor
  }

  /** q & 0xFF, then (q >> 8) & 0xFF. */
  function SampleBytes(q: int): seq<byte> { [q % 256, (q / 256) % 256] }

  function IntBytes(qs: seq<int>): (bytes: seq<byte>)
    ensures |bytes| == 2 * |qs|
  {
    if qs == [] then [] else IntBytes(qs[..|qs| - 1]) + SampleBytes(qs[|qs| - 1])
  }

  function QuantizeAll(samples: seq<real>): (qs: seq<int>)
    ensures |qs| == |samples|
    ensures forall i :: 0 <= i < |qs| ==> -32767 <= qs[i] <= 32767
  {
    seq(|samples|, i requires 0 <= i < |samples| => Quantize(samples[i]))
  }

  function Encode(samples: seq<real>): (bytes: seq<byte>)
    ensures |bytes| == 2 * |samples|
  {
    IntBytes(QuantizeAll(samples))
  }

  lemma EncodeSnoc(samples: seq<real>, x: real)
    ensures Encode(samples + [x]) == Encode(samples) + SampleBytes(Quantize(x))
  {
    var qs, all := QuantizeAll(samples), QuantizeAll(samples + [x]);
    assert all == qs + [Quantize(x)] && all[..|qs|] == qs;
  }

  method AppendPcm(pending: seq<byte>, samples: seq<real>) returns (out: seq<byte>)
    ensures out == pending + Encode(samples)
  {
    out := pending;
    for i := 0 to |samples|
      invariant out == pending + Encode(samples[..i])
    {
      EncodeSnoc(samples[..i], samples[i]);
      assert samples[..i] + [samples[i]] == samples[..i + 1];
      var clipped := samples[i];
      if clipped > 1.0 {
        clipped := 1.0;
      } else if clipped < -1.0 {
        clipped := -1.0;
      }
      var s := (clipped * 32767.0 + 0.5).Floor;
      assert s == Quantize(samples[i]);
      out := out + [s % 256, (s / 256) % 256];
    }
    assert samples[..|samples|] == samples;
  }

  lemma EncodeConcat(a: seq<real>, b: seq<real>)
    ensures Encode(a + b) == Encode(a) + Encode(b)
  {
    assert QuantizeAll(a + b) == QuantizeAll(a) + QuantizeAll(b);
    IntBytesConcat(QuantizeAll(a), QuantizeAll(b));
  }

  lemma {:induction false} IntBytesConcat(a: seq<int>, b: seq<int>)
    ensures IntBytes(a + b) == IntBytes(a) + IntBytes(b)
    decreases b
  {
    if b == [] {
      assert a + b == a;
    } else {
      var n := |b| - 1;
      assert (a + b)[..|a + b| - 1] == a + b[..n] && (a + b)[|a + b| - 1] == b[n];
      IntBytesConcat(a, b[..n]);
    }
  }

  /** The low byte comes first, and negative numbers are in two's complement. */
  lemma {:induction false} LittleEndian(samples: seq<real>, i: nat)
    requires i < |samples|
    ensures var lo: int, hi: int := Encode(samples)[2 * i], Encode(samples)[2 * i + 1];
            lo + 256 * hi == Quantize(samples[i]) % 65536
    decreases samples
  {
    var n := |samples| - 1;
    var front, x := samples[..n], samples[n];
    EncodeSnoc(front, x);
    assert front + [x] == samples;
    if i < n {
      LittleEndian(front, i);
    } else {
      TwoBytes(Quantize(x));
    }
  }

  lemma TwoBytes(q: int)
    ensures var lo: int, hi: int := SampleBytes(q)[0], SampleBytes(q)[1];
            lo + 256 * hi == q % 65536
  {
    assert q == 256 * (q / 256) + q % 256;
  }

  /** Two bytes as a signed 16-bit number. */
  function Int16(lo: byte, hi: byte): int {
    var u := lo + 256 * hi;
    if u >= 32768 then u - 65536 else u
  }

  /** decodePcmS16Le on the decoded base64 bytes; an odd last byte is ignored. */
  function Decode(bytes: seq<byte>): seq<int> {
    if |bytes| < 2 then [] else [Int16(bytes[0], bytes[1])] + Decode(bytes[2..])
  }

  lemma {:induction false} DecodeConcat(a: seq<byte>, b: seq<byte>)
    requires |a| % 2 == 0
    ensures Decode(a + b) == Decode(a) + Decode(b)
    decreases a
  {
    if a == [] {
      assert a + b == b;
    } else {
      assert (a + b)[2..] == a[2..] + b;
      DecodeConcat(a[2..], b);
    }
  }

  lemma SampleRoundTrip(q: int)
    requires -32768 <= q <= 32767
    ensures Decode(SampleBytes(q)) == [q]
  {
    assert SampleBytes(q)[2..] == [];
    assert q == 256 * (q / 256) + q % 256;
  }

  lemma {:induction false} DecodeIntBytes(qs: seq<int>)
    requires forall i :: 0 <= i < |qs| ==> -32768 <= qs[i] <= 32767
    ensures Decode(IntBytes(qs)) == qs
  {
    if qs != [] {
      var n := |qs| - 1;
      DecodeIntBytes(qs[..n]);
      DecodeConcat(IntBytes(qs[..n]), SampleBytes(qs[n]));
      SampleRoundTrip(qs[n]);
      assert qs[..n] + [qs[n]] == qs;
    }
  }

  /** The browser recovers exactly the rounded, clipped samples. */
  lemma DecodeUndoesEncode(samples: seq<real>)
    ensures Decode(Encode(samples)) == QuantizeAll(samples)
  {
    DecodeIntBytes(QuantizeAll(samples));
  }

  function Distance(a: real, b: real): real { if a <= b then b - a else a - b }

  /** A sample is moved to the nearest point of the full-scale range, and not at all
      if it lies in it. */
  lemma ClipIsNearest(x: real, y: real)
    requires -1.0 <= y <= 1.0
    ensures -1.0 <= Clip(x) <= 1.0 && Distance(x, Clip(x)) <= Distance(x, y)
    ensures -1.0 <= x <= 1.0 ==> Clip(x) == x
  {
  }

  /** The quantization error is at most half a step; of two nearest steps the upper
      one is taken. */
  lemma QuantizeError(x: real)
    ensures -0.5 < Quantize(x) as real - Clip(x) * 32767.0 <= 0.5
  {
  }

  // ----- Resampling -----

  function OutLength(n: nat, ratio: real): nat
    requires ratio > 0.0
  {
    var k := (n as real * ratio).Floor;
    if k > 1 then k else 1
  }

  function Blend(s0: real, s1: real, f: real): real { s0 + (s1 - s0) * f }

  /** The signal at source position src: between its two neighbours. */
  function SampleAt(samples: seq<int>, src: real): real
    requires samples != []
  {
    var last := |samples| - 1;
    var i0 := Lower(src.Floor, last);
    var i1 := Lower(i0 + 1, last);
    var f := src - i0 as real;
    Blend(samples[i0] as real / 32768.0, samples[i1] as real / 32768.0, f)
  }

  /** Output o of a conversion by this ratio. */
  function Interpolated(samples: seq<int>, ratio: real, o: nat): real
    requires samples != [] && ratio > 0.0
  {
    SampleAt(samples, o as real / ratio)
  }

  function Lower(a: int, b: nat): (r: nat)
    ensures r <= b
  {
    if a < 0 then 0 else if a < b then a else b
  }

  method ResampleTo(samples: seq<int>, fromRate: real, toRate: real) returns (out: seq<real>)
    requires fromRate > 0.0 && toRate > 0.0
    ensures samples == [] ==> out == []
    ensures samples != [] && fromRate == toRate ==>
              |out| == |samples| && forall i :: 0 <= i < |out| ==> out[i] == samples[i] as real / 32768.0
    ensures samples != [] && fromRate != toRate ==>
              |out| == OutLength(|samples|, toRate / fromRate) &&
              forall o :: 0 <= o < |out| ==> out[o] == Interpolated(samples, toRate / fromRate, o)
  {
    out := [];
    if samples == [] {
      return;
    }
    if fromRate == toRate {
      for i := 0 to |samples|
        invariant |out| == i && forall k :: 0 <= k < i ==> out[k] == samples[k] as real / 32768.0
      {
        out := out + [samples[i] as real / 32768.0];
      }
      return;
    }
    var ratio := toRate / fromRate;
    var n := OutLength(|samples|, ratio);
    for o := 0 to n
      invariant |out| == o && forall k :: 0 <= k < o ==> out[k] == Interpolated(samples, ratio, k)
    {
      out := out + [Interpolated(samples, ratio, o)];
    }
  }

  lemma SourceInRange(n: nat, ratio: real, o: nat)
    requires n > 0 && ratio > 0.0 && o < OutLength(n, ratio)
    ensures 0.0 <= o as real / ratio < n as real
  {
    var src := o as real / ratio;
    assert src * ratio == o as real;
    var k := (n as real * ratio).Floor;
    Factor(src, 0.0, ratio);
    if o > 0 {
      assert o as real < k as real <= n as real * ratio;
      Factor(n as real, src, ratio);
    } else {
      assert src == 0.0;
    }
  }

  lemma Factor(a: real, b: real, d: real)
    requires d > 0.0
    ensures a * d >= b * d ==> a >= b
    ensures a * d > b * d ==> a > b
  {
    if a < b {
      assert (b - a) * d > 0.0;
    }
    assert (b - a) * d == b * d - a * d;
  }

  /** The converted buffer lasts as long as the source, to within one output sample,
      and has one sample at least. */
  lemma LengthFits(n: nat, ratio: real)
    requires ratio > 0.0
    ensures OutLength(n, ratio) >= 1
    ensures n as real * ratio >= 1.0 ==>
              OutLength(n, ratio) as real <= n as real * ratio < OutLength(n, ratio) as real + 1.0
    ensures n as real * ratio < 1.0 ==> OutLength(n, ratio) == 1
  {
  }

  /** Sample k of a ramp. */
  predicate Ramp(samples: seq<int>, start: int, slope: int) {
    forall k :: 0 <= k < |samples| ==> samples[k] == start + slope * k
  }

  /** A ramp is converted to the same ramp: interpolation is linear between samples,
      and constant behind the last one. */
  lemma RampIsReproduced(samples: seq<int>, start: int, slope: int, src: real)
    requires samples != [] && Ramp(samples, start, slope) && 0.0 <= src < |samples| as real
    ensures var last := (|samples| - 1) as real;
            SampleAt(samples, src) ==
            (start as real + slope as real * (if src <= last then src else last)) / 32768.0
  {
    var i0, last := src.Floor, |samples| - 1;
    var f := src - i0 as real;
    if i0 < last {
      RampStep(start, slope, i0);
      BlendRamp(samples[i0] as real, slope as real, f);
      RampAt(start as real, slope as real, i0 as real, f);
    } else {
      RampStep(start, slope, last);
      BlendSame(samples[last] as real / 32768.0, f);
    }
  }

  lemma RampStep(start: int, slope: int, k: nat)
    ensures (start + slope * k) as real == start as real + slope as real * k as real
    ensures (start + slope * (k + 1)) as real == (start + slope * k) as real + slope as real
  {
    IntProduct(slope, k);
    assert slope * (k + 1) == slope * k + slope;
  }

  lemma IntProduct(a: int, b: int)
    ensures (a * b) as real == a as real * b as real
  {
  }

  lemma BlendRamp(s: real, d: real, f: real)
    ensures Blend(s / 32768.0, (s + d) / 32768.0, f) == (s + d * f) / 32768.0
  {
    assert (s + d) / 32768.0 - s / 32768.0 == d / 32768.0;
    assert d / 32768.0 * f == d * f / 32768.0;
  }

  lemma BlendSame(s: real, f: real)
    ensures Blend(s, s, f) == s
  {
  }

  lemma RampAt(start: real, slope: real, i: real, f: real)
    ensures start + slope * i + slope * f == start + slope * (i + f)
  {
  }

  /** v lies between sample i0 and its right neighbour. */
  predicate BetweenNeighbours(samples: seq<int>, i0: int, v: real) {
    && 0 <= i0 < |samples|
    && var s0, s1 := samples[i0] as real / 32768.0, samples[Lower(i0 + 1, |samples| - 1)] as real / 32768.0;
       s0 <= v <= s1 || s1 <= v <= s0
  }

  lemma SampleBetween(samples: seq<int>, src: real)
    requires 0.0 <= src < |samples| as real
    ensures BetweenNeighbours(samples, src.Floor, SampleAt(samples, src))
    ensures src == src.Floor as real ==> SampleAt(samples, src) == samples[src.Floor] as real / 32768.0
  {
    var i0, last := src.Floor, |samples| - 1;
    WeightedBetween(samples[i0] as real / 32768.0, samples[Lower(i0 + 1, last)] as real / 32768.0, src - i0 as real);
  }

  /** Every output is a weighted mean of two neighbouring samples with weights
      between 0 and 1, so it never leaves their range; where the source position
      is a whole number the output is that sample. */
  lemma InterpolationStaysBetween(samples: seq<int>, ratio: real, o: nat)
    requires samples != [] && ratio > 0.0 && o < OutLength(|samples|, ratio)
    ensures var src, v := o as real / ratio, Interpolated(samples, ratio, o);
            && BetweenNeighbours(samples, src.Floor, v)
            && (src == src.Floor as real ==> v == samples[src.Floor] as real / 32768.0)
  {
    SourceInRange(|samples|, ratio, o);
    SampleBetween(samples, o as real / ratio);
  }

  lemma WeightedBetween(s0: real, s1: real, f: real)
    requires 0.0 <= f < 1.0
    ensures var m := Blend(s0, s1, f);
            (s0 <= m <= s1 || s1 <= m <= s0) && (f == 0.0 ==> m == s0)
  {
    var rise := (s1 - s0) * f;
    Scaled(s1 - s0, f, rise);
  }

  lemma Scaled(d: real, f: real, p: real)
    requires 0.0 <= f < 1.0 && p == d * f
    ensures d >= 0.0 ==> 0.0 <= p <= d
    ensures d < 0.0 ==> d <= p <= 0.0
    ensures f == 0.0 ==> p == 0.0
  {
    var rest := d * (1.0 - f);
    assert p + rest == d;
    SameSign(d, f, p);
    SameSign(d, 1.0 - f, rest);
  }

  lemma SameSign(d: real, f: real, p: real)
    requires f >= 0.0 && p == d * f
    ensures d >= 0.0 ==> p >= 0.0
    ensures d < 0.0 ==> p <= 0.0
  {
  }

  // ----- Scheduling -----

  /** Start times of consecutive buffers: (current time, duration) of each. */
  function StartAt(nextTime: real, now: real): real {
    var next := if nextTime < now - 0.25 then now else nextTime;
    if now >= next then now else next
  }

  function NextTime(plays: seq<(real, real)>): real {
    if plays == [] then 0.0
    else
      var (now, duration) := plays[|plays| - 1];
      StartAt(NextTime(plays[..|plays| - 1]), now) + duration
  }

  /** The k-th buffer's start. */
  function StartOf(plays: seq<(real, real)>, k: nat): real
    requires k < |plays|
  {
    StartAt(NextTime(plays[..k]), plays[k].0)
  }

  /** A buffer starts when the one before it ends, or at once if that has passed: no
      gap and no delay but those of the network. */
  lemma PlaybackIsPrompt(plays: seq<(real, real)>, k: nat)
    requires k < |plays|
    ensures var now := plays[k].0;
            var free := if k == 0 then 0.0 else StartOf(plays, k - 1) + plays[k - 1].1;
            StartOf(plays, k) == if now >= free then now else free
  {
    if k > 0 {
      assert plays[..k][..k - 1] == plays[..k - 1] && plays[..k][k - 1] == plays[k - 1];
    }
  }

  /** No buffer starts in the past or before an earlier one has ended. */
  lemma {:induction false} PlaybackNeverOverlaps(plays: seq<(real, real)>, j: nat, k: nat)
    requires j < k < |plays| && forall i :: 0 <= i < |plays| ==> plays[i].1 >= 0.0
    ensures StartOf(plays, k) >= plays[k].0
    ensures StartOf(plays, k) >= StartOf(plays, j) + plays[j].1
    decreases k
  {
    assert plays[..k][..k - 1] == plays[..k - 1] && plays[..k][k - 1] == plays[k - 1];
    assert NextTime(plays[..k]) == StartOf(plays, k - 1) + plays[k - 1].1;
    if j < k - 1 {
      PlaybackNeverOverlaps(plays, j, k - 1);
    }
  }
}
