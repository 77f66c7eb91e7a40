/** The RTP mixer (ov_rtp_mixer.c): decoding with one codec per stream, mixing as in section 7.1
    of RFC 3550, and the ownership of the frames that go through it. */
module Mixer {
  import opened FrameBuffer
  import opened Pcm

  /** The memory of a decoder, as a number. */
  type CodecState = nat

  /** create is what the codec factory makes for a stream; decode also says what the codec remembers. */
  datatype Decoder = Decoder(create: Ssrc -> CodecState, decode: (CodecState, RtpFrame) -> (CodecState, seq<Sample>))

  datatype CodecEntry = CodecEntry(state: CodecState, lastUsed: int)

  type Codecs = map<Ssrc, CodecEntry>

  // ------------------------------------------------------------------- decoding

  function CodecFor(d: Decoder, codecs: Codecs, s: Ssrc): CodecState {
    if s in codecs then codecs[s].state else d.create(s)
  }

  function Decoded(d: Decoder, codecs: Codecs, f: RtpFrame): (CodecState, seq<Sample>) {
    d.decode(CodecFor(d, codecs, f.ssrc), f)
  }

  /** The codec of the frame's stream has decoded it at the given time. */
  function Use(d: Decoder, codecs: Codecs, f: RtpFrame, now: int): Codecs {
    codecs[f.ssrc := CodecEntry(Decoded(d, codecs, f).0, now)]
  }

  /** The frame decodes to the length of a tick. */
  predicate Usable(d: Decoder, codecs: Codecs, f: RtpFrame, n: nat) {
    |Decoded(d, codecs, f).1| == n
  }

  // --------------------------------------------------------------------- mixing

  /** codecs, the accumulator and the number of frames added to it. */
  datatype Mixing = Mixing(codecs: Codecs, acc: seq<int>, mixed: nat)

  function MixOne(d: Decoder, m: Mixing, f: RtpFrame, now: int): Mixing {
    var samples := Decoded(d, m.codecs, f).1;
    var used := Use(d, m.codecs, f, now);
    if |samples| == |m.acc| then Mixing(used, Sum32(m.acc, samples), m.mixed + 1) else m.(codecs := used)
  }

  function MixAll(d: Decoder, m: Mixing, frames: seq<RtpFrame>, now: int): Mixing
    decreases |frames|
  {
    if frames == [] then m else MixAll(d, MixOne(d, m, frames[0], now), frames[1..], now)
  }

  function Silence(n: nat): seq<int> {
    seq(n, _ => 0)
  }

  function StartMixing(codecs: Codecs, n: nat): Mixing {
    Mixing(codecs, Silence(n), 0)
  }

  function Output(m: Mixing): seq<int> {
    Clipped16(Scaled(m.acc, if m.mixed == 0 then 1 else m.mixed))
  }

  /** mix_frames: the codecs afterwards and the samples written. */
  function MixFrames(d: Decoder, codecs: Codecs, frames: seq<RtpFrame>, n: nat, now: int): (Codecs, seq<int>) {
    var m := MixAll(d, StartMixing(codecs, n), frames, now);
    (m.codecs, Output(m))
  }

  // ------------------------------------------------------------ what is mixed

  /** The decoded samples of the frames that count, in order. */
  function Contributions(d: Decoder, codecs: Codecs, frames: seq<RtpFrame>, n: nat, now: int): (us: seq<seq<Sample>>)
    ensures |us| <= |frames|
    ensures forall j :: 0 <= j < |us| ==> |us[j]| == n
    decreases |frames|
  {
    if frames == [] then []
    else
      var rest := Contributions(d, Use(d, codecs, frames[0], now), frames[1..], n, now);
      if Usable(d, codecs, frames[0], n) then [Decoded(d, codecs, frames[0]).1] + rest else rest
  }

  /** The mean of the samples that count, rounded toward zero; nothing to mix is silence. */
  function Mean(us: seq<seq<Sample>>, i: nat): int
    requires forall j :: 0 <= j < |us| ==> i < |us[j]|
  {
    if us == [] then 0 else Quotient(ColumnSum(us, i), |us|)
  }

  lemma {:induction false} MixAllSums(d: Decoder, m: Mixing, before: seq<seq<Sample>>, frames: seq<RtpFrame>, now: int)
    requires |before| + |frames| <= 65536 && m.mixed == |before|
    requires forall j :: 0 <= j < |before| ==> |before[j]| == |m.acc|
    requires forall i :: 0 <= i < |m.acc| ==> m.acc[i] == ColumnSum(before, i)
    ensures var r := MixAll(d, m, frames, now); var us := before + Contributions(d, m.codecs, frames, |m.acc|, now);
      && |r.acc| == |m.acc| && r.mixed == |us|
      && forall i :: 0 <= i < |m.acc| ==> r.acc[i] == ColumnSum(us, i)
    decreases |frames|
  {
    var n := |m.acc|;
    if frames == [] {
      assert before + [] == before;
    } else {
      var f := frames[0];
      var samples := Decoded(d, m.codecs, f).1;
      var next := MixOne(d, m, f, now);
      var rest := Contributions(d, next.codecs, frames[1..], n, now);
      if |samples| == n {
        var grown := before + [samples];
        forall i | 0 <= i < n
          ensures next.acc[i] == ColumnSum(grown, i)
        {
          ColumnSumAppend(before, samples, i);
          ColumnSumBetween(grown, i, INT16_MIN, INT16_MAX);
        }
        MixAllSums(d, next, grown, frames[1..], now);
        assert grown + rest == before + ([samples] + rest);
      } else {
        MixAllSums(d, next, before, frames[1..], now);
      }
    }
  }

  lemma {:induction false} ColumnSumAppend(us: seq<seq<Sample>>, u: seq<Sample>, i: nat)
    requires i < |u| && forall j :: 0 <= j < |us| ==> i < |us[j]|
    ensures ColumnSum(us + [u], i) == ColumnSum(us, i) + u[i]
  {
    if us == [] {
      assert us + [u] == [u] && ColumnSum([u][1..], i) == 0;
    } else {
      assert (us + [u])[1..] == us[1..] + [u];
      ColumnSumAppend(us[1..], u, i);
    }
  }

  /** For up to 65536 frames the output is, at every position, the mean of the samples of the
      frames that decode to the right length: no overflow, no clipping, and frames that do not
      decode neither add nor dilute. */
  lemma OutputIsMean(d: Decoder, codecs: Codecs, frames: seq<RtpFrame>, n: nat, now: int)
    requires |frames| <= 65536
    ensures var out := MixFrames(d, codecs, frames, n, now).1; var us := Contributions(d, codecs, frames, n, now);
      |out| == n && forall i :: 0 <= i < n ==> out[i] == Mean(us, i)
  {
    var m := StartMixing(codecs, n);
    MixAllSums(d, m, [], frames, now);
    var us := Contributions(d, codecs, frames, n, now);
    assert [] + us == us;
    forall i | 0 <= i < n
      ensures INT16_MIN <= Mean(us, i) <= INT16_MAX
    {
      MeanBetween(us, i, INT16_MIN, INT16_MAX);
    }
  }

  /** lo and hi bound what the samples at position i are. */
  predicate SamplesBetween(us: seq<seq<Sample>>, i: nat, lo: int, hi: int) {
    forall j :: 0 <= j < |us| ==> i < |us[j]| && lo <= us[j][i] <= hi
  }

  lemma MeanBetween(us: seq<seq<Sample>>, i: nat, lo: int, hi: int)
    requires SamplesBetween(us, i, lo, hi)
    ensures us != [] || lo <= 0 <= hi ==> lo <= Mean(us, i) <= hi
  {
    if us != [] {
      ColumnSumBetween(us, i, lo, hi);
      QuotientBetween(ColumnSum(us, i), |us|, lo, hi);
    }
  }

  /** Every output sample lies between any bounds on the mixed samples at its position, and is
      zero if nothing was mixed. */
  lemma OutputBetween(d: Decoder, codecs: Codecs, frames: seq<RtpFrame>, n: nat, now: int, i: nat, lo: int, hi: int)
    requires |frames| <= 65536 && i < n && SamplesBetween(Contributions(d, codecs, frames, n, now), i, lo, hi)
    ensures var out := MixFrames(d, codecs, frames, n, now).1; var us := Contributions(d, codecs, frames, n, now);
      |out| == n && if us == [] then out[i] == 0 else lo <= out[i] <= hi
  {
    OutputIsMean(d, codecs, frames, n, now);
    MeanBetween(Contributions(d, codecs, frames, n, now), i, lo, hi);
  }

  // --------------------------------------------------------- order independence

  predicate DistinctStreams(frames: seq<RtpFrame>) {
    forall i, j :: 0 <= i < j < |frames| ==> frames[i].ssrc != frames[j].ssrc
  }

  /** What a frame adds at position i, with the codecs as they are at the start of the tick. */
  function Weight(d: Decoder, codecs: Codecs, n: nat, i: nat, f: RtpFrame): int
    requires i < n
  {
    if Usable(d, codecs, f, n) then Decoded(d, codecs, f).1[i] else 0
  }

  function TotalWeight(d: Decoder, codecs: Codecs, n: nat, i: nat, frames: seq<RtpFrame>): int
    requires i < n
  {
    if frames == [] then 0 else Weight(d, codecs, n, i, frames[0]) + TotalWeight(d, codecs, n, i, frames[1..])
  }

  function UsableCount(d: Decoder, codecs: Codecs, n: nat, frames: seq<RtpFrame>): nat {
    if frames == [] then 0 else (if Usable(d, codecs, frames[0], n) then 1 else 0) + UsableCount(d, codecs, n, frames[1..])
  }

  /** The codecs the frames find are those at the start of the tick. */
  ghost predicate SameCodecs(d: Decoder, codecs: Codecs, start: Codecs, frames: seq<RtpFrame>) {
    forall f :: f in frames ==> CodecFor(d, codecs, f.ssrc) == CodecFor(d, start, f.ssrc)
  }

  lemma UseKeepsOthers(d: Decoder, codecs: Codecs, start: Codecs, frames: seq<RtpFrame>, now: int)
    requires frames != [] && DistinctStreams(frames) && SameCodecs(d, codecs, start, frames)
    ensures DistinctStreams(frames[1..]) && SameCodecs(d, Use(d, codecs, frames[0], now), start, frames[1..])
  {
    forall f | f in frames[1..]
      ensures f.ssrc != frames[0].ssrc && f in frames
    {
      var k :| 0 <= k < |frames[1..]| && frames[1..][k] == f;
      assert frames[k + 1] == f;
    }
  }

  lemma {:induction false} ContributionsByWeight(d: Decoder, codecs: Codecs, start: Codecs, frames: seq<RtpFrame>, n: nat, now: int, i: nat)
    requires DistinctStreams(frames) && SameCodecs(d, codecs, start, frames) && i < n
    ensures var us := Contributions(d, codecs, frames, n, now);
      |us| == UsableCount(d, start, n, frames) && ColumnSum(us, i) == TotalWeight(d, start, n, i, frames)
    decreases |frames|
  {
    if frames != [] {
      UseKeepsOthers(d, codecs, start, frames, now);
      assert frames[0] in frames;
      ContributionsByWeight(d, Use(d, codecs, frames[0], now), start, frames[1..], n, now, i);
      var rest := Contributions(d, Use(d, codecs, frames[0], now), frames[1..], n, now);
      assert ([Decoded(d, codecs, frames[0]).1] + rest)[1..] == rest;
    }
  }

  lemma {:induction false} WeightOfParts(d: Decoder, codecs: Codecs, n: nat, i: nat, a: seq<RtpFrame>, b: seq<RtpFrame>)
    requires i < n
    ensures TotalWeight(d, codecs, n, i, a + b) == TotalWeight(d, codecs, n, i, a) + TotalWeight(d, codecs, n, i, b)
    ensures UsableCount(d, codecs, n, a + b) == UsableCount(d, codecs, n, a) + UsableCount(d, codecs, n, b)
  {
    if a == [] {
      assert a + b == b;
    } else {
      assert (a + b)[1..] == a[1..] + b;
      WeightOfParts(d, codecs, n, i, a[1..], b);
    }
  }

  /** Where the first frame of a sequence is in a permutation of it. */
  lemma FindInPermutation(xs: seq<RtpFrame>, ys: seq<RtpFrame>) returns (k: nat)
    requires xs != [] && multiset(xs) == multiset(ys)
    ensures k < |ys| && ys == ys[..k] + ([xs[0]] + ys[k + 1..])
    ensures multiset(xs[1..]) == multiset(ys[..k] + ys[k + 1..])
  {
    var x := xs[0];
    assert x in multiset(xs);
    k :| 0 <= k < |ys| && ys[k] == x;
    var a, b := ys[..k], ys[k + 1..];
    assert xs == [x] + xs[1..] && ys == a + ([x] + b);
    assert multiset(xs) == multiset{x} + multiset(xs[1..]);
    assert multiset(ys) == multiset(a) + (multiset{x} + multiset(b));
    assert multiset(a + b) == multiset(a) + multiset(b);
    Cancel(x, multiset(xs[1..]), multiset(a + b));
  }

  lemma Cancel(x: RtpFrame, a: multiset<RtpFrame>, b: multiset<RtpFrame>)
    requires multiset{x} + a == multiset{x} + b
    ensures a == b
  {
    forall y
      ensures a[y] == b[y]
    {
      assert (multiset{x} + a)[y] == (multiset{x} + b)[y];
    }
  }

  lemma {:induction false} WeightOfPermutation(d: Decoder, codecs: Codecs, n: nat, i: nat, xs: seq<RtpFrame>, ys: seq<RtpFrame>)
    requires i < n && multiset(xs) == multiset(ys)
    ensures TotalWeight(d, codecs, n, i, xs) == TotalWeight(d, codecs, n, i, ys)
    ensures UsableCount(d, codecs, n, xs) == UsableCount(d, codecs, n, ys)
    decreases |xs|
  {
    if xs == [] {
      assert |multiset(ys)| == 0;
    } else {
      var k := FindInPermutation(xs, ys);
      var a, b := ys[..k], ys[k + 1..];
      WeightOfPermutation(d, codecs, n, i, xs[1..], a + b);
      WeightOfParts(d, codecs, n, i, a, b);
      WeightOfParts(d, codecs, n, i, a, [xs[0]] + b);
      WeightOfParts(d, codecs, n, i, [xs[0]], b);
      WeightOfParts(d, codecs, n, i, [xs[0]], xs[1..]);
      assert [xs[0]] + xs[1..] == xs;
    }
  }

  /** The output in terms of what each frame adds by itself. */
  lemma OutputByWeight(d: Decoder, codecs: Codecs, frames: seq<RtpFrame>, n: nat, now: int, i: nat)
    requires DistinctStreams(frames) && |frames| <= 65536 && i < n
    ensures var out := MixFrames(d, codecs, frames, n, now).1; var count := UsableCount(d, codecs, n, frames);
      |out| == n && out[i] == if count == 0 then 0 else Quotient(TotalWeight(d, codecs, n, i, frames), count)
  {
    OutputIsMean(d, codecs, frames, n, now);
    ContributionsByWeight(d, codecs, codecs, frames, n, now, i);
  }

  /** After a tick every stream in it has been decoded from where it was, and no other codec has changed. */
  ghost predicate DecodedOnce(d: Decoder, start: Codecs, frames: seq<RtpFrame>, now: int, codecs: Codecs) {
    && (forall f :: f in frames ==> f.ssrc in codecs && codecs[f.ssrc] == CodecEntry(Decoded(d, start, f).0, now))
    && (forall s :: (forall f :: f in frames ==> f.ssrc != s) ==>
          (s in codecs <==> s in start) && (s in start ==> codecs[s] == start[s]))
  }

  lemma DecodedOnceMore(d: Decoder, start: Codecs, f: RtpFrame, rest: seq<RtpFrame>, now: int, codecs: Codecs)
    requires forall g :: g in rest ==> g.ssrc != f.ssrc
    requires DecodedOnce(d, Use(d, start, f, now), rest, now, codecs)
    ensures DecodedOnce(d, start, [f] + rest, now, codecs)
  {
    var used := Use(d, start, f, now);
    forall g | g in [f] + rest
      ensures g.ssrc in codecs && codecs[g.ssrc] == CodecEntry(Decoded(d, start, g).0, now)
    {
      if g == f { assert f.ssrc in used; } else { assert CodecFor(d, used, g.ssrc) == CodecFor(d, start, g.ssrc); }
    }
    forall s | forall g :: g in [f] + rest ==> g.ssrc != s
      ensures (s in codecs <==> s in start) && (s in start ==> codecs[s] == start[s])
    {
      assert f in [f] + rest && forall g :: g in rest ==> g in [f] + rest;
    }
  }

  lemma TailDistinct(frames: seq<RtpFrame>)
    requires frames != [] && DistinctStreams(frames)
    ensures DistinctStreams(frames[1..]) && forall g :: g in frames[1..] ==> g.ssrc != frames[0].ssrc
  {
    var rest := frames[1..];
    forall i, j | 0 <= i < j < |rest|
      ensures rest[i].ssrc != rest[j].ssrc
    {
      assert frames[i + 1].ssrc != frames[j + 1].ssrc;
    }
    forall g | g in rest
      ensures g.ssrc != frames[0].ssrc
    {
      var k :| 0 <= k < |rest| && rest[k] == g;
      assert frames[k + 1] == g;
    }
  }

  lemma {:induction false} MixDecodesOnce(d: Decoder, m: Mixing, frames: seq<RtpFrame>, now: int)
    requires DistinctStreams(frames)
    ensures DecodedOnce(d, m.codecs, frames, now, MixAll(d, m, frames, now).codecs)
    decreases |frames|
  {
    if frames != [] {
      var f, rest := frames[0], frames[1..];
      TailDistinct(frames);
      var next := MixOne(d, m, f, now);
      assert next.codecs == Use(d, m.codecs, f, now);
      MixDecodesOnce(d, next, rest, now);
      DecodedOnceMore(d, m.codecs, f, rest, now, MixAll(d, m, frames, now).codecs);
      assert frames == [f] + rest;
    }
  }

  /** Mixing the frames of a tick in another order changes neither the output nor the codecs. */
  lemma OrderDoesNotMatter(d: Decoder, codecs: Codecs, xs: seq<RtpFrame>, ys: seq<RtpFrame>, n: nat, now: int)
    requires DistinctStreams(xs) && DistinctStreams(ys) && multiset(xs) == multiset(ys) && |xs| <= 65536
    ensures MixFrames(d, codecs, xs, n, now) == MixFrames(d, codecs, ys, n, now)
  {
    assert |xs| == |multiset(xs)| == |multiset(ys)| == |ys|;
    var out, out' := MixFrames(d, codecs, xs, n, now).1, MixFrames(d, codecs, ys, n, now).1;
    OutputIsMean(d, codecs, xs, n, now);
    OutputIsMean(d, codecs, ys, n, now);
    forall i | 0 <= i < n
      ensures out[i] == out'[i]
    {
      OutputByWeight(d, codecs, xs, n, now, i);
      OutputByWeight(d, codecs, ys, n, now, i);
      WeightOfPermutation(d, codecs, n, i, xs, ys);
    }
    assert out == out';
    SameCodecsAfter(d, codecs, xs, ys, n, now);
  }

  /** A frame that does not decode to the right length has no part in the output. */
  lemma UnusableFrameIgnored(d: Decoder, codecs: Codecs, a: seq<RtpFrame>, f: RtpFrame, b: seq<RtpFrame>, n: nat, now: int)
    requires DistinctStreams(a + [f] + b) && |a + [f] + b| <= 65536 && !Usable(d, codecs, f, n)
    ensures MixFrames(d, codecs, a + [f] + b, n, now).1 == MixFrames(d, codecs, a + b, n, now).1
  {
    var xs, ys := a + [f] + b, a + b;
    WithoutOne(a, f, b);
    OutputIsMean(d, codecs, xs, n, now);
    OutputIsMean(d, codecs, ys, n, now);
    var out, out' := MixFrames(d, codecs, xs, n, now).1, MixFrames(d, codecs, ys, n, now).1;
    forall i | 0 <= i < n
      ensures out[i] == out'[i]
    {
      OutputByWeight(d, codecs, xs, n, now, i);
      OutputByWeight(d, codecs, ys, n, now, i);
      WeightOfParts(d, codecs, n, i, a + [f], b);
      WeightOfParts(d, codecs, n, i, a, [f]);
      WeightOfParts(d, codecs, n, i, a, b);
      assert [f][1..] == [];
    }
  }

  lemma WithoutOne(a: seq<RtpFrame>, f: RtpFrame, b: seq<RtpFrame>)
    requires DistinctStreams(a + [f] + b)
    ensures DistinctStreams(a + b)
  {
    var xs, ys := a + [f] + b, a + b;
    forall i, j | 0 <= i < j < |ys|
      ensures ys[i].ssrc != ys[j].ssrc
    {
      var i', j' := if i < |a| then i else i + 1, if j < |a| then j else j + 1;
      assert ys[i] == xs[i'] && ys[j] == xs[j'] && i' < j';
    }
  }

  lemma SameCodecsAfter(d: Decoder, codecs: Codecs, xs: seq<RtpFrame>, ys: seq<RtpFrame>, n: nat, now: int)
    requires DistinctStreams(xs) && DistinctStreams(ys) && multiset(xs) == multiset(ys)
    ensures MixFrames(d, codecs, xs, n, now).0 == MixFrames(d, codecs, ys, n, now).0
  {
    var a, b := MixFrames(d, codecs, xs, n, now).0, MixFrames(d, codecs, ys, n, now).0;
    MixDecodesOnce(d, StartMixing(codecs, n), xs, now);
    MixDecodesOnce(d, StartMixing(codecs, n), ys, now);
    forall f
      ensures f in xs <==> f in ys
    {
      assert f in xs <==> f in multiset(xs);
    }
    SameEffect(d, codecs, xs, ys, now, a, b);
  }

  lemma SameEffect(d: Decoder, start: Codecs, xs: seq<RtpFrame>, ys: seq<RtpFrame>, now: int, a: Codecs, b: Codecs)
    requires DecodedOnce(d, start, xs, now, a) && DecodedOnce(d, start, ys, now, b)
    requires forall f :: f in xs <==> f in ys
    ensures a == b
  {
    forall s
      ensures (s in a <==> s in b) && (s in a ==> a[s] == b[s])
    {
      if f :| f in xs && f.ssrc == s { assert f in ys; }
    }
  }
}
