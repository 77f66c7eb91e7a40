/** What a tick sounds like, from the frames each stream has been heard with so far. */
module MixerHistory {
  import opened FrameBuffer
  import opened Mixer
  import opened MixerRuns
  import opened Options
  import opened Pcm

  /** The memory of a decoder made for a stream that has decoded these frames, in order. */
  function Replay(d: Decoder, x: Ssrc, heard: seq<RtpFrame>): CodecState
    decreases |heard|
  {
    if heard == [] then d.create(x)
    else d.decode(Replay(d, x, heard[..|heard| - 1]), heard[|heard| - 1]).0
  }

  /** The frames of stream x that ticks have handed to the mixer since its codec was made. */
  function HeardAfter(s: State, e: Event, x: Ssrc, before: seq<RtpFrame>): seq<RtpFrame> {
    match e
    case Tick(locked, _) =>
      if locked && s.stages != [] && Find(s.stages[0], x).Some? then before + [Find(s.stages[0], x).value] else before
    case Collect(_, after) => if x in after then before else []
    case Arrive(_, _) => before
  }

  function Heard(c: Settings, s: State, es: seq<Event>, x: Ssrc, before: seq<RtpFrame>): seq<RtpFrame>
    requires c.max > 0
    decreases |es|
  {
    if es == [] then before else Heard(c, Step(c, s, es[0]), es[1..], x, HeardAfter(s, es[0], x, before))
  }

  /** The codec of stream x is what replaying these frames gives, and there is one iff there are any. */
  ghost predicate Remembers(c: Settings, s: State, x: Ssrc, heard: seq<RtpFrame>) {
    (x in s.codecs <==> heard != []) && (x in s.codecs ==> s.codecs[x].state == Replay(c.decoder, x, heard))
  }

  lemma TickRemembers(c: Settings, s: State, locked: bool, now: int, x: Ssrc, heard: seq<RtpFrame>)
    requires c.max > 0 && Sound(c, s) && Remembers(c, s, x, heard)
    ensures Remembers(c, MixTick(c, s, locked, now).0, x, HeardAfter(s, Tick(locked, now), x, heard))
    ensures locked && s.stages != [] && Find(s.stages[0], x).Some? ==>
      var t := MixTick(c, s, locked, now).0; x in t.codecs && t.codecs[x].lastUsed == now
  {
    if locked && s.stages != [] {
      var frames := s.stages[0];
      FirstStageIsOldest(s.stages, x);
      FindIn(frames, x);
      MixDecodesOnce(c.decoder, StartMixing(s.codecs, c.samples), frames, now);
      if Find(frames, x).Some? {
        var f := Find(frames, x).value;
        assert (heard + [f])[..|heard|] == heard;
      }
    }
  }

  lemma StepRemembers(c: Settings, s: State, e: Event, x: Ssrc, heard: seq<RtpFrame>)
    requires c.max > 0 && Sound(c, s) && Enabled(s, e) && Remembers(c, s, x, heard)
    ensures Remembers(c, Step(c, s, e), x, HeardAfter(s, e, x, heard))
  {
    match e
    case Arrive(f, locked) =>
    case Tick(locked, now) => TickRemembers(c, s, locked, now, x, heard);
    case Collect(cutoff, after) => CollectSparesUsed(s.codecs, cutoff, after);
  }

  lemma {:induction false} RunRemembers(c: Settings, s: State, es: seq<Event>, x: Ssrc, heard: seq<RtpFrame>)
    requires c.max > 0 && Sound(c, s) && Possible(c, s, es) && Remembers(c, s, x, heard)
    ensures Remembers(c, Run(c, s, es), x, Heard(c, s, es, x, heard))
    decreases |es|
  {
    if es != [] {
      StepSound(c, s, es[0]);
      StepRemembers(c, s, es[0], x, heard);
      RunRemembers(c, Step(c, s, es[0]), es[1..], x, HeardAfter(s, es[0], x, heard));
    }
  }

  /** Over every run the codec of a stream has decoded exactly the frames of the stream that ticks
      have handed out since it was made, in order, and no other. */
  lemma CodecIsItsHistory(c: Settings, es: seq<Event>, x: Ssrc)
    requires c.max > 0 && Possible(c, INIT, es)
    ensures Remembers(c, Run(c, INIT, es), x, Heard(c, INIT, es, x, []))
  {
    EmptyIsValid();
    RunRemembers(c, INIT, es, x, []);
  }

  // --------------------------------------------------------------------- the output

  /** What the frames sound like, each decoded behind what its stream has been heard with; frames
      that do not decode to the length of a tick are left out. */
  function Sounding(c: Settings, es: seq<Event>, frames: seq<RtpFrame>): (us: seq<seq<Sample>>)
    requires c.max > 0
    ensures |us| <= |frames| && forall j :: 0 <= j < |us| ==> |us[j]| == c.samples
  {
    if frames == [] then []
    else
      var f := frames[0];
      var u := c.decoder.decode(Replay(c.decoder, f.ssrc, Heard(c, INIT, es, f.ssrc, [])), f).1;
      (if |u| == c.samples then [u] else []) + Sounding(c, es, frames[1..])
  }

  lemma {:induction false} ContributionsSound(c: Settings, es: seq<Event>, codecs: Codecs, frames: seq<RtpFrame>, now: int)
    requires c.max > 0 && Possible(c, INIT, es) && DistinctStreams(frames)
    requires SameCodecs(c.decoder, codecs, Run(c, INIT, es).codecs, frames)
    ensures Contributions(c.decoder, codecs, frames, c.samples, now) == Sounding(c, es, frames)
    decreases |frames|
  {
    if frames != [] {
      var f := frames[0];
      assert f in frames;
      CodecIsItsHistory(c, es, f.ssrc);
      UseKeepsOthers(c.decoder, codecs, Run(c, INIT, es).codecs, frames, now);
      ContributionsSound(c, es, Use(c.decoder, codecs, f, now), frames[1..], now);
    }
  }

  /** A tick after any run: without the lock or without a stage nothing happens; otherwise the first
      stage is taken off and freed, and what is handed on is, sample by sample, the mean of what its
      frames sound like. */
  lemma TickSoundsLike(c: Settings, es: seq<Event>, locked: bool, now: int)
    requires c.max > 0 && Possible(c, INIT, es)
    ensures var s := Run(c, INIT, es); var (t, out) := MixTick(c, s, locked, now);
      if !locked || s.stages == [] then t == s && out == None
      else
        && t.stages == s.stages[1..] && t.freed == s.freed + multiset(s.stages[0]) && t.added == s.added && out.Some?
        && (|s.stages[0]| <= 65536 ==>
              (|out.value| == c.samples &&
               forall i :: 0 <= i < c.samples ==> out.value[i] == Mean(Sounding(c, es, s.stages[0]), i)))
  {
    var s := Run(c, INIT, es);
    if locked && s.stages != [] {
      EmptyIsValid();
      RunSound(c, INIT, es);
      FirstStageIsOldest(s.stages, c.cancel);
      ContributionsSound(c, es, s.codecs, s.stages[0], now);
      if |s.stages[0]| <= 65536 { OutputIsMean(c.decoder, s.codecs, s.stages[0], c.samples, now); }
    }
  }

  /** The mean of some samples: their sum divided by their number, cut toward zero; 0 for none. */
  lemma MeanExactly(us: seq<seq<Sample>>, i: nat)
    requires forall j :: 0 <= j < |us| ==> i < |us[j]|
    ensures us == [] ==> Mean(us, i) == 0
    ensures us != [] ==> var sum, q, n := ColumnSum(us, i), Mean(us, i), |us|;
      if sum >= 0 then q * n <= sum < q * n + n else q * n - n < sum <= q * n
    ensures ColumnSum(us, i) == if us == [] then 0 else us[0][i] + ColumnSum(us[1..], i)
  {
    if us != [] { QuotientExactly(ColumnSum(us, i), |us|); }
  }

  lemma QuotientExactly(a: int, n: nat)
    requires n > 0
    ensures var q := Quotient(a, n); if a >= 0 then q * n <= a < q * n + n else q * n - n < a <= q * n
  {
    if a >= 0 {
      assert a == (a / n) * n + a % n;
    } else {
      var b := -a;
      assert b == (b / n) * n + b % n;
    }
  }
}
