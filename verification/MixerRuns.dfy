/** The mixer over time (ov_rtp_mixer.c): who owns which frame, what never gets in, and how
    unused codecs are collected. */
module MixerRuns {
  import opened Multisets
  import opened Options
  import opened FrameBuffer
  import opened Mixer
  import opened Pcm

  /** What does not change: the decoder, the stream to cancel, frames kept per stream, samples per tick. */
  datatype Settings = Settings(decoder: Decoder, cancel: Ssrc, max: nat, samples: nat)

  /** added and freed count the frames handed to ov_rtp_mixer_add_frame and those freed. */
  datatype State = State(stages: seq<Stage>, codecs: Codecs, added: multiset<RtpFrame>, freed: multiset<RtpFrame>)

  const INIT := State([], map[], multiset{}, multiset{})

  /** ov_rtp_mixer_add_frame; locked tells whether the lock of the buffer could be taken. */
  function Arrived(c: Settings, s: State, f: RtpFrame, locked: bool): State
    requires c.max > 0
  {
    var t := s.(added := s.added + multiset{f});
    if f.ssrc == c.cancel || !locked then t.(freed := s.freed + multiset{f})
    else
      var (stages, back) := Add(s.stages, c.max, f);
      t.(stages := stages, freed := s.freed + OneOrNone(back))
  }

  /** ov_rtp_mixer_mix: the state afterwards and the samples handed on, if any. */
  function MixTick(c: Settings, s: State, locked: bool, now: int): (State, Option<seq<int>>) {
    if !locked || s.stages == [] then (s, None)
    else
      var (codecs, out) := MixFrames(c.decoder, s.codecs, s.stages[0], c.samples, now);
      (s.(stages := s.stages[1..], codecs := codecs, freed := s.freed + multiset(s.stages[0])), Some(out))
  }

  // --------------------------------------------------------- garbage collection

  const GC_SLOTS: nat := 10

  function Stale(codecs: Codecs, cutoff: int): set<Ssrc> {
    set s | s in codecs && codecs[s].lastUsed < cutoff
  }

  /** A run of the collection removes stale streams, as many as there are up to ten. Which
      ones depends on the order of the dictionary. */
  ghost predicate Collects(codecs: Codecs, cutoff: int, after: Codecs) {
    exists gone :: gone <= Stale(codecs, cutoff) && after == codecs - gone &&
                   |gone| == if |Stale(codecs, cutoff)| < GC_SLOTS then |Stale(codecs, cutoff)| else GC_SLOTS
  }

  /** Codecs used since the cutoff are not touched, none changes, and at most ten go. */
  lemma CollectSparesUsed(codecs: Codecs, cutoff: int, after: Codecs)
    requires Collects(codecs, cutoff, after)
    ensures forall s :: s in after ==> s in codecs && after[s] == codecs[s]
    ensures forall s :: s in codecs && codecs[s].lastUsed >= cutoff ==> s in after
    ensures |Stale(after, cutoff)| == if |Stale(codecs, cutoff)| < GC_SLOTS then 0 else |Stale(codecs, cutoff)| - GC_SLOTS
    ensures Stale(after, cutoff) <= Stale(codecs, cutoff)
  {
    var gone :| gone <= Stale(codecs, cutoff) && after == codecs - gone &&
      |gone| == if |Stale(codecs, cutoff)| < GC_SLOTS then |Stale(codecs, cutoff)| else GC_SLOTS;
    assert Stale(after, cutoff) == Stale(codecs, cutoff) - gone;
  }

  /** What a collection leaves, without a name for it: with at most ten streams last used before the
      cutoff exactly the others are left; with more, ten are gone and all used since are left. */
  lemma CollectExactly(codecs: Codecs, cutoff: int, after: Codecs)
    requires Collects(codecs, cutoff, after)
    ensures forall s :: s in codecs && codecs[s].lastUsed >= cutoff ==> s in after && after[s] == codecs[s]
    ensures var unused := set s | s in codecs && codecs[s].lastUsed < cutoff;
      after.Keys <= codecs.Keys && if |unused| <= 10 then after.Keys !! unused else |after.Keys| + 10 == |codecs.Keys|
  {
    CollectSparesUsed(codecs, cutoff, after);
    var unused := set s | s in codecs && codecs[s].lastUsed < cutoff;
    assert unused == Stale(codecs, cutoff);
    var gone :| gone <= unused && after == codecs - gone && |gone| == if |unused| < GC_SLOTS then |unused| else GC_SLOTS;
    KeysAfter(codecs, gone);
    if |unused| <= 10 { AllOfThem(gone, unused); }
  }

  lemma KeysAfter(codecs: Codecs, gone: set<Ssrc>)
    requires gone <= codecs.Keys
    ensures var after := (codecs - gone).Keys; after !! gone && |after| + |gone| == |codecs.Keys|
  {
    var after := (codecs - gone).Keys;
    assert after + gone == codecs.Keys && after !! gone;
    assert |after + gone| == |after| + |gone|;
  }

  lemma {:induction false} AllOfThem(a: set<Ssrc>, b: set<Ssrc>)
    requires a <= b && |a| == |b|
    ensures a == b
  {
    if x :| x in b && x !in a {
      SubsetSize(a, b - {x});
    }
  }

  /** Runs one after the other with a fixed cutoff and no mixing in between. */
  ghost predicate CollectRuns(runs: seq<Codecs>, cutoff: int) {
    runs != [] && forall i :: 0 <= i < |runs| - 1 ==> Collects(runs[i], cutoff, runs[i + 1])
  }

  lemma {:induction false} StaleAfterRuns(runs: seq<Codecs>, cutoff: int, k: nat)
    requires CollectRuns(runs, cutoff) && k < |runs|
    ensures var n := |Stale(runs[0], cutoff)|;
      |Stale(runs[k], cutoff)| == if n < GC_SLOTS * k then 0 else n - GC_SLOTS * k
    ensures forall s :: s in runs[k] ==> s in runs[0] && runs[k][s] == runs[0][s]
    ensures forall s :: s in runs[0] && runs[0][s].lastUsed >= cutoff ==> s in runs[k]
  {
    if k > 0 {
      StaleAfterRuns(runs, cutoff, k - 1);
      assert Collects(runs[k - 1], cutoff, runs[k - 1 + 1]);
      CollectSparesUsed(runs[k - 1], cutoff, runs[k]);
    }
  }

  /** n stale streams are cleared after exactly n / 10 runs, rounded up, and the codecs used since
      the cutoff are what is left. */
  lemma CollectClearsInTime(runs: seq<Codecs>, cutoff: int, k: nat)
    requires CollectRuns(runs, cutoff) && k < |runs|
    ensures Stale(runs[k], cutoff) == {} <==> k >= (|Stale(runs[0], cutoff)| + GC_SLOTS - 1) / GC_SLOTS
    ensures Stale(runs[k], cutoff) == {} ==> runs[k] == runs[0] - Stale(runs[0], cutoff)
  {
    StaleAfterRuns(runs, cutoff, k);
    if Stale(runs[k], cutoff) == {} {
      forall s
        ensures s in runs[k] <==> s in runs[0] && s !in Stale(runs[0], cutoff)
      {
        if s in runs[k] { assert s !in Stale(runs[k], cutoff); }
      }
    }
  }

  // ----------------------------------------------------------------------- runs

  datatype Event =
    | Arrive(f: RtpFrame, locked: bool)
    | Tick(locked: bool, now: int)
    | Collect(cutoff: int, after: Codecs)

  ghost predicate Enabled(s: State, e: Event) {
    e.Collect? ==> Collects(s.codecs, e.cutoff, e.after)
  }

  function Step(c: Settings, s: State, e: Event): State
    requires c.max > 0
  {
    match e
    case Arrive(f, locked) => Arrived(c, s, f, locked)
    case Tick(locked, now) => MixTick(c, s, locked, now).0
    case Collect(_, after) => s.(codecs := after)
  }

  ghost predicate Possible(c: Settings, s: State, es: seq<Event>)
    requires c.max > 0
    decreases |es|
  {
    es == [] || (Enabled(s, es[0]) && Possible(c, Step(c, s, es[0]), es[1..]))
  }

  function Run(c: Settings, s: State, es: seq<Event>): State
    requires c.max > 0
    decreases |es|
  {
    if es == [] then s else Run(c, Step(c, s, es[0]), es[1..])
  }

  /** The stream to cancel has neither a frame in the buffer nor a codec. */
  ghost predicate Cancelled(c: Settings, s: State) {
    Column(s.stages, c.cancel) == [] && c.cancel !in s.codecs
  }

  ghost predicate Sound(c: Settings, s: State) {
    && Valid(s.stages) && |s.stages| <= c.max
    && s.added == s.freed + AllFrames(s.stages)
    && Cancelled(c, s)
  }

  lemma ArriveSound(c: Settings, s: State, f: RtpFrame, locked: bool)
    requires c.max > 0 && Sound(c, s)
    ensures Sound(c, Arrived(c, s, f, locked))
  {
    if f.ssrc != c.cancel && locked {
      var (stages, back) := Add(s.stages, c.max, f);
      AddValid(s.stages, c.max, f);
      AddKeepsYoungest(s.stages, c.max, f);
      AddOthers(s.stages, c.max, f, c.cancel);
      AddConserves(s.stages, c.max, f);
      Balance(s.added, s.freed, AllFrames(s.stages), AllFrames(stages), OneOrNone(back), multiset{f});
    } else {
      Balance(s.added, s.freed, AllFrames(s.stages), AllFrames(s.stages), multiset{f}, multiset{f});
    }
  }

  lemma Balance(added: multiset<RtpFrame>, freed: multiset<RtpFrame>, before: multiset<RtpFrame>, after: multiset<RtpFrame>,
                back: multiset<RtpFrame>, frame: multiset<RtpFrame>)
    requires added == freed + before && after + back == before + frame
    ensures added + frame == (freed + back) + after
  {
    assert (freed + back) + after == freed + (after + back);
  }

  /** A frame that may come in takes its place among those of its stream; what it displaces, or the
      frame itself if it may not, is freed. */
  lemma ArriveExactly(c: Settings, s: State, f: RtpFrame, locked: bool)
    requires c.max > 0 && Sound(c, s)
    ensures var t := Arrived(c, s, f, locked);
      && t.added == s.added + multiset{f} && t.codecs == s.codecs
      && if f.ssrc == c.cancel || !locked then t.stages == s.stages && t.freed == s.freed + multiset{f}
         else var (kept, back) := Keep(Column(s.stages, f.ssrc), c.max, f);
           && Column(t.stages, f.ssrc) == kept && t.freed == s.freed + OneOrNone(back)
           && forall x :: x != f.ssrc ==> Column(t.stages, x) == Column(s.stages, x)
  {
    AddKeepsYoungest(s.stages, c.max, f);
    forall x | x != f.ssrc
      ensures Column(Add(s.stages, c.max, f).0, x) == Column(s.stages, x)
    {
      AddOthers(s.stages, c.max, f, x);
    }
  }

  lemma TickKeepsFrames(c: Settings, s: State, locked: bool, now: int)
    requires c.max > 0 && Sound(c, s)
    ensures var t := MixTick(c, s, locked, now).0;
      Valid(t.stages) && |t.stages| <= c.max && t.added == t.freed + AllFrames(t.stages) && Column(t.stages, c.cancel) == []
  {
    if locked && s.stages != [] {
      FirstStageIsOldest(s.stages, c.cancel);
      Regroup(s.freed, multiset(s.stages[0]), AllFrames(s.stages[1..]));
    }
  }

  lemma TickKeepsCancelled(c: Settings, s: State, locked: bool, now: int)
    requires c.max > 0 && Sound(c, s)
    ensures c.cancel !in MixTick(c, s, locked, now).0.codecs
  {
    if locked && s.stages != [] {
      var frames := s.stages[0];
      FirstStageIsOldest(s.stages, c.cancel);
      FindIn(frames, c.cancel);
      MixDecodesOnce(c.decoder, StartMixing(s.codecs, c.samples), frames, now);
      assert forall f :: f in frames ==> f.ssrc != c.cancel;
    }
  }

  lemma TickSound(c: Settings, s: State, locked: bool, now: int)
    requires c.max > 0 && Sound(c, s)
    ensures Sound(c, MixTick(c, s, locked, now).0)
  {
    TickKeepsFrames(c, s, locked, now);
    TickKeepsCancelled(c, s, locked, now);
  }

  lemma StepSound(c: Settings, s: State, e: Event)
    requires c.max > 0 && Sound(c, s) && Enabled(s, e)
    ensures Sound(c, Step(c, s, e))
  {
    match e
    case Arrive(f, locked) => ArriveSound(c, s, f, locked);
    case Tick(locked, now) => TickSound(c, s, locked, now);
    case Collect(cutoff, after) => CollectSparesUsed(s.codecs, cutoff, after);
  }

  lemma {:induction false} RunSound(c: Settings, s: State, es: seq<Event>)
    requires c.max > 0 && Sound(c, s) && Possible(c, s, es)
    ensures Sound(c, Run(c, s, es))
    decreases |es|
  {
    if es != [] {
      StepSound(c, s, es[0]);
      RunSound(c, Step(c, s, es[0]), es[1..]);
    }
  }

  /** Over every run each frame added has been freed exactly once or is still in the buffer, and
      the stream to cancel has no frame there and no codec. */
  lemma FramesAreAccountedFor(c: Settings, es: seq<Event>)
    requires c.max > 0 && Possible(c, INIT, es)
    ensures var s := Run(c, INIT, es);
      && s.added == s.freed + AllFrames(s.stages)
      && c.cancel !in s.codecs && forall k, f :: 0 <= k < |s.stages| && f in s.stages[k] ==> f.ssrc != c.cancel
  {
    EmptyIsValid();
    RunSound(c, INIT, es);
    var s := Run(c, INIT, es);
    forall k, f | 0 <= k < |s.stages| && f in s.stages[k]
      ensures f.ssrc != c.cancel
    {
      NoColumnNoFrame(s.stages, c.cancel, k);
      FindIn(s.stages[k], c.cancel);
    }
  }

  lemma {:induction false} NoColumnNoFrame(stages: seq<Stage>, s: Ssrc, k: nat)
    requires Column(stages, s) == [] && k < |stages|
    ensures Find(stages[k], s) == None
  {
    if k > 0 { NoColumnNoFrame(stages[1..], s, k - 1); }
  }

  /** The frames mixed in one tick come from pairwise different streams, so that their order in
      the stage does not matter. */
  lemma TickOrderDoesNotMatter(c: Settings, es: seq<Event>, frames: seq<RtpFrame>, now: int)
    requires c.max > 0 && Possible(c, INIT, es) && Run(c, INIT, es).stages != []
    requires multiset(frames) == multiset(Run(c, INIT, es).stages[0]) && |frames| <= 65536
    ensures var s := Run(c, INIT, es);
      MixFrames(c.decoder, s.codecs, frames, c.samples, now) == MixFrames(c.decoder, s.codecs, s.stages[0], c.samples, now)
  {
    EmptyIsValid();
    RunSound(c, INIT, es);
    var stage := Run(c, INIT, es).stages[0];
    FirstStageIsOldest(Run(c, INIT, es).stages, c.cancel);
    PermutedDistinct(stage, frames);
    assert |stage| == |multiset(stage)| == |multiset(frames)| == |frames|;
    OrderDoesNotMatter(c.decoder, Run(c, INIT, es).codecs, frames, stage, c.samples, now);
  }

  /** Frames of pairwise different streams stay so in another order. */
  lemma PermutedDistinct(xs: seq<RtpFrame>, ys: seq<RtpFrame>)
    requires DistinctStreams(xs) && multiset(xs) == multiset(ys)
    ensures DistinctStreams(ys)
  {
    forall i, j | 0 <= i < j < |ys|
      ensures ys[i].ssrc != ys[j].ssrc
    {
      var x, y := ys[i], ys[j];
      assert x in multiset(ys) && y in multiset(ys);
      assert x in multiset(xs) && y in multiset(xs);
      if x == y {
        assert ys == ys[..i] + [x] + ys[i + 1..j] + [x] + ys[j + 1..];
        assert multiset(ys)[x] >= 2;
        OnceOnly(xs, x);
      } else {
        var a :| 0 <= a < |xs| && xs[a] == x;
        var b :| 0 <= b < |xs| && xs[b] == y;
      }
    }
  }

  lemma {:induction false} OnceOnly(xs: seq<RtpFrame>, x: RtpFrame)
    requires DistinctStreams(xs)
    ensures multiset(xs)[x] <= 1
  {
    if xs != [] {
      assert xs == [xs[0]] + xs[1..];
      assert multiset(xs) == multiset{xs[0]} + multiset(xs[1..]);
      OnceOnly(xs[1..], x);
    }
  }

  // ---------------------------------------------------------------------- class

  class RtpMixer {
    const c: Settings
    const frameBuffer: RtpFrameBuffer
    var codecs: Codecs
    var added: multiset<RtpFrame>
    var freed: multiset<RtpFrame>
    var chunker: seq<seq<int>>

    function View(): State
      reads this, frameBuffer
    {
      State(frameBuffer.stages, codecs, added, freed)
    }

    ghost predicate Fits() {
      frameBuffer.max == c.max > 0
    }

    constructor (settings: Settings, buffer: RtpFrameBuffer)
      requires buffer.max == settings.max > 0 && buffer.stages == []
      ensures Fits() && c == settings && frameBuffer == buffer && View() == INIT && chunker == []
    {
      c, frameBuffer := settings, buffer;
      codecs, added, freed, chunker := map[], multiset{}, multiset{}, [];
    }

    method AddFrame(f: RtpFrame, locked: bool)
      requires Fits()
      modifies this, frameBuffer
      ensures View() == Arrived(c, old(View()), f, locked) && chunker == old(chunker)
    {
      added := added + multiset{f};
      var remainder := Some(f);
      if f.ssrc != c.cancel && locked {
        remainder := frameBuffer.AddFrame(f);
      }
      match remainder {
        case Some(g) => freed := freed + multiset{g};
        case None =>
      }
    }

    /** get_codec_for_ssrc and decode_frame. */
    method DecodeFrame(f: RtpFrame, now: int) returns (samples: seq<Sample>)
      modifies this`codecs
      ensures codecs == Use(c.decoder, old(codecs), f, now) && samples == Decoded(c.decoder, old(codecs), f).1
    {
      var entry := if f.ssrc in codecs then codecs[f.ssrc] else CodecEntry(c.decoder.create(f.ssrc), now);
      var (state, decoded) := c.decoder.decode(entry.state, f);
      codecs := codecs[f.ssrc := CodecEntry(state, now)];
      samples := decoded;
    }

    /** The body of the loop of mix_frames: decode, widen, add, free. */
    method MixFrame(f: RtpFrame, now: int, decoded32: array<int>, mixed32: array<int>, numMixed: nat) returns (n: nat)
      requires decoded32.Length == mixed32.Length == c.samples && decoded32 != mixed32
      modifies this`codecs, this`freed, decoded32, mixed32
      ensures Mixing(codecs, mixed32[..], n) == MixOne(c.decoder, Mixing(old(codecs), old(mixed32[..]), numMixed), f, now)
      ensures freed == old(freed) + multiset{f}
    {
      n := numMixed;
      var samples := DecodeFrame(f, now);
      if |samples| == c.samples {
        var decoded16 := new int[c.samples](k requires 0 <= k < c.samples => samples[k]);
        assert decoded16[..] == samples;
        ScaleTo32(decoded16, decoded32);
        Add32(mixed32, decoded32);
        n := n + 1;
      }
      freed := freed + multiset{f};
    }

    /** mix_frames. */
    method MixFrameList(frames: seq<RtpFrame>, now: int) returns (pcm16: array<int>)
      modifies this`codecs, this`freed
      ensures fresh(pcm16)
      ensures (codecs, pcm16[..]) == MixFrames(c.decoder, old(codecs), frames, c.samples, now)
      ensures freed == old(freed) + multiset(frames)
    {
      var decoded32 := new int[c.samples](_ => 0);
      var mixed32 := new int[c.samples](_ => 0);
      var numMixed: nat := 0;
      assert mixed32[..] == Silence(c.samples);
      var rest := frames;
      while rest != []
        invariant fresh(decoded32) && fresh(mixed32) && decoded32 != mixed32
        invariant decoded32.Length == mixed32.Length == c.samples
        invariant freed + multiset(rest) == old(freed) + multiset(frames)
        invariant MixAll(c.decoder, Mixing(codecs, mixed32[..], numMixed), rest, now)
               == MixAll(c.decoder, StartMixing(old(codecs), c.samples), frames, now)
        decreases |rest|
      {
        assert rest == [rest[0]] + rest[1..];
        numMixed := MixFrame(rest[0], now, decoded32, mixed32, numMixed);
        rest := rest[1..];
      }
      pcm16 := new int[c.samples](_ => 0);
      Scale32(mixed32, if numMixed == 0 then 1 else numMixed);
      ClipTo16(mixed32, pcm16);
    }

    /** ov_rtp_mixer_mix with process_frames. */
    method Mix(locked: bool, now: int) returns (ok: bool)
      requires Fits()
      modifies this, frameBuffer
      ensures var (s, out) := MixTick(c, old(View()), locked, now);
        View() == s && ok == out.Some? && chunker == old(chunker) + if ok then [out.value] else []
    {
      var frames: Option<Stage> := None;
      if locked {
        frames := frameBuffer.GetCurrentFrames();
      }
      match frames {
        case None => ok := false;
        case Some(list) =>
          var mixed := MixFrameList(list, now);
          chunker := chunker + [mixed[..]];
          ok := true;
      }
    }

    /** ov_rtp_mixer_garbage_collect: collect up to ten stale streams in the order of the
        dictionary, then delete them. */
    method GarbageCollect(now: int, maxLifetimeSecs: nat)
      modifies this`codecs
      ensures Collects(old(codecs), now - maxLifetimeSecs, codecs)
    {
      var cutoff := now - maxLifetimeSecs;
      var ssids := CollectStaleStreamSsids(cutoff);
      SizeOfDistinct(ssids);
      var rest := ssids;
      while rest != []
        invariant codecs - Members(rest) == old(codecs) - Members(ssids)
        decreases |rest|
      {
        assert Members(rest) == {rest[0]} + Members(rest[1..]) by { assert rest == [rest[0]] + rest[1..]; }
        codecs := codecs - {rest[0]};
        rest := rest[1..];
      }
      assert codecs - {} == codecs;
    }

    /** collect_stale_stream_ssids over the codecs: stop when all slots are taken. */
    method CollectStaleStreamSsids(cutoff: int) returns (ssids: seq<Ssrc>)
      ensures forall i, j :: 0 <= i < j < |ssids| ==> ssids[i] != ssids[j]
      ensures forall s :: s in ssids ==> s in Stale(codecs, cutoff)
      ensures |ssids| == if |Stale(codecs, cutoff)| < GC_SLOTS then |Stale(codecs, cutoff)| else GC_SLOTS
    {
      ssids := [];
      var todo := codecs.Keys;
      while todo != {} && |ssids| < GC_SLOTS
        invariant todo <= codecs.Keys && |ssids| <= GC_SLOTS
        invariant forall i, j :: 0 <= i < j < |ssids| ==> ssids[i] != ssids[j]
        invariant forall s :: s in ssids <==> s in Stale(codecs, cutoff) && s !in todo
        decreases todo
      {
        var key :| key in todo;
        if codecs[key].lastUsed < cutoff {
          ssids := ssids + [key];
        }
        todo := todo - {key};
      }
      SizeOfDistinct(ssids);
      SubsetSize(Members(ssids), Stale(codecs, cutoff));
      if todo == {} { assert Members(ssids) == Stale(codecs, cutoff); }
    }
  }

  function Members(xs: seq<Ssrc>): set<Ssrc> {
    set x | x in xs
  }

  lemma {:induction false} SizeOfDistinct(xs: seq<Ssrc>)
    requires forall i, j :: 0 <= i < j < |xs| ==> xs[i] != xs[j]
    ensures |Members(xs)| == |xs|
  {
    if xs == [] {
      assert Members(xs) == {};
    } else {
      FirstIsNew(xs);
      SizeOfDistinct(xs[1..]);
    }
  }

  lemma FirstIsNew(xs: seq<Ssrc>)
    requires xs != [] && forall i, j :: 0 <= i < j < |xs| ==> xs[i] != xs[j]
    ensures Members(xs) == {xs[0]} + Members(xs[1..]) && xs[0] !in Members(xs[1..])
    ensures forall i, j :: 0 <= i < j < |xs[1..]| ==> xs[1..][i] != xs[1..][j]
  {
    assert xs == [xs[0]] + xs[1..];
  }

  lemma SubsetSize(a: set<Ssrc>, b: set<Ssrc>)
    requires a <= b
    ensures |a| <= |b|
  {
    assert b == a + (b - a);
  }
}
