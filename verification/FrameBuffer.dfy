/** The RTP frame buffer in front of the mixer (ov_rtp_frame_buffer.c).

    Frames are kept in stages, oldest first; a stage has at most one frame of each
    stream, sorted by SSRC (section 5.1 of RFC 3550). Per stream this amounts to
    keeping the frames with the highest sequence numbers, in order. */
module FrameBuffer {
  import opened Options
  import opened Framing
  import opened Multisets

  type Ssrc = x: int | 0 <= x < 0x1_0000_0000

  /** id stands for the address of a frame. */
  datatype RtpFrame = RtpFrame(id: nat, ssrc: Ssrc, seqno: nat, payload: seq<byte>)

  type Stage = seq<RtpFrame>

  /** How an insertion ended: the frame has found a place, a frame is left over for the next
      stage, or a frame with its sequence number is there already. */
  datatype Inserted<T> = Placed(stages: T) | Over(stages: T, frame: RtpFrame) | Present(stages: T)

  // ----------------------------------------------------------------- one stage

  predicate Sorted(st: Stage) {
    forall i, j :: 0 <= i < j < |st| ==> st[i].ssrc < st[j].ssrc
  }

  function Find(st: Stage, s: Ssrc): Option<RtpFrame> {
    if st == [] then None else if st[0].ssrc == s then Some(st[0]) else Find(st[1..], s)
  }

  function InsertIntoStage(st: Stage, f: RtpFrame): Inserted<Stage> {
    if st == [] || f.ssrc < st[0].ssrc then Placed([f] + st)
    else if f.ssrc > st[0].ssrc then
      match InsertIntoStage(st[1..], f)
      case Placed(rest) => Placed([st[0]] + rest)
      case Over(rest, g) => Over([st[0]] + rest, g)
      case Present(rest) => Present([st[0]] + rest)
    else if f.seqno > st[0].seqno then Over(st, f)
    else if f.seqno == st[0].seqno then Present(st)
    else Over([f] + st[1..], st[0])
  }

  function DropFromStage(st: Stage, s: Ssrc): Stage {
    if st == [] then [] else if st[0].ssrc == s then st[1..] else [st[0]] + DropFromStage(st[1..], s)
  }

  // ---------------------------------------------------------------- all stages

  function InsertIntoStages(stages: seq<Stage>, f: RtpFrame): Inserted<seq<Stage>> {
    if stages == [] then Over([], f)
    else
      match InsertIntoStage(stages[0], f)
      case Placed(st) => Placed([st] + stages[1..])
      case Present(st) => Present([st] + stages[1..])
      case Over(st, g) =>
        match InsertIntoStages(stages[1..], g)
        case Placed(rest) => Placed([st] + rest)
        case Present(rest) => Present([st] + rest)
        case Over(rest, h) => Over([st] + rest, h)
  }

  /** The frame of a stream is taken out of a stage and that of the next stage put in. */
  function Shifted(st: Stage, s: Ssrc, next: Option<RtpFrame>): Stage {
    var u := DropFromStage(st, s);
    match next
    case Some(g) => InsertIntoStage(u, g).stages
    case None => u
  }

  function FindInFirst(stages: seq<Stage>, s: Ssrc): Option<RtpFrame> {
    if stages == [] then None else Find(stages[0], s)
  }

  /** drop_oldest_frame: the frames of a stream that is in every stage move one stage forward. */
  function ShiftForward(stages: seq<Stage>, s: Ssrc): seq<Stage> {
    if stages == [] then []
    else [Shifted(stages[0], s, FindInFirst(stages[1..], s))] + ShiftForward(stages[1..], s)
  }

  function Add(stages: seq<Stage>, max: nat, f: RtpFrame): (seq<Stage>, Option<RtpFrame>)
    requires max > 0
  {
    match InsertIntoStages(if stages == [] then EMPTY_STAGE else stages, f)
    case Placed(ss) => (ss, None)
    case Present(ss) => (ss, Some(f))
    case Over(ss, g) => (PlaceLeftOver(ss, max, g), if |ss| < max then None else FindInFirst(ss, g.ssrc))
  }

  /** A frame that no stage has room for gets a stage of its own, or takes the place of the
      oldest frame of its stream. */
  function PlaceLeftOver(ss: seq<Stage>, max: nat, g: RtpFrame): seq<Stage> {
    if |ss| < max then ss + [[g]] else InsertIntoStages(ShiftForward(ss, g.ssrc), g).stages
  }

  // ------------------------------------------------------------------- columns

  /** The frames of a stream, stage by stage. */
  function Column(stages: seq<Stage>, s: Ssrc): seq<RtpFrame> {
    if stages == [] then []
    else (match Find(stages[0], s) case Some(f) => [f] case None => []) + Column(stages[1..], s)
  }

  /** A stream occupies a prefix of the stages. */
  predicate Compact(stages: seq<Stage>, s: Ssrc) {
    stages == [] || if Find(stages[0], s).Some? then Compact(stages[1..], s) else Column(stages[1..], s) == []
  }

  predicate Increasing(fs: seq<RtpFrame>) {
    forall i, j :: 0 <= i < j < |fs| ==> fs[i].seqno < fs[j].seqno
  }

  ghost predicate Valid(stages: seq<Stage>) {
    && (forall i :: 0 <= i < |stages| ==> Sorted(stages[i]))
    && (forall s {:trigger Column(stages, s)} :: Compact(stages, s) && Increasing(Column(stages, s)))
  }

  /** The reference: a stream's frames in order of sequence number, with one more. */
  function Merge(fs: seq<RtpFrame>, f: RtpFrame): seq<RtpFrame> {
    if fs == [] || f.seqno < fs[0].seqno then [f] + fs else [fs[0]] + Merge(fs[1..], f)
  }

  predicate HasSeqno(fs: seq<RtpFrame>, q: nat) {
    exists i :: 0 <= i < |fs| && fs[i].seqno == q
  }

  function AllFrames(stages: seq<Stage>): multiset<RtpFrame> {
    if stages == [] then multiset{} else multiset(stages[0]) + AllFrames(stages[1..])
  }

  // ------------------------------------------------------------------ one stage

  lemma {:induction false} FindIn(st: Stage, s: Ssrc)
    ensures match Find(st, s)
            case Some(f) => f in st && f.ssrc == s
            case None => forall f :: f in st ==> f.ssrc != s
  {
    if st != [] { FindIn(st[1..], s); }
  }

  lemma {:induction false} InsertStageFinds(st: Stage, f: RtpFrame, s: Ssrc)
    requires Sorted(st)
    ensures s != f.ssrc ==> Find(InsertIntoStage(st, f).stages, s) == Find(st, s)
    ensures match InsertIntoStage(st, f)
            case Placed(t) => Find(st, f.ssrc) == None && Find(t, f.ssrc) == Some(f)
            case Present(t) => t == st && Find(st, f.ssrc).Some? && Find(st, f.ssrc).value.seqno == f.seqno
            case Over(t, g) =>
              var c := Find(st, f.ssrc);
              && c.Some? && c.value.seqno != f.seqno
              && (f.seqno > c.value.seqno ==> g == f && t == st)
              && (f.seqno < c.value.seqno ==> g == c.value && Find(t, f.ssrc) == Some(f))
  {
    if st == [] {
      assert [f] + st == [f];
    } else if f.ssrc < st[0].ssrc {
      assert ([f] + st)[1..] == st;
      FindIn(st, f.ssrc);
    } else if f.ssrc > st[0].ssrc {
      InsertStageFinds(st[1..], f, s);
      var rest := InsertIntoStage(st[1..], f).stages;
      assert ([st[0]] + rest)[1..] == rest;
      assert [st[0]] + st[1..] == st;
    } else {
      assert ([f] + st[1..])[1..] == st[1..];
    }
  }

  lemma SortedCons(f: RtpFrame, st: Stage)
    requires Sorted(st) && forall g :: g in st ==> f.ssrc < g.ssrc
    ensures Sorted([f] + st)
  {
    forall i, j | 0 <= i < j < |[f] + st|
      ensures ([f] + st)[i].ssrc < ([f] + st)[j].ssrc
    {
      assert st[j - 1] in st;
    }
  }

  lemma SortedHead(st: Stage)
    requires Sorted(st) && st != []
    ensures Sorted(st[1..]) && forall g :: g in st[1..] ==> st[0].ssrc < g.ssrc
  {
  }

  lemma {:induction false} InsertStageSorted(st: Stage, f: RtpFrame)
    requires Sorted(st)
    ensures var r := InsertIntoStage(st, f);
      && Sorted(r.stages) && (forall g :: g in r.stages ==> g in st || g == f)
      && (r.Over? ==> r.frame.ssrc == f.ssrc)
  {
    if st == [] {
    } else if f.ssrc > st[0].ssrc {
      SortedHead(st);
      InsertStageSorted(st[1..], f);
      SortedCons(st[0], InsertIntoStage(st[1..], f).stages);
    } else {
      SortedHead(st);
      if f.ssrc < st[0].ssrc { SortedCons(f, st); } else { SortedCons(f, st[1..]); }
    }
  }

  /** What an insertion leaves over, and nothing else, is not in the stages afterwards. */
  function LeftOver<T>(r: Inserted<T>, f: RtpFrame): multiset<RtpFrame> {
    match r
    case Placed(_) => multiset{}
    case Over(_, g) => multiset{g}
    case Present(_) => multiset{f}
  }

  lemma {:induction false} InsertStageConserves(st: Stage, f: RtpFrame)
    ensures var r := InsertIntoStage(st, f);
      multiset(r.stages) + LeftOver(r, f) == multiset(st) + multiset{f}
  {
    if st != [] {
      assert st == [st[0]] + st[1..];
      assert multiset(st) == multiset{st[0]} + multiset(st[1..]);
      var r := InsertIntoStage(st, f);
      if f.ssrc > st[0].ssrc {
        InsertStageConserves(st[1..], f);
        var q := InsertIntoStage(st[1..], f);
        assert multiset([st[0]] + q.stages) == multiset{st[0]} + multiset(q.stages);
        assert LeftOver(r, f) == LeftOver(q, f) && r.stages == [st[0]] + q.stages;
        assert (multiset{st[0]} + multiset(q.stages)) + LeftOver(q, f)
            == multiset{st[0]} + (multiset(q.stages) + LeftOver(q, f));
        assert multiset(r.stages) + LeftOver(r, f) == multiset(st) + multiset{f};
      } else if f.ssrc == st[0].ssrc && f.seqno < st[0].seqno {
        assert multiset([f] + st[1..]) == multiset{f} + multiset(st[1..]);
        assert r.stages == [f] + st[1..] && LeftOver(r, f) == multiset{st[0]};
        assert multiset(r.stages) + LeftOver(r, f) == multiset(st) + multiset{f};
      } else if f.ssrc < st[0].ssrc {
        assert multiset([f] + st) == multiset{f} + multiset(st);
        assert multiset(r.stages) + LeftOver(r, f) == multiset(st) + multiset{f};
      }
    }
  }

  lemma {:induction false} DropSorted(st: Stage, s: Ssrc)
    requires Sorted(st)
    ensures Sorted(DropFromStage(st, s)) && (forall g :: g in DropFromStage(st, s) ==> g in st)
  {
    if st != [] {
      SortedHead(st);
      DropSorted(st[1..], s);
      SortedCons(st[0], DropFromStage(st[1..], s));
      DropSubset(st, s);
    }
  }

  lemma {:induction false} DropSubset(st: Stage, s: Ssrc)
    ensures forall g :: g in DropFromStage(st, s) ==> g in st
  {
    if st != [] { DropSubset(st[1..], s); }
  }

  lemma {:induction false} DropFinds(st: Stage, s: Ssrc, x: Ssrc)
    requires Sorted(st)
    ensures Find(DropFromStage(st, s), x) == if x == s then None else Find(st, x)
  {
    if st != [] {
      if st[0].ssrc == s {
        FindIn(st[1..], s);
      } else {
        DropFinds(st[1..], s, x);
        var rest := DropFromStage(st[1..], s);
        assert ([st[0]] + rest)[1..] == rest;
      }
    }
  }

  lemma {:induction false} DropConserves(st: Stage, s: Ssrc)
    ensures match Find(st, s)
            case Some(f) => multiset(DropFromStage(st, s)) + multiset{f} == multiset(st)
            case None => DropFromStage(st, s) == st
  {
    if st != [] {
      assert st == [st[0]] + st[1..];
      assert multiset(st) == multiset{st[0]} + multiset(st[1..]);
      if st[0].ssrc != s {
        DropConserves(st[1..], s);
        var rest := DropFromStage(st[1..], s);
        assert multiset([st[0]] + rest) == multiset{st[0]} + multiset(rest);
      }
    }
  }

  // ------------------------------------------------------------------- columns

  ghost predicate AllSorted(stages: seq<Stage>) {
    forall i :: 0 <= i < |stages| ==> Sorted(stages[i])
  }

  lemma {:induction false} ColumnLength(stages: seq<Stage>, s: Ssrc)
    ensures |Column(stages, s)| <= |stages|
    ensures forall f :: f in Column(stages, s) ==> f.ssrc == s
  {
    if stages != [] {
      FindIn(stages[0], s);
      ColumnLength(stages[1..], s);
    }
  }

  lemma ColumnCons(st: Stage, rest: seq<Stage>, s: Ssrc)
    ensures Column([st] + rest, s) == (match Find(st, s) case Some(f) => [f] case None => []) + Column(rest, s)
    ensures Compact([st] + rest, s) <==> if Find(st, s).Some? then Compact(rest, s) else Column(rest, s) == []
  {
    assert ([st] + rest)[1..] == rest;
  }

  /** The column of f's stream after an insertion that ended in r. */
  ghost predicate ColumnAfter(stages: seq<Stage>, f: RtpFrame, r: Inserted<seq<Stage>>) {
    var col := Column(stages, f.ssrc);
    && |r.stages| == |stages| && Compact(r.stages, f.ssrc)
    && (r.Present? <==> HasSeqno(col, f.seqno))
    && (match r
        case Present(ss) => Column(ss, f.ssrc) == col
        case Placed(ss) => |col| < |stages| && Column(ss, f.ssrc) == Merge(col, f)
        case Over(ss, g) => |col| == |stages| && g.ssrc == f.ssrc && Column(ss, f.ssrc) + [g] == Merge(col, f))
  }

  /** The stage has an older frame of the stream: the new one goes on to the next stages. */
  lemma PassNewer(st: Stage, rest: seq<Stage>, f: RtpFrame, c: RtpFrame)
    requires Find(st, f.ssrc) == Some(c) && f.seqno > c.seqno
    requires ColumnAfter(rest, f, InsertIntoStages(rest, f))
    requires InsertIntoStage(st, f) == Over(st, f)
    ensures ColumnAfter([st] + rest, f, InsertIntoStages([st] + rest, f))
  {
    var p := InsertIntoStages(rest, f);
    assert ([st] + rest)[1..] == rest;
    ColumnCons(st, rest, f.ssrc);
    ColumnCons(st, p.stages, f.ssrc);
    var col := [c] + Column(rest, f.ssrc);
    assert col[1..] == Column(rest, f.ssrc);
    HasSeqnoTail(col, f.seqno);
    if p.Over? {
      assert ([c] + Column(p.stages, f.ssrc)) + [p.frame] == [c] + (Column(p.stages, f.ssrc) + [p.frame]);
    }
  }

  lemma OldestInFront(c: RtpFrame, tail: seq<RtpFrame>, f: RtpFrame)
    requires Increasing([c] + tail) && f.seqno < c.seqno
    ensures !HasSeqno([c] + tail, f.seqno) && !HasSeqno(tail, c.seqno)
    ensures Merge(tail, c) == [c] + tail && Merge([c] + tail, f) == [f] + ([c] + tail)
  {
    var col := [c] + tail;
    assert forall i :: 0 <= i < |col| ==> col[0].seqno <= col[i].seqno;
    assert forall i :: 0 <= i < |tail| ==> tail[i] == col[i + 1] && col[0].seqno < col[i + 1].seqno;
  }

  /** The stage has a newer frame of the stream: that one makes room and goes on. */
  lemma PassDisplaced(st: Stage, rest: seq<Stage>, f: RtpFrame, c: RtpFrame, st': Stage)
    requires Find(st, f.ssrc) == Some(c) && f.seqno < c.seqno && c.ssrc == f.ssrc
    requires Increasing([c] + Column(rest, f.ssrc))
    requires ColumnAfter(rest, c, InsertIntoStages(rest, c))
    requires InsertIntoStage(st, f) == Over(st', c) && Find(st', f.ssrc) == Some(f)
    ensures ColumnAfter([st] + rest, f, InsertIntoStages([st] + rest, f))
  {
    var p := InsertIntoStages(rest, c);
    assert ([st] + rest)[1..] == rest;
    ColumnCons(st, rest, f.ssrc);
    ColumnCons(st', p.stages, f.ssrc);
    var tail := Column(rest, f.ssrc);
    var col := [c] + tail;
    OldestInFront(c, tail, f);
    if p.Over? {
      assert ([f] + Column(p.stages, f.ssrc)) + [p.frame] == [f] + (Column(p.stages, f.ssrc) + [p.frame]);
    }
  }

  /** The first stage takes the frame: the stream has no frames yet. */
  lemma TakenAtOnce(st: Stage, rest: seq<Stage>, f: RtpFrame, st': Stage)
    requires Sorted(st) && Compact([st] + rest, f.ssrc) && InsertIntoStage(st, f) == Placed(st')
    ensures ColumnAfter([st] + rest, f, Placed([st'] + rest))
  {
    InsertStageFinds(st, f, f.ssrc);
    ColumnCons(st, rest, f.ssrc);
    ColumnCons(st', rest, f.ssrc);
    assert Column([st] + rest, f.ssrc) == [] && Column([st'] + rest, f.ssrc) == [f];
    NoColumnIsCompact(rest, f.ssrc);
  }

  /** The first stage has a frame with the same sequence number. */
  lemma PresentAtOnce(st: Stage, rest: seq<Stage>, f: RtpFrame)
    requires Sorted(st) && Compact([st] + rest, f.ssrc) && InsertIntoStage(st, f) == Present(st)
    ensures ColumnAfter([st] + rest, f, Present([st] + rest))
  {
    InsertStageFinds(st, f, f.ssrc);
    ColumnCons(st, rest, f.ssrc);
    assert Column([st] + rest, f.ssrc)[0].seqno == f.seqno;
  }

  /** Insertion into the stages is insertion into the stream's column; what does not fit any
      more is the frame with the highest sequence number. */
  lemma {:induction false} InsertColumn(stages: seq<Stage>, f: RtpFrame)
    requires AllSorted(stages) && Compact(stages, f.ssrc) && Increasing(Column(stages, f.ssrc))
    ensures ColumnAfter(stages, f, InsertIntoStages(stages, f))
  {
    if stages == [] { return; }
    var st, rest := stages[0], stages[1..];
    var q := InsertIntoStage(st, f);
    assert stages == [st] + rest;
    InsertStageFinds(st, f, f.ssrc);
    if q.Placed? {
      TakenAtOnce(st, rest, f, q.stages);
      return;
    }
    if q.Present? {
      PresentAtOnce(st, rest, f);
      return;
    }
    FindIn(st, f.ssrc);
    var c := Find(st, f.ssrc).value;
    ColumnCons(st, rest, f.ssrc);
    TailIncreasing(Column(stages, f.ssrc));
    assert Column(stages, f.ssrc)[1..] == Column(rest, f.ssrc);
    InsertColumn(rest, q.frame);
    if f.seqno > c.seqno {
      PassNewer(st, rest, f, c);
    } else {
      PassDisplaced(st, rest, f, c, q.stages);
    }
  }

  lemma HasSeqnoTail(fs: seq<RtpFrame>, q: nat)
    requires fs != []
    ensures HasSeqno(fs, q) <==> fs[0].seqno == q || HasSeqno(fs[1..], q)
  {
    if HasSeqno(fs, q) {
      var i :| 0 <= i < |fs| && fs[i].seqno == q;
      if i > 0 { assert fs[1..][i - 1] == fs[i]; }
    }
    if HasSeqno(fs[1..], q) {
      var i :| 0 <= i < |fs[1..]| && fs[1..][i].seqno == q;
      assert fs[i + 1].seqno == q;
    }
  }

  lemma {:induction false} InsertOthers(stages: seq<Stage>, f: RtpFrame, x: Ssrc)
    requires AllSorted(stages)
    ensures var r := InsertIntoStages(stages, f);
      && |r.stages| == |stages| && AllSorted(r.stages)
      && (x != f.ssrc ==> Column(r.stages, x) == Column(stages, x) && (Compact(r.stages, x) <==> Compact(stages, x)))
  {
    if stages != [] {
      var st, rest := stages[0], stages[1..];
      var q := InsertIntoStage(st, f);
      assert stages == [st] + rest;
      InsertStageFinds(st, f, x);
      InsertStageSorted(st, f);
      ColumnCons(q.stages, rest, x);
      if q.Over? {
        InsertOthers(rest, q.frame, x);
        ColumnCons(q.stages, InsertIntoStages(rest, q.frame).stages, x);
      }
    }
  }

  lemma AllFramesCons(st: Stage, rest: seq<Stage>)
    ensures AllFrames([st] + rest) == multiset(st) + AllFrames(rest)
  {
    assert ([st] + rest)[1..] == rest;
  }

  /** x goes into a and leaves y over; y goes into b and leaves z over. */
  lemma PassOn<T>(a: multiset<T>, a': multiset<T>, b: multiset<T>, b': multiset<T>, x: multiset<T>, y: multiset<T>, z: multiset<T>)
    requires a' + y == a + x && b' + z == b + y
    ensures (a' + b') + z == (a + b) + x
  {
    assert (a' + b') + z == a' + (b + y) == (a + x) + b;
  }

  ghost predicate Conserves(stages: seq<Stage>, f: RtpFrame, r: Inserted<seq<Stage>>) {
    AllFrames(r.stages) + LeftOver(r, f) == AllFrames(stages) + multiset{f}
  }

  lemma StopsHere(st: Stage, rest: seq<Stage>, f: RtpFrame)
    requires !InsertIntoStage(st, f).Over?
    ensures Conserves([st] + rest, f, InsertIntoStages([st] + rest, f))
  {
    var q := InsertIntoStage(st, f);
    InsertStageConserves(st, f);
    AllFramesCons(st, rest);
    AllFramesCons(q.stages, rest);
    assert ([st] + rest)[1..] == rest;
    var none: multiset<RtpFrame> := LeftOver(q, f);
    PassOn(multiset(st), multiset(q.stages), AllFrames(rest), AllFrames(rest), multiset{f}, none, none);
  }

  lemma GoesOn(st: Stage, rest: seq<Stage>, f: RtpFrame)
    requires InsertIntoStage(st, f).Over?
    requires InsertIntoStages([st] + rest, f).Present? ==> InsertIntoStage(st, f).frame == f
    requires var g := InsertIntoStage(st, f).frame; Conserves(rest, g, InsertIntoStages(rest, g))
    ensures Conserves([st] + rest, f, InsertIntoStages([st] + rest, f))
  {
    var q := InsertIntoStage(st, f);
    var p := InsertIntoStages(rest, q.frame);
    InsertStageConserves(st, f);
    AllFramesCons(st, rest);
    AllFramesCons(q.stages, p.stages);
    assert ([st] + rest)[1..] == rest;
    PassOn(multiset(st), multiset(q.stages), AllFrames(rest), AllFrames(p.stages),
           multiset{f}, multiset{q.frame}, LeftOver(p, q.frame));
  }

  /** No frame gets lost or copied on its way through stages that are in order. */
  lemma {:induction false} InsertConserves(stages: seq<Stage>, f: RtpFrame)
    requires AllSorted(stages) && Compact(stages, f.ssrc) && Increasing(Column(stages, f.ssrc))
    ensures Conserves(stages, f, InsertIntoStages(stages, f))
  {
    if stages != [] {
      var st, rest := stages[0], stages[1..];
      var q := InsertIntoStage(st, f);
      assert stages == [st] + rest;
      if q.Over? {
        InsertStageFinds(st, f, f.ssrc);
        FindIn(st, f.ssrc);
        var c := Find(st, f.ssrc).value;
        var col := Column(stages, f.ssrc);
        assert col == [c] + Column(rest, f.ssrc) && col[1..] == Column(rest, f.ssrc);
        assert col[0] == c && forall i :: 0 <= i < |col| ==> col[0].seqno <= col[i].seqno;
        InsertColumn(stages, f);
        InsertConserves(rest, q.frame);
        GoesOn(st, rest, f);
      } else {
        StopsHere(st, rest, f);
      }
    }
  }

  // ------------------------------------------------------------- shift and add

  /** The stream is in every stage. */
  ghost predicate Everywhere(stages: seq<Stage>, s: Ssrc) {
    |Column(stages, s)| == |stages|
  }

  lemma EverywhereTail(stages: seq<Stage>, s: Ssrc)
    requires stages != [] && Everywhere(stages, s)
    ensures Find(stages[0], s).Some? && Find(stages[0], s).value.ssrc == s && Everywhere(stages[1..], s)
    ensures Column(stages, s) == [Find(stages[0], s).value] + Column(stages[1..], s)
    ensures FindInFirst(stages[1..], s) == if stages[1..] == [] then None else Some(Column(stages[1..], s)[0])
  {
    ColumnLength(stages[1..], s);
    FindIn(stages[0], s);
    if stages[1..] != [] { ColumnLength(stages[1..][1..], s); }
  }

  /** One stage of a shift: its frame of the stream goes, that of the next stage comes. */
  lemma ShiftStage(st: Stage, s: Ssrc, next: Option<RtpFrame>, x: Ssrc)
    requires Sorted(st) && (next.Some? ==> next.value.ssrc == s)
    ensures Sorted(Shifted(st, s, next))
    ensures Find(Shifted(st, s, next), x) == if x == s then next else Find(st, x)
  {
    var u := DropFromStage(st, s);
    DropSorted(st, s);
    DropFinds(st, s, x);
    DropFinds(st, s, s);
    if next.Some? {
      InsertStageSorted(u, next.value);
      InsertStageFinds(u, next.value, x);
    }
  }

  lemma {:induction false} ShiftColumn(stages: seq<Stage>, s: Ssrc)
    requires AllSorted(stages) && stages != [] && Everywhere(stages, s)
    ensures var r := ShiftForward(stages, s);
      |r| == |stages| && Compact(r, s) && Column(r, s) == Column(stages, s)[1..]
  {
    var rest := stages[1..];
    EverywhereTail(stages, s);
    var next := FindInFirst(rest, s);
    if rest != [] {
      EverywhereTail(rest, s);
      ShiftColumn(rest, s);
      assert [Column(rest, s)[0]] + Column(rest, s)[1..] == Column(rest, s);
    }
    ShiftStage(stages[0], s, next, s);
    ColumnCons(Shifted(stages[0], s, next), ShiftForward(rest, s), s);
  }

  lemma {:induction false} ShiftOthers(stages: seq<Stage>, s: Ssrc, x: Ssrc)
    requires AllSorted(stages) && Everywhere(stages, s)
    ensures var r := ShiftForward(stages, s);
      && AllSorted(r) && |r| == |stages|
      && (x != s ==> Column(r, x) == Column(stages, x) && (Compact(r, x) <==> Compact(stages, x)))
  {
    if stages != [] {
      var rest := stages[1..];
      EverywhereTail(stages, s);
      var next := FindInFirst(rest, s);
      if rest != [] { EverywhereTail(rest, s); }
      ShiftOthers(rest, s, x);
      ShiftStage(stages[0], s, next, x);
      ColumnCons(Shifted(stages[0], s, next), ShiftForward(rest, s), x);
    }
  }

  lemma ShiftStageConserves(st: Stage, s: Ssrc, next: Option<RtpFrame>)
    requires Sorted(st) && (next.Some? ==> next.value.ssrc == s)
    ensures multiset(Shifted(st, s, next)) + OneOrNone(Find(st, s)) == multiset(st) + OneOrNone(next)
  {
    var u := DropFromStage(st, s);
    var mine := OneOrNone(Find(st, s));
    DropConserves(st, s);
    assert multiset(u) + mine == multiset(st);
    if next.Some? {
      DropSorted(st, s);
      DropFinds(st, s, s);
      InsertPlaces(u, next.value);
      Swap(multiset(u), multiset{next.value}, mine);
    }
  }

  lemma InsertPlaces(st: Stage, f: RtpFrame)
    requires Sorted(st) && Find(st, f.ssrc) == None
    ensures multiset(InsertIntoStage(st, f).stages) == multiset(st) + multiset{f}
  {
    InsertStageFinds(st, f, f.ssrc);
    InsertStageConserves(st, f);
    assert LeftOver(InsertIntoStage(st, f), f) == multiset{};
  }

  lemma {:induction false} ShiftConserves(stages: seq<Stage>, s: Ssrc)
    requires AllSorted(stages) && Everywhere(stages, s)
    ensures AllFrames(ShiftForward(stages, s)) + OneOrNone(FindInFirst(stages, s)) == AllFrames(stages)
  {
    if stages != [] {
      var st, rest := stages[0], stages[1..];
      EverywhereTail(stages, s);
      var next := FindInFirst(rest, s);
      if rest != [] { EverywhereTail(rest, s); }
      ShiftConserves(rest, s);
      ShiftStageConserves(st, s, next);
      AllFramesCons(Shifted(st, s, next), ShiftForward(rest, s));
      PassOn(multiset(st), multiset(Shifted(st, s, next)), AllFrames(ShiftForward(rest, s)), AllFrames(ShiftForward(rest, s)),
             OneOrNone(next), OneOrNone(Find(st, s)), OneOrNone(Find(st, s)));
      Regroup(multiset(st), AllFrames(ShiftForward(rest, s)), OneOrNone(next));
    }
  }

  lemma {:induction false} MergeHas(fs: seq<RtpFrame>, f: RtpFrame, g: RtpFrame)
    ensures |Merge(fs, f)| == |fs| + 1 && (g in Merge(fs, f) <==> g in fs || g == f)
  {
    if fs != [] && !(f.seqno < fs[0].seqno) { MergeHas(fs[1..], f, g); }
  }

  lemma TailIncreasing(fs: seq<RtpFrame>)
    requires Increasing(fs) && fs != []
    ensures Increasing(fs[1..]) && forall g :: g in fs[1..] ==> fs[0].seqno < g.seqno
  {
    forall i, j | 0 <= i < j < |fs[1..]|
      ensures fs[1..][i].seqno < fs[1..][j].seqno
    {
      assert fs[i + 1].seqno < fs[j + 1].seqno;
    }
    forall g | g in fs[1..]
      ensures fs[0].seqno < g.seqno
    {
      var i :| 0 <= i < |fs[1..]| && fs[1..][i] == g;
      assert fs[i + 1] == g;
    }
  }

  lemma IncreasingCons(f: RtpFrame, fs: seq<RtpFrame>)
    requires Increasing(fs) && forall g :: g in fs ==> f.seqno < g.seqno
    ensures Increasing([f] + fs)
  {
  }

  lemma {:induction false} MergeFacts(fs: seq<RtpFrame>, f: RtpFrame)
    requires Increasing(fs) && !HasSeqno(fs, f.seqno)
    ensures |Merge(fs, f)| == |fs| + 1 && Increasing(Merge(fs, f))
  {
    MergeHas(fs, f, f);
    if fs != [] {
      TailIncreasing(fs);
      assert fs[0].seqno != f.seqno;
      if f.seqno < fs[0].seqno {
        forall g | g in fs
          ensures f.seqno < g.seqno
        {
          assert g == fs[0] || g in fs[1..];
        }
        IncreasingCons(f, fs);
      } else {
        HasSeqnoTail(fs, f.seqno);
        MergeFacts(fs[1..], f);
        forall g | g in Merge(fs[1..], f)
          ensures fs[0].seqno < g.seqno
        {
          MergeHas(fs[1..], f, g);
        }
        IncreasingCons(fs[0], Merge(fs[1..], f));
      }
    }
  }

  lemma {:induction false} MergeLast(fs: seq<RtpFrame>, g: RtpFrame)
    requires forall i :: 0 <= i < |fs| ==> fs[i].seqno < g.seqno
    ensures Merge(fs, g) == fs + [g]
  {
    if fs != [] { MergeLast(fs[1..], g); }
  }

  /** The stream's column after adding f, and the frame handed back. */
  function Keep(col: seq<RtpFrame>, max: nat, f: RtpFrame): (seq<RtpFrame>, Option<RtpFrame>)
    requires max > 0
  {
    var m := Merge(col, f);
    if HasSeqno(col, f.seqno) then (col, Some(f))
    else if |m| <= max then (m, None)
    else (m[1..], Some(m[0]))
  }

  lemma YoungestLast(col: seq<RtpFrame>, g: RtpFrame)
    requires col != [] && Increasing(col + [g])
    ensures Increasing(col[1..]) && !HasSeqno(col[1..], g.seqno) && Merge(col[1..], g) == col[1..] + [g]
  {
    var all := col + [g];
    assert forall i :: 0 <= i < |col| ==> all[i] == col[i] && all[i].seqno < all[|col|].seqno;
    assert forall i :: 0 <= i < |col[1..]| ==> col[1..][i] == all[i + 1];
    MergeLast(col[1..], g);
  }

  /** After a shift the last stage has room for a frame younger than all of its stream. */
  lemma ShiftMakesRoom(ss: seq<Stage>, g: RtpFrame)
    requires AllSorted(ss) && ss != [] && Everywhere(ss, g.ssrc) && Increasing(Column(ss, g.ssrc) + [g])
    ensures var sh := ShiftForward(ss, g.ssrc); var rest := Column(ss, g.ssrc)[1..];
      && |sh| == |ss| && AllSorted(sh) && Compact(sh, g.ssrc) && Column(sh, g.ssrc) == rest
      && Increasing(rest) && !HasSeqno(rest, g.seqno) && Merge(rest, g) == rest + [g]
  {
    ShiftColumn(ss, g.ssrc);
    ShiftOthers(ss, g.ssrc, g.ssrc);
    YoungestLast(Column(ss, g.ssrc), g);
  }

  /** All stages have a frame of g's stream and g is younger than all of them: the oldest goes. */
  lemma DropOldest(ss: seq<Stage>, g: RtpFrame)
    requires AllSorted(ss) && ss != [] && Everywhere(ss, g.ssrc) && Increasing(Column(ss, g.ssrc) + [g])
    ensures var r := InsertIntoStages(ShiftForward(ss, g.ssrc), g);
      && r.Placed? && |r.stages| == |ss| && Compact(r.stages, g.ssrc)
      && Column(r.stages, g.ssrc) == Column(ss, g.ssrc)[1..] + [g]
  {
    ShiftMakesRoom(ss, g);
    InsertColumn(ShiftForward(ss, g.ssrc), g);
  }

  lemma DropOldestConserves(ss: seq<Stage>, g: RtpFrame)
    requires AllSorted(ss) && ss != [] && Everywhere(ss, g.ssrc) && Increasing(Column(ss, g.ssrc) + [g])
    ensures var r := InsertIntoStages(ShiftForward(ss, g.ssrc), g);
      AllFrames(r.stages) + OneOrNone(Find(ss[0], g.ssrc)) == AllFrames(ss) + multiset{g}
  {
    var sh := ShiftForward(ss, g.ssrc);
    DropOldest(ss, g);
    ShiftMakesRoom(ss, g);
    ShiftConserves(ss, g.ssrc);
    InsertConserves(sh, g);
    Swap(AllFrames(sh), multiset{g}, OneOrNone(Find(ss[0], g.ssrc)));
  }

  lemma DropOldestOthers(ss: seq<Stage>, g: RtpFrame, x: Ssrc)
    requires AllSorted(ss) && Everywhere(ss, g.ssrc)
    ensures var r := InsertIntoStages(ShiftForward(ss, g.ssrc), g).stages;
      AllSorted(r) && (x != g.ssrc ==> Column(r, x) == Column(ss, x) && (Compact(r, x) <==> Compact(ss, x)))
  {
    ShiftOthers(ss, g.ssrc, x);
    InsertOthers(ShiftForward(ss, g.ssrc), g, x);
  }

  // --------------------------------------------------------------- main results

  const EMPTY_STAGE: seq<Stage> := [[]]

  lemma EmptyStage(s: Ssrc)
    ensures Column(EMPTY_STAGE, s) == [] && Compact(EMPTY_STAGE, s) && AllFrames(EMPTY_STAGE) == multiset{}
  {
    assert EMPTY_STAGE[1..] == [];
  }

  lemma AloneInStage(g: RtpFrame, x: Ssrc)
    ensures Find([g], x) == if x == g.ssrc then Some(g) else None
  {
    assert [g][1..] == [];
  }

  lemma {:induction false} NewStage(ss: seq<Stage>, g: RtpFrame, x: Ssrc)
    requires Compact(ss, x) && (x == g.ssrc ==> Everywhere(ss, x))
    ensures Column(ss + [[g]], x) == Column(ss, x) + (if x == g.ssrc then [g] else []) && Compact(ss + [[g]], x)
    decreases ss
  {
    if ss == [] {
      AloneInStage(g, x);
      assert ss + [[g]] == [[g]] + [];
      ColumnCons([g], [], x);
    } else {
      if x == g.ssrc { EverywhereTail(ss, x); }
      assert ss + [[g]] == [ss[0]] + (ss[1..] + [[g]]);
      ColumnCons(ss[0], ss[1..] + [[g]], x);
      if Find(ss[0], x).None? { NoColumnIsCompact(ss[1..], x); }
      NewStage(ss[1..], g, x);
    }
  }

  lemma {:induction false} NewStageConserves(ss: seq<Stage>, g: RtpFrame)
    ensures AllFrames(ss + [[g]]) == AllFrames(ss) + multiset{g}
    decreases ss
  {
    if ss == [] {
      assert ss + [[g]] == [[g]] && [[g]][1..] == [];
    } else {
      assert (ss + [[g]])[1..] == ss[1..] + [[g]];
      NewStageConserves(ss[1..], g);
      Regroup(multiset(ss[0]), AllFrames(ss[1..]), multiset{g});
    }
  }

  lemma ValidStream(stages: seq<Stage>, s: Ssrc)
    requires Valid(stages)
    ensures Compact(stages, s) && Increasing(Column(stages, s))
  {
    var col := Column(stages, s);
  }

  /** What insertion left over does not disturb the other streams. */
  lemma LeftOverOthers(ss: seq<Stage>, max: nat, g: RtpFrame, x: Ssrc)
    requires AllSorted(ss) && Everywhere(ss, g.ssrc) && Compact(ss, x)
    ensures var t := PlaceLeftOver(ss, max, g);
      AllSorted(t) && (x != g.ssrc ==> Column(t, x) == Column(ss, x) && Compact(t, x))
  {
    if |ss| < max {
      NewStage(ss, g, x);
    } else {
      DropOldestOthers(ss, g, x);
    }
  }

  /** Insertion starts with an empty stage if there is none. */
  lemma StartStages(stages: seq<Stage>, x: Ssrc)
    requires Valid(stages)
    ensures var start := if stages == [] then EMPTY_STAGE else stages;
      AllSorted(start) && Column(stages, x) == Column(start, x) && Compact(start, x) && Increasing(Column(start, x))
  {
    if stages == [] {
      EmptyStage(x);
    } else {
      ValidStream(stages, x);
    }
  }

  /** What insertion leaves when no stage has room. */
  lemma NoRoom(start: seq<Stage>, f: RtpFrame, x: Ssrc)
    requires AllSorted(start) && Compact(start, x) && Compact(start, f.ssrc) && Increasing(Column(start, f.ssrc))
    requires InsertIntoStages(start, f).Over?
    ensures var r := InsertIntoStages(start, f);
      && AllSorted(r.stages) && r.frame.ssrc == f.ssrc && Everywhere(r.stages, f.ssrc) && Compact(r.stages, x)
      && (x != f.ssrc ==> Column(r.stages, x) == Column(start, x))
  {
    InsertOthers(start, f, x);
    InsertColumn(start, f);
    MergeFacts(Column(start, f.ssrc), f);
  }

  /** Adding a frame keeps the streams of all other frames as they are. */
  lemma AddOthers(stages: seq<Stage>, max: nat, f: RtpFrame, x: Ssrc)
    requires Valid(stages) && |stages| <= max && max > 0
    ensures var ss := Add(stages, max, f).0;
      AllSorted(ss) && (x != f.ssrc ==> Column(ss, x) == Column(stages, x) && Compact(ss, x))
  {
    var start := if stages == [] then EMPTY_STAGE else stages;
    StartStages(stages, x);
    var r := InsertIntoStages(start, f);
    if r.Over? {
      StartStages(stages, f.ssrc);
      NoRoom(start, f, x);
      LeftOverOthers(r.stages, max, r.frame, x);
    } else {
      InsertOthers(start, f, x);
    }
  }

  /** What insertion left over is put into a new stage or displaces the oldest frame of its stream. */
  lemma LeftOverKept(ss: seq<Stage>, max: nat, g: RtpFrame)
    requires AllSorted(ss) && ss != [] && Compact(ss, g.ssrc) && Everywhere(ss, g.ssrc) && |ss| <= max
    requires Increasing(Column(ss, g.ssrc) + [g])
    ensures var m := Column(ss, g.ssrc) + [g];
      var t := PlaceLeftOver(ss, max, g);
      && Compact(t, g.ssrc) && |t| <= max
      && Column(t, g.ssrc) == (if |m| <= max then m else m[1..])
      && (|m| > max ==> Find(ss[0], g.ssrc) == Some(m[0]))
  {
    var col := Column(ss, g.ssrc);
    EverywhereTail(ss, g.ssrc);
    if |ss| < max {
      NewStage(ss, g, g.ssrc);
    } else {
      DropOldest(ss, g);
      assert (col + [g])[1..] == col[1..] + [g];
    }
  }

  /** Adding a frame is, for its stream, keeping the frames with the highest sequence numbers:
      a duplicate comes back, and so does the oldest frame when there is one too many. */
  lemma AddKeepsYoungest(stages: seq<Stage>, max: nat, f: RtpFrame)
    requires Valid(stages) && |stages| <= max && max > 0
    ensures var (ss, back) := Add(stages, max, f);
      && (Column(ss, f.ssrc), back) == Keep(Column(stages, f.ssrc), max, f)
      && Compact(ss, f.ssrc) && |ss| <= max
  {
    var s := f.ssrc;
    var start := if stages == [] then EMPTY_STAGE else stages;
    EmptyStage(s);
    ValidStream(stages, s);
    var col := Column(stages, s);
    assert Column(start, s) == col;
    ColumnLength(stages, s);
    InsertColumn(start, f);
    InsertOthers(start, f, s);
    var r := InsertIntoStages(start, f);
    if !r.Present? { MergeFacts(col, f); }
    if r.Over? { LeftOverKept(r.stages, max, r.frame); }
  }

  /** Every frame added is in the buffer or comes back, once. */
  lemma AddConserves(stages: seq<Stage>, max: nat, f: RtpFrame)
    requires Valid(stages) && |stages| <= max && max > 0
    ensures var (ss, back) := Add(stages, max, f);
      AllFrames(ss) + OneOrNone(back) == AllFrames(stages) + multiset{f}
  {
    var s := f.ssrc;
    var start := if stages == [] then EMPTY_STAGE else stages;
    EmptyStage(s);
    assert Column(start, s) == Column(stages, s) && Compact(start, s) && Increasing(Column(start, s));
    assert AllFrames(start) == AllFrames(stages);
    InsertConserves(start, f);
    InsertColumn(start, f);
    InsertOthers(start, f, s);
    var r := InsertIntoStages(start, f);
    if r.Over? {
      MergeFacts(Column(start, s), f);
      if |r.stages| < max {
        NewStageConserves(r.stages, r.frame);
      } else {
        DropOldestConserves(r.stages, r.frame);
      }
    }
  }

  lemma {:induction false} KeepIncreasing(col: seq<RtpFrame>, max: nat, f: RtpFrame)
    requires Increasing(col) && max > 0
    ensures Increasing(Keep(col, max, f).0)
  {
    if !HasSeqno(col, f.seqno) {
      MergeFacts(col, f);
      TailIncreasing(Merge(col, f));
    }
  }

  lemma AddValid(stages: seq<Stage>, max: nat, f: RtpFrame)
    requires Valid(stages) && |stages| <= max && max > 0
    ensures Valid(Add(stages, max, f).0)
  {
    var ss := Add(stages, max, f).0;
    forall x
      ensures AllSorted(ss) && Compact(ss, x) && Increasing(Column(ss, x))
    {
      ValidStream(stages, x);
      AddOthers(stages, max, f, x);
      if x == f.ssrc {
        AddKeepsYoungest(stages, max, f);
        KeepIncreasing(Column(stages, x), max, f);
      }
    }
    AddOthers(stages, max, f, f.ssrc);
  }

  /** The frames handed out for one tick are those of the first stage: at most one per stream,
      the oldest of each stream that has any. */
  lemma FirstStageIsOldest(stages: seq<Stage>, s: Ssrc)
    requires Valid(stages) && stages != []
    ensures Valid(stages[1..])
    ensures Find(stages[0], s) == if Column(stages, s) == [] then None else Some(Column(stages, s)[0])
    ensures Column(stages[1..], s) == if Column(stages, s) == [] then [] else Column(stages, s)[1..]
    ensures forall i, j :: 0 <= i < j < |stages[0]| ==> stages[0][i].ssrc != stages[0][j].ssrc
  {
    var rest := stages[1..];
    assert forall i :: 0 <= i < |rest| ==> rest[i] == stages[i + 1];
    forall x
      ensures Compact(rest, x) && Increasing(Column(rest, x))
      ensures Column(stages, x) == (match Find(stages[0], x) case Some(f) => [f] case None => []) + Column(rest, x)
      ensures Find(stages[0], x) == None ==> Column(rest, x) == []
    {
      var col := Column(stages, x);
      ValidStream(stages, x);
      if Find(stages[0], x).Some? {
        assert col[1..] == Column(rest, x);
        TailIncreasing(col);
      } else {
        NoColumnIsCompact(rest, x);
      }
    }
  }

  lemma {:induction false} NoColumnIsCompact(stages: seq<Stage>, s: Ssrc)
    requires Column(stages, s) == []
    ensures Compact(stages, s)
  {
  }

  // ---------------------------------------------------------------------- class

  /** The result of an insertion with what was walked past put in front again. */
  function Behind<T>(front: seq<T>, r: Inserted<seq<T>>): Inserted<seq<T>> {
    match r
    case Placed(rest) => Placed(front + rest)
    case Over(rest, g) => Over(front + rest, g)
    case Present(rest) => Present(front + rest)
  }

  lemma BehindNothing<T>(r: Inserted<seq<T>>)
    ensures Behind([], r) == r
  {
    assert [] + r.stages == r.stages;
  }

  lemma BehindOneMore<T>(front: seq<T>, x: T, r: Inserted<seq<T>>)
    ensures Behind(front, Behind([x], r)) == Behind(front + [x], r)
  {
    assert front + ([x] + r.stages) == (front + [x]) + r.stages;
  }

  lemma EmptyIsValid()
    ensures Valid([])
  {
    forall s
      ensures Compact([], s) && Increasing(Column([], s))
    {
    }
  }

  /** insert_into_stage: walk the sorted list up to the place of the frame. */
  method InsertInStage(st: Stage, f: RtpFrame) returns (r: Inserted<Stage>)
    ensures r == InsertIntoStage(st, f)
  {
    var front: Stage, rest := [], st;
    BehindNothing(InsertIntoStage(st, f));
    while rest != [] && f.ssrc > rest[0].ssrc
      invariant front + rest == st
      invariant InsertIntoStage(st, f) == Behind(front, InsertIntoStage(rest, f))
      decreases |rest|
    {
      BehindOneMore(front, rest[0], InsertIntoStage(rest[1..], f));
      front, rest := front + [rest[0]], rest[1..];
    }
    if rest == [] || f.ssrc < rest[0].ssrc {
      return Placed(front + ([f] + rest));
    }
    if f.seqno > rest[0].seqno {
      return Over(st, f);
    }
    if f.seqno == rest[0].seqno {
      return Present(st);
    }
    return Over(front + ([f] + rest[1..]), rest[0]);
  }

  class RtpFrameBuffer {
    const max: nat
    var stages: seq<Stage>

    constructor (numFramesToBuffer: nat)
      ensures max > 0 && (numFramesToBuffer > 0 ==> max == numFramesToBuffer)
      ensures stages == [] && Valid(stages)
    {
      max := if numFramesToBuffer == 0 then 2 else numFramesToBuffer;
      stages := [];
      new;
      EmptyIsValid();
    }

    /** insert_into_stages: what one stage leaves over is offered to the next. */
    method InsertInStages(f: RtpFrame) returns (r: Inserted<seq<Stage>>)
      modifies this
      ensures r == InsertIntoStages(old(stages), f) && stages == r.stages
    {
      var front: seq<Stage>, rest := [], stages;
      var remainder := f;
      BehindNothing(InsertIntoStages(stages, f));
      while rest != []
        invariant stages == front + rest
        invariant InsertIntoStages(old(stages), f) == Behind(front, InsertIntoStages(rest, remainder))
        decreases |rest|
      {
        var q := InsertInStage(rest[0], remainder);
        stages := front + ([q.stages] + rest[1..]);
        match q {
          case Placed(_) => return Placed(stages);
          case Present(_) => return Present(stages);
          case Over(_, g) => remainder := g;
        }
        BehindOneMore(front, q.stages, InsertIntoStages(rest[1..], remainder));
        front, rest := front + [q.stages], rest[1..];
      }
      return Over(stages, remainder);
    }

    /** drop_oldest_frame: shift the stream forward, stage by stage. */
    method DropOldestFrame(s: Ssrc) returns (dropped: Option<RtpFrame>)
      modifies this
      ensures stages == ShiftForward(old(stages), s) && dropped == FindInFirst(old(stages), s)
    {
      dropped := FindInFirst(stages, s);
      var front: seq<Stage>, rest := [], stages;
      while rest != []
        invariant stages == front + rest
        invariant ShiftForward(old(stages), s) == front + ShiftForward(rest, s)
        decreases |rest|
      {
        var st := DropFromStage(rest[0], s);
        var next := FindInFirst(rest[1..], s);
        if next.Some? {
          var q := InsertInStage(st, next.value);
          st := q.stages;
        }
        stages := front + ([st] + rest[1..]);
        front, rest := front + [st], rest[1..];
      }
    }

    /** ov_rtp_frame_buffer_add: the frame handed back, if any, is the caller's to free. */
    method AddFrame(f: RtpFrame) returns (remainder: Option<RtpFrame>)
      requires max > 0
      modifies this
      ensures (stages, remainder) == Add(old(stages), max, f)
    {
      if |stages| == 0 {
        stages := EMPTY_STAGE;
      }
      var r := InsertInStages(f);
      match r {
        case Placed(_) => remainder := None;
        case Present(_) => remainder := Some(f);
        case Over(_, g) =>
          if |stages| < max {
            stages := stages + [[g]];
            remainder := None;
          } else {
            remainder := DropOldestFrame(g.ssrc);
            var _ := InsertInStages(g);
          }
      }
    }

    /** ov_rtp_frame_buffer_get_current_frames. */
    method GetCurrentFrames() returns (current: Option<Stage>)
      modifies this
      ensures old(stages) == [] ==> current == None && stages == []
      ensures old(stages) != [] ==> current == Some(old(stages)[0]) && stages == old(stages)[1..]
    {
      if stages == [] {
        current := None;
      } else {
        current := Some(stages[0]);
        stages := stages[1..];
      }
    }
  }
}
