/** Exactly when the way a byte stream is split into reads does not matter. */
module Chunking {
  import opened AppModel
  import opened Framing
  import opened Stream
  import opened Draining

  /** A connection as its messages see it: still open, bytes left over, messages handled. */
  datatype Reader = Reader(open: bool, buffer: seq<byte>, delivered: seq<Message>)

  const START := Reader(true, [], [])

  /** What is left of a buffer when all its complete messages have been cut off. */
  ghost function Rest(scan: Scanner, b: seq<byte>): seq<byte>
    requires StaysInside(scan)
    decreases |b|
  {
    if scan(b).Complete? then Rest(scan, b[scan(b).length..]) else b
  }

  /** One read, and the turns that follow until no token is left. */
  ghost function Read(scan: Scanner, r: Reader, chunk: seq<byte>): Reader
    requires StaysInside(scan)
  {
    var b := r.buffer + chunk;
    if !r.open then r
    else if scan(b) == Reject then Reader(false, [], r.delivered)
    else Reader(true, Rest(scan, b), r.delivered + Messages(scan, b))
  }

  ghost function ReadAll(scan: Scanner, r: Reader, chunks: seq<seq<byte>>): Reader
    requires StaysInside(scan)
    decreases |chunks|
  {
    if chunks == [] then r else ReadAll(scan, Read(scan, r, chunks[0]), chunks[1..])
  }

  // -------------------------------------------------- a reader is what the app does

  /** The connection at fd is in the state r describes and its queue is worked off. */
  ghost predicate Shows(sv: Services, s: State, fd: nat, r: Reader) {
    if r.open then
      && Signaling(s, fd) && s.trigger == [] && Lossless(sv.scan, s.sockets[fd])
      && s.sockets[fd].buffer == r.buffer && s.sockets[fd].frames == r.delivered
      && !sv.scan(r.buffer).Complete?
    else fd !in s.sockets
  }

  /** The messages handled and still buffered at fd, when only fd is queued. */
  ghost predicate OnlyQueued(s: State, fd: nat) {
    forall x :: x in s.trigger ==> x == fd
  }

  lemma {:induction false} DrainReads(sv: Services, s: State, fd: nat)
    requires Lawful(sv.scan) && Signaling(s, fd) && Lossless(sv.scan, s.sockets[fd]) && OnlyQueued(s, fd)
    requires sv.scan(s.sockets[fd].buffer).Complete? ==> fd in s.trigger
    requires Welcome(sv, Messages(sv.scan, s.sockets[fd].buffer))
    ensures var t := Run(sv, s, DrainTurns(sv, s)); var b := s.sockets[fd].buffer;
      && Signaling(t, fd) && Lossless(sv.scan, t.sockets[fd]) && t.trigger == []
      && t.sockets[fd].buffer == Rest(sv.scan, b) && !sv.scan(Rest(sv.scan, b)).Complete?
      && t.sockets[fd].frames == s.sockets[fd].frames + Messages(sv.scan, b)
    decreases TotalBuffered(s.sockets), |s.trigger|
  {
    if s.trigger == [] {
      assert Messages(sv.scan, s.sockets[fd].buffer) == [];
    } else {
      assert s.trigger[0] in s.trigger;
      TurnDecreases(sv, s, TakesAll);
      TurnReads(sv, s, fd);
      ParseOnceReads(sv, fd, s.sockets[fd]);
      DrainReads(sv, ParseAgain(sv, s, TakesAll), fd);
      DrainFirst(sv, s, s.sockets[fd].uuid);
    }
  }

  /** Decoding once moves one message from the buffer to the messages handled. */
  lemma ParseOnceReads(sv: Services, fd: nat, c: Entry)
    requires Lawful(sv.scan) && fd != 0 && c.Connection? && c.mode == Buffering && Lossless(sv.scan, c)
    requires Welcome(sv, Messages(sv.scan, c.buffer))
    ensures var (d, turn) := ParseOnce(sv, fd, c, TakesAll);
      && Lossless(sv.scan, d) && (turn == Handled <==> sv.scan(c.buffer).Complete?)
      && (turn != Handled ==> d == c)
      && Welcome(sv, Messages(sv.scan, d.buffer)) && Rest(sv.scan, d.buffer) == Rest(sv.scan, c.buffer)
      && d.frames + Messages(sv.scan, d.buffer) == c.frames + Messages(sv.scan, c.buffer)
  {
    ParseOnceLossless(sv, fd, c, TakesAll);
    if sv.scan(c.buffer).Complete? {
      var word := FirstWord(sv.scan, c.buffer);
      var m := Message(word, sv.scan(c.buffer).value);
      var more := Messages(sv.scan, c.buffer[|word|..]);
      assert Messages(sv.scan, c.buffer) == [m] + more;
      assert m in Messages(sv.scan, c.buffer);
      assert forall x :: x in more ==> x in Messages(sv.scan, c.buffer);
      assert (c.frames + [m]) + more == c.frames + ([m] + more);
    }
  }

  /** One turn is one decoding, and queues the socket again if a message is left. */
  lemma TurnReads(sv: Services, s: State, fd: nat)
    requires Lawful(sv.scan) && Signaling(s, fd) && Lossless(sv.scan, s.sockets[fd]) && OnlyQueued(s, fd)
    requires s.trigger != [] && s.trigger[0] == fd
    requires Welcome(sv, Messages(sv.scan, s.sockets[fd].buffer))
    ensures var t := ParseAgain(sv, s, TakesAll);
      && Signaling(t, fd) && OnlyQueued(t, fd)
      && t.sockets[fd] == ParseOnce(sv, fd, s.sockets[fd], TakesAll).0
      && (sv.scan(t.sockets[fd].buffer).Complete? ==> fd in t.trigger)
  {
    ParseOnceReads(sv, fd, s.sockets[fd]);
    assert forall x :: x in s.trigger[1..] ==> x in s.trigger;
  }

  /** Receiving a chunk and draining is what Read says. */
  lemma ReadIsReceiveAndDrain(sv: Services, s: State, fd: nat, r: Reader, chunk: seq<byte>, ok: bool)
    requires Lawful(sv.scan) && Shows(sv, s, fd, r) && r.open
    requires Welcome(sv, Messages(sv.scan, r.buffer + chunk))
    ensures var t := Receive(sv, s, fd, chunk, ok, TakesAll);
      Shows(sv, Run(sv, t, DrainTurns(sv, t)), fd, Read(sv.scan, r, chunk))
  {
    var b := r.buffer + chunk;
    var c := Append(s.sockets[fd], chunk);
    AppendLossless(sv.scan, s.sockets[fd], chunk);
    var t := Receive(sv, s, fd, chunk, ok, TakesAll);
    if sv.scan(b) == Reject {
      assert t.trigger == [] && DrainTurns(sv, t) == [];
    } else {
      // Reading is one turn with the chunk appended and the socket queued once.
      var u := Update(s, fd, c).(trigger := [fd]);
      assert u.trigger[1..] == s.trigger == [];
      assert sv.scan(b).Complete? ==> Messages(sv.scan, b)[0].value == sv.scan(b).value;
      assert s.sockets[fd := c][fd := ParseOnce(sv, fd, c, TakesAll).0]
          == s.sockets[fd := ParseOnce(sv, fd, c, TakesAll).0];
      assert ParseAgain(sv, u, TakesAll) == t;
      TurnReads(sv, u, fd);
      ParseOnceReads(sv, fd, c);
      DrainReads(sv, t, fd);
    }
  }

  // ----------------------------------------------------------- one way of splitting

  lemma {:induction false} RestIsIncomplete(scan: Scanner, b: seq<byte>)
    requires StaysInside(scan)
    ensures !scan(Rest(scan, b)).Complete?
    decreases |b|
  {
    if scan(b).Complete? { RestIsIncomplete(scan, b[scan(b).length..]); }
  }

  /** A steady stream can be read on from anywhere: the messages before, then those of the rest
      and what follows. */
  lemma {:induction false} ReadOn(scan: Scanner, b: seq<byte>, more: seq<byte>)
    requires StaysInside(scan) && Steady(scan, b + more)
    ensures Steady(scan, Rest(scan, b) + more)
    ensures Messages(scan, b + more) == Messages(scan, b) + Messages(scan, Rest(scan, b) + more)
    decreases |b|
  {
    if scan(b).Complete? {
      var n := scan(b).length;
      CutFirst(scan, b, more);
      ReadOn(scan, b[n..], more);
      InTwoSteps([Message(b[..n], scan(b).value)], Messages(scan, b[n..]), Messages(scan, Rest(scan, b) + more));
    } else {
      assert [] + Messages(scan, b + more) == Messages(scan, b + more);
    }
  }

  lemma InTwoSteps(d: seq<Message>, a: seq<Message>, b: seq<Message>)
    ensures (d + a) + b == d + (a + b)
  {
  }

  lemma NothingMore(d: seq<Message>, more: seq<Message>)
    ensures d == d + more <==> more == []
  {
    assert |d + more| == |d| + |more|;
    assert d + [] == d;
  }

  /** If a read finds its buffer malformed, no message was still to come. */
  ghost predicate LosesNothing(scan: Scanner, r: Reader, chunks: seq<seq<byte>>)
    requires StaysInside(scan)
    decreases |chunks|
  {
    chunks == [] ||
    if scan(r.buffer + chunks[0]) == Reject then Messages(scan, r.buffer + Flatten(chunks)) == []
    else LosesNothing(scan, Read(scan, r, chunks[0]), chunks[1..])
  }

  lemma {:induction false} ClosedStays(scan: Scanner, r: Reader, chunks: seq<seq<byte>>)
    requires StaysInside(scan) && !r.open
    ensures ReadAll(scan, r, chunks) == r
    decreases |chunks|
  {
    if chunks != [] { ClosedStays(scan, r, chunks[1..]); }
  }

  /** A split of a steady stream delivers its messages iff no read finds its buffer malformed while
      a message is still to come. */
  lemma {:induction false} SplitExactly(scan: Scanner, r: Reader, chunks: seq<seq<byte>>)
    requires StaysInside(scan) && r.open && !scan(r.buffer).Complete?
    requires Steady(scan, r.buffer + Flatten(chunks))
    ensures ReadAll(scan, r, chunks).delivered == r.delivered + Messages(scan, r.buffer + Flatten(chunks))
       <==> LosesNothing(scan, r, chunks)
    decreases |chunks|
  {
    if chunks == [] {
      assert r.buffer + [] == r.buffer;
      assert r.delivered + [] == r.delivered;
    } else {
      var b := r.buffer + chunks[0];
      var more := Flatten(chunks[1..]);
      assert r.buffer + Flatten(chunks) == b + more;
      var r' := Read(scan, r, chunks[0]);
      if scan(b) == Reject {
        ClosedStays(scan, r', chunks[1..]);
        NothingMore(r.delivered, Messages(scan, b + more));
      } else {
        ReadOn(scan, b, more);
        RestIsIncomplete(scan, b);
        SplitExactly(scan, r', chunks[1..]);
        InTwoSteps(r.delivered, Messages(scan, b), Messages(scan, r'.buffer + more));
      }
    }
  }

  // --------------------------------------------------------------- every way of splitting

  /** A read brings at least one byte. */
  ghost predicate Reads(chunks: seq<seq<byte>>) {
    forall i :: 0 <= i < |chunks| ==> chunks[i] != []
  }

  /** The app with these bytes taken in and all turns taken, whatever its reads made of them. */
  ghost function Settled(scan: Scanner, b: seq<byte>): Reader
    requires StaysInside(scan)
  {
    Reader(true, Rest(scan, b), Messages(scan, b))
  }

  /** With the first e bytes taken in, no cut through what follows matters. Without a message in
      the whole stream: none is found in front of any part of it. Otherwise, until it is found: no
      part is malformed, and the part it is found in shows the same message as the whole; and so on
      behind it. */
  ghost predicate Splittable(scan: Scanner, stream: seq<byte>, e: nat)
    requires StaysInside(scan) && e <= |stream|
    decreases |stream|
  {
    match scan(stream)
    case Complete(n, _) =>
      if scan(stream[..e]).Complete? then SameFirst(scan, stream, e) && Splittable(scan, stream[n..], e - n)
      else forall m :: e < m <= |stream| ==> CutAt(scan, stream, m)
    case _ => forall m :: e <= m <= |stream| ==> !scan(stream[..m]).Complete?
  }

  ghost predicate SameFirst(scan: Scanner, stream: seq<byte>, m: nat)
    requires m <= |stream|
  {
    scan(stream[..m]) == scan(stream)
  }

  /** What a read up to m must find. */
  ghost predicate CutAt(scan: Scanner, stream: seq<byte>, m: nat)
    requires StaysInside(scan) && m <= |stream| && scan(stream).Complete?
    decreases |stream|, 0
  {
    && scan(stream[..m]) != Reject
    && (scan(stream[..m]).Complete? ==>
          SameFirst(scan, stream, m) && Splittable(scan, stream[scan(stream).length..], m - scan(stream).length))
  }

  lemma {:induction false} DeliveredBefore(scan: Scanner, r: Reader, d: seq<Message>, chunks: seq<seq<byte>>)
    requires StaysInside(scan)
    ensures ReadAll(scan, r.(delivered := d + r.delivered), chunks).delivered == d + ReadAll(scan, r, chunks).delivered
    decreases |chunks|
  {
    if chunks != [] {
      var b := r.buffer + chunks[0];
      var r' := Read(scan, r, chunks[0]);
      InTwoSteps(d, r.delivered, Messages(scan, b));
      assert Read(scan, r.(delivered := d + r.delivered), chunks[0]) == r'.(delivered := d + r'.delivered);
      DeliveredBefore(scan, r', d, chunks[1..]);
    }
  }

  /** Reading on after a message in front of what has been taken in. */
  lemma SettledBehind(scan: Scanner, b: seq<byte>, chunks: seq<seq<byte>>)
    requires StaysInside(scan) && scan(b).Complete?
    ensures var n := scan(b).length;
      ReadAll(scan, Settled(scan, b), chunks).delivered
        == [Message(b[..n], scan(b).value)] + ReadAll(scan, Settled(scan, b[n..]), chunks).delivered
  {
    var n := scan(b).length;
    var m := Message(b[..n], scan(b).value);
    assert Settled(scan, b) == Settled(scan, b[n..]).(delivered := [m] + Settled(scan, b[n..]).delivered);
    DeliveredBefore(scan, Settled(scan, b[n..]), [m], chunks);
  }

  /** A read when no message is in front of what has been taken in. */
  lemma ReadFromSettled(scan: Scanner, b: seq<byte>, c: seq<byte>, chunks: seq<seq<byte>>)
    requires StaysInside(scan) && !scan(b).Complete?
    ensures ReadAll(scan, Settled(scan, b), [c] + chunks)
         == if scan(b + c) == Reject then Reader(false, [], []) else ReadAll(scan, Settled(scan, b + c), chunks)
  {
    assert ([c] + chunks)[1..] == chunks;
    assert Settled(scan, b) == Reader(true, b, []);
    assert [] + Messages(scan, b + c) == Messages(scan, b + c);
    if scan(b + c) == Reject { ClosedStays(scan, Reader(false, [], []), chunks); }
  }

  lemma SplittableLater(scan: Scanner, stream: seq<byte>, e: nat, m: nat)
    requires StaysInside(scan) && e < m <= |stream| && Splittable(scan, stream, e)
    requires !scan(stream[..e]).Complete? && scan(stream[..m]) != Reject
    ensures Splittable(scan, stream, m)
  {
    if scan(stream).Complete? { assert CutAt(scan, stream, m); }
  }

  lemma {:induction false} SplittableDelivers(scan: Scanner, stream: seq<byte>, e: nat, chunks: seq<seq<byte>>)
    requires StaysInside(scan) && e <= |stream| && Splittable(scan, stream, e)
    requires Reads(chunks) && Flatten(chunks) == stream[e..]
    ensures ReadAll(scan, Settled(scan, stream[..e]), chunks).delivered == Messages(scan, stream)
    decreases |stream|, |chunks|
  {
    var b := stream[..e];
    if scan(b).Complete? {
      var n := scan(b).length;
      assert scan(stream) == scan(b);
      assert stream[n..][..e - n] == b[n..] && stream[n..][e - n..] == stream[e..] && b[..n] == stream[..n];
      SettledBehind(scan, b, chunks);
      SplittableDelivers(scan, stream[n..], e - n, chunks);
    } else if chunks == [] {
      assert stream[e..] == [] && b == stream;
    } else {
      var c, m := chunks[0], e + |chunks[0]|;
      assert chunks == [c] + chunks[1..];
      assert stream[e..] == c + Flatten(chunks[1..]);
      assert b + c == stream[..m] && Flatten(chunks[1..]) == stream[m..];
      ReadFromSettled(scan, b, c, chunks[1..]);
      if scan(stream[..m]) == Reject {
        assert scan(stream).Complete? ==> CutAt(scan, stream, m);
      } else {
        SplittableLater(scan, stream, e, m);
        SplittableDelivers(scan, stream, m, chunks[1..]);
      }
    }
  }

  /** One more read, or none if it would bring nothing. */
  function Remaining(stream: seq<byte>, m: nat): (chunks: seq<seq<byte>>)
    requires m <= |stream|
    ensures Reads(chunks)
  {
    if m == |stream| then [] else [stream[m..]]
  }

  lemma RemainingIsRest(stream: seq<byte>, m: nat)
    requires m <= |stream|
    ensures Flatten(Remaining(stream, m)) == stream[m..]
  {
    if m < |stream| {
      assert [stream[m..]][1..] == [];
      assert Flatten([stream[m..]]) == stream[m..] + Flatten([]);
    }
  }

  lemma FlattenFirst(c: seq<byte>, chunks: seq<seq<byte>>)
    ensures Flatten([c] + chunks) == c + Flatten(chunks)
  {
    assert ([c] + chunks)[1..] == chunks;
  }

  /** What has been found in front and is not the first message of the whole stays wrong. */
  lemma WrongFirst(scan: Scanner, stream: seq<byte>, e: nat, chunks: seq<seq<byte>>)
    requires StaysInside(scan) && e <= |stream| && scan(stream[..e]).Complete? && scan(stream[..e]) != scan(stream)
    ensures ReadAll(scan, Settled(scan, stream[..e]), chunks).delivered != Messages(scan, stream)
  {
    var b := stream[..e];
    var n := scan(b).length;
    SettledBehind(scan, b, chunks);
    assert b[..n] == stream[..n];
    if scan(stream).Complete? {
      var k := scan(stream).length;
      assert |stream[..n]| == n && |stream[..k]| == k;
      assert Message(b[..n], scan(b).value) != Message(stream[..k], scan(stream).value);
      assert Messages(scan, stream)[0] == Message(stream[..k], scan(stream).value);
    }
  }

  /** A way of splitting that delivers something else than one pass finds. */
  lemma {:induction false} LosingSplit(scan: Scanner, stream: seq<byte>, e: nat) returns (chunks: seq<seq<byte>>)
    requires StaysInside(scan) && e <= |stream| && !Splittable(scan, stream, e)
    ensures Reads(chunks) && Flatten(chunks) == stream[e..]
    ensures ReadAll(scan, Settled(scan, stream[..e]), chunks).delivered != Messages(scan, stream)
    decreases |stream|, |stream| - e
  {
    var b := stream[..e];
    if scan(b).Complete? {
      if scan(b) != scan(stream) {
        chunks := Remaining(stream, e);
        RemainingIsRest(stream, e);
        WrongFirst(scan, stream, e, chunks);
      } else {
        var n := scan(b).length;
        chunks := LosingSplit(scan, stream[n..], e - n);
        LosesBehind(scan, stream, e, chunks);
      }
    } else {
      var m := BadCut(scan, stream, e);
      chunks := LosingRead(scan, stream, e, m);
    }
  }

  /** The part of the stream at which splitting goes wrong. */
  lemma BadCut(scan: Scanner, stream: seq<byte>, e: nat) returns (m: nat)
    requires StaysInside(scan) && e <= |stream| && !Splittable(scan, stream, e) && !scan(stream[..e]).Complete?
    ensures e < m <= |stream|
    ensures if scan(stream).Complete? then !CutAt(scan, stream, m) else scan(stream[..m]).Complete?
  {
    if scan(stream).Complete? {
      m :| e < m <= |stream| && !CutAt(scan, stream, m);
    } else {
      m :| e <= m <= |stream| && scan(stream[..m]).Complete?;
    }
  }

  lemma LosesBehind(scan: Scanner, stream: seq<byte>, e: nat, chunks: seq<seq<byte>>)
    requires StaysInside(scan) && e <= |stream| && scan(stream[..e]).Complete? && scan(stream[..e]) == scan(stream)
    requires var n := scan(stream).length;
      && Flatten(chunks) == stream[n..][e - n..]
      && ReadAll(scan, Settled(scan, stream[n..][..e - n]), chunks).delivered != Messages(scan, stream[n..])
    ensures Flatten(chunks) == stream[e..]
    ensures ReadAll(scan, Settled(scan, stream[..e]), chunks).delivered != Messages(scan, stream)
  {
    var b, n := stream[..e], scan(stream).length;
    SettledBehind(scan, b, chunks);
    assert stream[n..][..e - n] == b[n..] && b[..n] == stream[..n] && stream[n..][e - n..] == stream[e..];
    FirstAndRest(Message(stream[..n], scan(stream).value), ReadAll(scan, Settled(scan, b[n..]), chunks).delivered,
                 Messages(scan, stream));
    assert Messages(scan, stream)[1..] == Messages(scan, stream[n..]);
  }

  /** A split with a read up to such a part. */
  lemma {:induction false} LosingRead(scan: Scanner, stream: seq<byte>, e: nat, m: nat) returns (chunks: seq<seq<byte>>)
    requires StaysInside(scan) && e < m <= |stream| && !scan(stream[..e]).Complete?
    requires if scan(stream).Complete? then !CutAt(scan, stream, m) else scan(stream[..m]).Complete?
    ensures Reads(chunks) && Flatten(chunks) == stream[e..]
    ensures ReadAll(scan, Settled(scan, stream[..e]), chunks).delivered != Messages(scan, stream)
    decreases |stream|, |stream| - e, 0
  {
    var b, c := stream[..e], stream[e..m];
    assert b + c == stream[..m] && c + stream[m..] == stream[e..];
    var more := Remaining(stream, m);
    RemainingIsRest(stream, m);
    if scan(stream[..m]) == Reject {
    } else if scan(stream[..m]) != scan(stream) {
      WrongFirst(scan, stream, m, more);
    } else {
      var n := scan(stream).length;
      more := LosingSplit(scan, stream[n..], m - n);
      LosesBehind(scan, stream, m, more);
    }
    chunks := [c] + more;
    FlattenFirst(c, more);
    ReadFromSettled(scan, b, c, more);
  }

  /** Every way of splitting a stream into reads delivers its messages iff it is splittable. */
  lemma ChunkingExactly(scan: Scanner, stream: seq<byte>)
    requires Lawful(scan)
    ensures (forall chunks :: Reads(chunks) && Flatten(chunks) == stream ==>
               ReadAll(scan, START, chunks).delivered == Messages(scan, stream))
       <==> Splittable(scan, stream, 0)
  {
    assert stream[..0] == [] && stream[0..] == stream && Settled(scan, []) == START;
    if Splittable(scan, stream, 0) {
      forall chunks | Reads(chunks) && Flatten(chunks) == stream
        ensures ReadAll(scan, START, chunks).delivered == Messages(scan, stream)
      {
        SplittableDelivers(scan, stream, 0, chunks);
      }
    } else {
      var chunks := LosingSplit(scan, stream, 0);
    }
  }

  // ------------------------------------------------------------------ losses in two reads

  lemma FlattenOne(a: seq<byte>)
    ensures Flatten([a]) == a
  {
    FlattenFirst(a, []);
    assert [a] + [] == [a] && a + [] == a;
  }

  lemma FlattenTwo(a: seq<byte>, b: seq<byte>)
    ensures Flatten([a, b]) == a + b && Flatten([a]) == a
  {
    FlattenOne(a);
    FlattenOne(b);
    FlattenFirst(a, [b]);
    assert [a] + [b] == [a, b];
  }

  /** Nothing is delivered of what comes in a first read that leaves malformed bytes. */
  lemma RejectedAtOnce(scan: Scanner, b: seq<byte>, chunks: seq<seq<byte>>)
    requires StaysInside(scan) && scan(b) == Reject
    ensures ReadAll(scan, START, [b] + chunks) == Reader(false, [], [])
  {
    assert START.buffer + b == b;
    assert ([b] + chunks)[1..] == chunks;
    ClosedStays(scan, Read(scan, START, b), chunks);
  }

  /** A message found in a first read is delivered first. */
  lemma FoundAtOnce(scan: Scanner, b: seq<byte>, chunks: seq<seq<byte>>)
    requires Lawful(scan) && scan(b).Complete?
    ensures [Message(b[..scan(b).length], scan(b).value)] <= ReadAll(scan, START, [b] + chunks).delivered
  {
    assert Settled(scan, []) == START && [] + b == b;
    ReadFromSettled(scan, [], b, chunks);
    SettledBehind(scan, b, chunks);
  }

  /** A malformed stream with a message in front of some part of it: read at once it delivers
      nothing, cut behind that part it delivers the message. */
  lemma SplittingRescuesFirst(scan: Scanner, b: seq<byte>, x: seq<byte>)
    requires Lawful(scan) && scan(b).Complete? && scan(b + x) == Reject
    ensures Flatten([b, x]) == Flatten([b + x]) == b + x && Messages(scan, b + x) == []
    ensures ReadAll(scan, START, [b + x]) == Reader(false, [], [])
    ensures [Message(b[..scan(b).length], scan(b).value)] <= ReadAll(scan, START, [b, x]).delivered
  {
    FlattenTwo(b, x);
    FlattenTwo(b + x, []);
    RejectedAtOnce(scan, b + x, []);
    assert [b + x] + [] == [b + x] && [b] + [x] == [b, x];
    FoundAtOnce(scan, b, [x]);
  }

  /** A stream with messages that is cut where the bytes so far are malformed: nothing is delivered. */
  lemma SplittingLosesFirst(scan: Scanner, b: seq<byte>, x: seq<byte>)
    requires StaysInside(scan) && scan(b) == Reject && scan(b + x) != Reject
    ensures Flatten([b, x]) == b + x && ReadAll(scan, START, [b, x]) == Reader(false, [], [])
    ensures scan(b + x).Complete? ==> Messages(scan, b + x) != []
  {
    FlattenTwo(b, x);
    RejectedAtOnce(scan, b, [x]);
    assert [b] + [x] == [b, x];
  }

  // ------------------------------------------------------------------ no read spoils anything

  /** Of the bytes of these messages any part shows the first message as soon as all of it has come,
      and is incomplete before; and so on behind it. */
  ghost predicate Robust(scan: Scanner, ms: seq<Message>) {
    ms == [] || ((forall m :: 0 <= m <= |BytesOf(ms)| ==> ShowsFirst(scan, ms, m)) && Robust(scan, ms[1..]))
  }

  ghost predicate ShowsFirst(scan: Scanner, ms: seq<Message>, m: nat)
    requires ms != [] && m <= |BytesOf(ms)|
  {
    scan(BytesOf(ms)[..m]) == if m < |ms[0].bytes| then Progress else Complete(|ms[0].bytes|, ms[0].value)
  }

  /** The reader with one more message delivered before. */
  ghost function Behind(m: Message, r: Reader): Reader {
    r.(delivered := [m] + r.delivered)
  }

  lemma ReadBehind(scan: Scanner, m: Message, r: Reader, chunk: seq<byte>)
    requires StaysInside(scan)
    ensures Read(scan, Behind(m, r), chunk) == Behind(m, Read(scan, r, chunk))
  {
    InTwoSteps([m], r.delivered, Messages(scan, r.buffer + chunk));
  }

  lemma SettledPart(scan: Scanner, ms: seq<Message>, m: nat, rest: seq<byte>)
    requires Lawful(scan) && Robust(scan, ms) && ms != [] && m <= |BytesOf(ms)| && rest == BytesOf(ms[1..])
    ensures var b, n := BytesOf(ms)[..m], |ms[0].bytes|;
      Settled(scan, b) == if m < n then Reader(true, b, []) else Behind(ms[0], Settled(scan, rest[..m - n]))
  {
    assert ShowsFirst(scan, ms, m);
    if m >= |ms[0].bytes| {
      assert BytesOf(ms)[..m] == ms[0].bytes + rest[..m - |ms[0].bytes|];
      SettledFirst(scan, ms[0], rest[..m - |ms[0].bytes|]);
    }
  }

  lemma SettledFirst(scan: Scanner, m: Message, rest: seq<byte>)
    requires Lawful(scan) && scan(m.bytes + rest) == Complete(|m.bytes|, m.value)
    ensures Settled(scan, m.bytes + rest) == Behind(m, Settled(scan, rest))
  {
    InFront(m.bytes, rest);
  }

  lemma ReadOpen(scan: Scanner, a: seq<byte>, c: seq<byte>, b: seq<byte>)
    requires Lawful(scan) && b == a + c && scan(b) != Reject
    ensures Read(scan, Reader(true, a, []), c) == Settled(scan, b)
  {
    assert [] + Messages(scan, b) == Messages(scan, b);
  }

  /** One more read of such bytes. */
  lemma {:induction false} ReadPart(scan: Scanner, ms: seq<Message>, e: nat, m: nat)
    requires Lawful(scan) && Robust(scan, ms) && e <= m <= |BytesOf(ms)|
    ensures Read(scan, Settled(scan, BytesOf(ms)[..e]), BytesOf(ms)[e..m]) == Settled(scan, BytesOf(ms)[..m])
    decreases |ms|
  {
    var s := BytesOf(ms);
    assert s[..e] + s[e..m] == s[..m];
    if ms == [] {
      assert s[..e] == [] && s[..m] == [];
      ReadOpen(scan, s[..e], s[e..m], s[..m]);
    } else {
      var n, rest := |ms[0].bytes|, BytesOf(ms[1..]);
      assert ShowsFirst(scan, ms, m);
      SettledPart(scan, ms, e, rest);
      if e < n {
        ReadOpen(scan, s[..e], s[e..m], s[..m]);
      } else {
        SettledPart(scan, ms, m, rest);
        ReadPart(scan, ms[1..], e - n, m - n);
        assert s[e..m] == rest[e - n..m - n];
        ReadBehind(scan, ms[0], Settled(scan, rest[..e - n]), rest[e - n..m - n]);
      }
    }
  }

  lemma {:induction false} ReadParts(scan: Scanner, ms: seq<Message>, e: nat, chunks: seq<seq<byte>>)
    requires Lawful(scan) && Robust(scan, ms) && e <= |BytesOf(ms)| && Flatten(chunks) == BytesOf(ms)[e..]
    ensures ReadAll(scan, Settled(scan, BytesOf(ms)[..e]), chunks) == Settled(scan, BytesOf(ms))
    decreases |chunks|
  {
    var s := BytesOf(ms);
    if chunks == [] {
      assert s[..e] == s;
    } else {
      var c, more := chunks[0], Flatten(chunks[1..]);
      var m := e + |c|;
      assert s[e..] == c + more;
      assert s[e..m] == s[e..][..|c|] == c && s[m..] == s[e..][|c|..] == more;
      ReadPart(scan, ms, e, m);
      ReadParts(scan, ms, m, chunks[1..]);
    }
  }

  lemma {:induction false} SettledAll(scan: Scanner, ms: seq<Message>)
    requires Lawful(scan) && Robust(scan, ms)
    ensures Settled(scan, BytesOf(ms)) == Reader(true, [], ms)
    decreases |ms|
  {
    if ms != [] {
      var s, rest := BytesOf(ms), BytesOf(ms[1..]);
      assert s[..|s|] == s && rest[..|s| - |ms[0].bytes|] == rest;
      SettledPart(scan, ms, |s|, rest);
      SettledAll(scan, ms[1..]);
      assert ms == [ms[0]] + ms[1..];
    }
  }

  /** However the bytes of such messages are split into reads, each message is delivered once and in
      order, nothing is left over and the connection stays open. */
  lemma RobustIsDelivered(scan: Scanner, ms: seq<Message>, chunks: seq<seq<byte>>)
    requires Lawful(scan) && Robust(scan, ms) && Flatten(chunks) == BytesOf(ms)
    ensures ReadAll(scan, START, chunks) == Reader(true, [], ms)
  {
    assert BytesOf(ms)[..0] == [] && BytesOf(ms)[0..] == BytesOf(ms);
    ReadParts(scan, ms, 0, chunks);
    SettledAll(scan, ms);
  }
}
