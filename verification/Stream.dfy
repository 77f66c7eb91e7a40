/** What a signaling connection gets back for the bytes it sends.

    One read decodes one message only; the bytes behind it wait in the parser
    buffer until their socket comes back through the trigger pair. The lemmas
    here show that no complete message waits without its socket being on the
    way, and that the answers are those to the stream read in one pass. */
module Stream {
  import opened Options
  import opened AppModel
  import opened Framing

  ghost predicate Lossless(scan: Scanner, c: Entry) {
    c.Connection? && c.mode == Buffering ==> CutFrom(scan, c.frames, c.buffer) && c.received == BytesOf(c.frames) + c.buffer
  }

  /** Nothing a connection has received is lost, duplicated or reordered on its way through the parser. */
  ghost predicate AllLossless(scan: Scanner, m: Sockets) {
    forall fd :: fd in m ==> Lossless(scan, m[fd])
  }

  /** The answer bytes of a message. */
  function AnswerTo(sv: Services, v: Value): seq<byte> {
    match Dispatch(sv, v)
    case Answer(a) => sv.encode(a)
    case _ => []
  }

  ghost function Answers(sv: Services, ms: seq<Message>): seq<byte> {
    if ms == [] then [] else AnswerTo(sv, ms[0].value) + Answers(sv, ms[1..])
  }

  /** No message asks to close the socket. */
  ghost predicate Welcome(sv: Services, ms: seq<Message>) {
    forall m :: m in ms ==> Dispatch(sv, m.value) != FailureCloseSocket
  }

  /** The connection has been answered in full and, if its buffer starts with a
      complete message, its socket is on the way through the trigger pair. */
  ghost predicate Attended(sv: Services, s: State, fd: nat)
    requires IsConnection(s.sockets, fd)
  {
    var c := s.sockets[fd];
    Welcome(sv, c.frames) ==> c.sent == Answers(sv, c.frames) && (sv.scan(c.buffer).Complete? ==> fd in s.trigger)
  }

  /** Attended, for the connections with a given uuid. */
  ghost predicate AttendsTo(sv: Services, s: State, uuid: Uuid) {
    && AllLossless(sv.scan, s.sockets)
    && forall fd :: Signaling(s, fd) && s.sockets[fd].uuid == uuid ==> Attended(sv, s, fd)
  }

  /** A connection with a buffering parser at a socket answers can be sent to. */
  ghost predicate Signaling(s: State, fd: nat) {
    fd != 0 && IsConnection(s.sockets, fd) && s.sockets[fd].mode == Buffering
  }

  /** The connection whose parser an event turns. */
  function Target(s: State, e: Event): Option<Uuid> {
    match e
    case Bytes(fd, _, _, _) => if IsConnection(s.sockets, fd) then Some(s.sockets[fd].uuid) else None
    case Trigger(_) =>
      if s.trigger != [] && IsConnection(s.sockets, s.trigger[0]) then Some(s.sockets[s.trigger[0]].uuid) else None
    case _ => None
  }

  /** The kernel takes every answer to the connection with this uuid. Others may fail. */
  predicate Served(sv: Services, s: State, es: seq<Event>, uuid: Uuid)
    requires Possible(sv, s, es)
    decreases |es|
  {
    es == [] ||
    (ServedOnce(s, es[0], uuid) && Served(sv, Step(sv, s, es[0]), es[1..], uuid))
  }

  predicate ServedOnce(s: State, e: Event, uuid: Uuid) {
    Target(s, e) == Some(uuid) ==> match e
                                   case Bytes(_, _, _, k) => k == TakesAll
                                   case Trigger(k) => k == TakesAll
                                   case _ => true
  }

  // ------------------------------------------------------------ one parser turn

  lemma {:induction false} AnswersAppend(sv: Services, ms: seq<Message>, m: Message)
    ensures Answers(sv, ms + [m]) == Answers(sv, ms) + AnswerTo(sv, m.value)
  {
    if ms == [] {
      assert ms + [m] == [m];
      assert Answers(sv, [m]) == AnswerTo(sv, m.value) + Answers(sv, [m][1..]);
    } else {
      assert (ms + [m])[1..] == ms[1..] + [m];
      AnswersAppend(sv, ms[1..], m);
    }
  }

  lemma ParseOnceLossless(sv: Services, fd: nat, c: Entry, k: Kernel)
    requires Lawful(sv.scan) && c.Connection? && c.mode == Buffering && Lossless(sv.scan, c)
    ensures Lossless(sv.scan, ParseOnce(sv, fd, c, k).0)
  {
    if sv.scan(c.buffer).Complete? {
      var word := FirstWord(sv.scan, c.buffer);
      assert c.buffer == word + c.buffer[|word|..];
      CutFromNext(sv.scan, c.frames, Message(word, sv.scan(c.buffer).value), c.buffer[|word|..]);
    }
  }

  /** A turn on a connection that has been answered in full, with a kernel that takes everything. */
  lemma ParseOnceAnswers(sv: Services, fd: nat, c: Entry)
    requires Lawful(sv.scan) && c.Connection? && c.mode == Buffering && fd != 0
    requires Welcome(sv, c.frames) ==> c.sent == Answers(sv, c.frames)
    ensures var (d, turn) := ParseOnce(sv, fd, c, TakesAll);
      Welcome(sv, d.frames) ==>
        && d.sent == Answers(sv, d.frames)
        && Welcome(sv, c.frames)
        && (sv.scan(d.buffer).Complete? ==> turn == Handled && d.buffer != [])
  {
    if sv.scan(c.buffer).Complete? {
      var m := Message(FirstWord(sv.scan, c.buffer), sv.scan(c.buffer).value);
      AnswersAppend(sv, c.frames, m);
      assert m in c.frames + [m];
      assert forall x :: x in c.frames ==> x in c.frames + [m];
    }
  }

  // ------------------------------------------------------------------- one step

  /** Entries at other sockets are untouched and their tokens are still queued. */
  ghost predicate SameElsewhere(s: State, t: State, fd: nat) {
    && (forall k :: k != fd && k in t.sockets ==> k in s.sockets && t.sockets[k] == s.sockets[k])
    && (forall k :: k != fd && k in s.trigger ==> k in t.trigger)
  }

  lemma AttendsElsewhere(sv: Services, s: State, t: State, fd: nat, uuid: Uuid)
    requires AttendsTo(sv, s, uuid) && SameElsewhere(s, t, fd)
    requires fd in t.sockets ==> Lossless(sv.scan, t.sockets[fd])
    requires Signaling(t, fd) && t.sockets[fd].uuid == uuid ==> Attended(sv, t, fd)
    ensures AttendsTo(sv, t, uuid)
  {
    forall k | Signaling(t, k) && t.sockets[k].uuid == uuid
      ensures Attended(sv, t, k)
    {
      if k != fd {
        assert Signaling(s, k) && Attended(sv, s, k);
      }
    }
  }

  lemma ReleaseAttends(sv: Services, s: State, fds: set<nat>, uuid: Uuid)
    requires AttendsTo(sv, s, uuid)
    ensures AttendsTo(sv, Release(s, fds), uuid)
  {
    var t := Release(s, fds);
    forall k | Signaling(t, k) && t.sockets[k].uuid == uuid
      ensures Attended(sv, t, k)
    {
      assert Signaling(s, k) && Attended(sv, s, k);
    }
  }

  lemma RegisterAttends(sv: Services, s: State, fd: nat, e: Entry, uuid: Uuid)
    requires Lawful(sv.scan) && AttendsTo(sv, s, uuid) && fd !in s.sockets
    requires e.Connection? ==> e == NewConnection(e.uuid, e.master, e.mode)
    ensures AttendsTo(sv, Register(s, fd, e), uuid)
  {
    AttendsElsewhere(sv, s, Register(s, fd, e), fd, uuid);
  }

  /** After a turn at fd that did not close: t differs from s at fd only and has the token a handled message asks for. */
  lemma TurnAttends(sv: Services, s: State, t: State, fd: nat, c: Entry, k: Kernel, uuid: Uuid)
    requires Lawful(sv.scan) && AttendsTo(sv, s, uuid) && IsConnection(s.sockets, fd)
    requires c.Connection? && c.mode == Buffering && c == s.sockets[fd].(buffer := c.buffer, received := c.received)
    requires Lossless(sv.scan, c) && (c.uuid == uuid ==> k == TakesAll)
    requires var (d, turn) := ParseOnce(sv, fd, c, k);
      t.sockets == s.sockets[fd := d] && (turn == Handled && d.buffer != [] ==> fd in t.trigger)
    requires forall x :: x != fd && x in s.trigger ==> x in t.trigger
    ensures AttendsTo(sv, t, uuid)
  {
    ParseOnceLossless(sv, fd, c, k);
    if fd != 0 && c.uuid == uuid {
      assert Signaling(s, fd) && Attended(sv, s, fd);
      ParseOnceAnswers(sv, fd, c);
    }
    AttendsElsewhere(sv, s, t, fd, uuid);
  }

  lemma AppendLossless(scan: Scanner, c: Entry, chunk: seq<byte>)
    requires c.Connection? && Lossless(scan, c)
    ensures Lossless(scan, Append(c, chunk))
  {
    if c.mode == Buffering { CutFromLonger(scan, c.frames, c.buffer, chunk); }
    assert (BytesOf(c.frames) + c.buffer) + chunk == BytesOf(c.frames) + (c.buffer + chunk);
  }

  lemma ReceiveAttends(sv: Services, s: State, fd: nat, chunk: seq<byte>, ok: bool, k: Kernel, uuid: Uuid)
    requires Lawful(sv.scan) && AttendsTo(sv, s, uuid) && IsConnection(s.sockets, fd)
    requires s.sockets[fd].uuid == uuid ==> k == TakesAll
    ensures AttendsTo(sv, Receive(sv, s, fd, chunk, ok, k), uuid)
  {
    var c := Append(s.sockets[fd], chunk);
    assert Lossless(sv.scan, s.sockets[fd]);
    AppendLossless(sv.scan, s.sockets[fd], chunk);
    if c.mode == Raw {
      var t := Update(s, fd, c);
      AttendsElsewhere(sv, s, t, fd, uuid);
      ReleaseAttends(sv, t, Victims(t.sockets, fd), uuid);
    } else {
      var (d, turn) := ParseOnce(sv, fd, c, k);
      var t := Receive(sv, s, fd, chunk, ok, k);
      if turn == Idle || turn == Handled {
        TurnAttends(sv, s, t, fd, c, k, uuid);
      } else {
        AttendsElsewhere(sv, s, t, fd, uuid);
      }
    }
  }

  lemma ParseAgainAttends(sv: Services, s: State, k: Kernel, uuid: Uuid)
    requires Lawful(sv.scan) && AttendsTo(sv, s, uuid) && s.trigger != []
    requires BufferingBehindTokens(s)
    requires IsConnection(s.sockets, s.trigger[0]) && s.sockets[s.trigger[0]].uuid == uuid ==> k == TakesAll
    ensures AttendsTo(sv, ParseAgain(sv, s, k), uuid)
  {
    var fd := s.trigger[0];
    var t := ParseAgain(sv, s, k);
    assert fd in s.trigger;
    assert forall x :: x != fd && x in s.trigger ==> x in s.trigger[1..];
    if IsConnection(s.sockets, fd) {
      TurnAttends(sv, s, t, fd, s.sockets[fd], k, uuid);
    } else {
      AttendsElsewhere(sv, s, t, fd, uuid);
    }
  }

  /** What a queued socket finds in the dictionary is a connection with a buffering parser, or nothing. */
  ghost predicate BufferingBehindTokens(s: State) {
    forall fd :: fd in s.trigger && fd in s.sockets ==> s.sockets[fd].Connection? && s.sockets[fd].mode == Buffering
  }

  lemma ReceiveKeepsTokens(sv: Services, s: State, fd: nat, chunk: seq<byte>, ok: bool, k: Kernel)
    requires BufferingBehindTokens(s) && IsConnection(s.sockets, fd)
    ensures BufferingBehindTokens(Receive(sv, s, fd, chunk, ok, k))
  {
    var c := Append(s.sockets[fd], chunk);
    var (d, turn) := if c.mode == Raw then (c, Idle) else ParseOnce(sv, fd, c, k);
    assert d.Connection? && d.mode == s.sockets[fd].mode;
    var t := Update(s, fd, d);
    assert BufferingBehindTokens(t);
    assert BufferingBehindTokens(CloseSocket(t, fd));
  }

  lemma ParseAgainKeepsTokens(sv: Services, s: State, k: Kernel)
    requires BufferingBehindTokens(s) && s.trigger != []
    ensures BufferingBehindTokens(ParseAgain(sv, s, k))
  {
    var fd := s.trigger[0];
    var t := ParseAgain(sv, s, k);
    assert fd in s.trigger && forall x :: x in s.trigger[1..] ==> x in s.trigger;
    if IsConnection(s.sockets, fd) {
      TurnKeepsMode(sv, fd, s.sockets[fd], k);
      forall x | x in t.trigger && x in t.sockets
        ensures t.sockets[x].Connection? && t.sockets[x].mode == Buffering
      {
        assert x in s.trigger && x in s.sockets;
      }
    }
  }

  lemma TurnKeepsMode(sv: Services, fd: nat, c: Entry, k: Kernel)
    requires c.Connection?
    ensures var d := ParseOnce(sv, fd, c, k).0; d.Connection? && d.mode == c.mode && d.uuid == c.uuid
  {
  }

  lemma StepKeepsTokens(sv: Services, s: State, e: Event)
    requires BufferingBehindTokens(s) && Enabled(s, e)
    ensures BufferingBehindTokens(Step(sv, s, e))
  {
    match e
    case Bytes(fd, chunk, ok, k) => ReceiveKeepsTokens(sv, s, fd, chunk, ok, k);
    case Trigger(k) => ParseAgainKeepsTokens(sv, s, k);
    case _ =>
  }

  lemma StepAttends(sv: Services, s: State, e: Event, uuid: Uuid)
    requires Lawful(sv.scan) && AttendsTo(sv, s, uuid) && BufferingBehindTokens(s)
    requires Enabled(s, e) && ServedOnce(s, e, uuid)
    ensures AttendsTo(sv, Step(sv, s, e), uuid)
  {
    match e
    case Add(fd, asClient, mode, u) =>
      if fd !in s.sockets { RegisterAttends(sv, s, fd, NewEntry(asClient, mode, u), uuid); }
    case Incoming(l, fd, u, keep) =>
      if l >= 1 && IsListener(s.sockets, l) {
        var c := AcceptedEntry(s, l, u);
        RegisterAttends(sv, s, fd, c, uuid);
        var t := Register(s, fd, c);
        ReleaseAttends(sv, t, Victims(t.sockets, fd), uuid);
      }
    case Close(fd) => ReleaseAttends(sv, s, Victims(s.sockets, fd), uuid);
    case CloseByUuid(u) => ReleaseAttends(sv, s, Victims(s.sockets, SocketOf(s, u)), uuid);
    case CloseEverything => ReleaseAttends(sv, s, ClientKeys(s.sockets), uuid);
    case Bytes(fd, chunk, ok, k) => ReceiveAttends(sv, s, fd, chunk, ok, k, uuid);
    case Trigger(k) => ParseAgainAttends(sv, s, k, uuid);
  }

  lemma {:induction false} RunAttends(sv: Services, s: State, es: seq<Event>, uuid: Uuid)
    requires Lawful(sv.scan) && AttendsTo(sv, s, uuid) && BufferingBehindTokens(s)
    requires Possible(sv, s, es) && Served(sv, s, es, uuid)
    ensures AttendsTo(sv, Run(sv, s, es), uuid)
    decreases |es|
  {
    if es != [] {
      StepAttends(sv, s, es[0], uuid);
      StepKeepsTokens(sv, s, es[0]);
      RunAttends(sv, Step(sv, s, es[0]), es[1..], uuid);
    }
  }

  // --------------------------------------------------------------- main results

  /** es is a run from an empty app after which fd is a signaling connection. The kernel
      has taken every answer to this connection; other sockets are not restricted. */
  ghost predicate Observed(sv: Services, es: seq<Event>, fd: nat) {
    && Lawful(sv.scan) && Possible(sv, INIT, es)
    && Signaling(Run(sv, INIT, es), fd)
    && Served(sv, INIT, es, Run(sv, INIT, es).sockets[fd].uuid)
  }

  /** The connection at fd after a run. */
  ghost function After(sv: Services, es: seq<Event>, fd: nat): Entry
    requires Observed(sv, es, fd)
  {
    Run(sv, INIT, es).sockets[fd]
  }

  lemma ObservedIsAttended(sv: Services, es: seq<Event>, fd: nat)
    requires Observed(sv, es, fd)
    ensures Lossless(sv.scan, After(sv, es, fd)) && Attended(sv, Run(sv, INIT, es), fd)
  {
    RunAttends(sv, INIT, es, After(sv, es, fd).uuid);
  }

  /** No complete message waits at the front of a buffer without its socket in the trigger
      queue, and every byte received is in a message cut off or still buffered, in order. */
  lemma NoStrandedMessage(sv: Services, es: seq<Event>, fd: nat)
    requires Observed(sv, es, fd)
    ensures var c := After(sv, es, fd);
      && CutFrom(sv.scan, c.frames, c.buffer) && c.received == BytesOf(c.frames) + c.buffer
      && (Welcome(sv, c.frames) && sv.scan(c.buffer).Complete? ==> fd in Run(sv, INIT, es).trigger)
  {
    ObservedIsAttended(sv, es, fd);
  }

  /** End to end: once no token of a connection is queued, what has been written to it are the
      encoded answers to the messages in the bytes received from it, in order, however the bytes
      were split and whatever happened to other sockets, if the bytes are steady. */
  lemma AnsweredInOrder(sv: Services, es: seq<Event>, fd: nat)
    requires Observed(sv, es, fd) && fd !in Run(sv, INIT, es).trigger
    requires StaysInside(sv.scan) && Steady(sv.scan, After(sv, es, fd).received)
    requires Welcome(sv, Messages(sv.scan, After(sv, es, fd).received))
    ensures var c := After(sv, es, fd);
      c.frames == Messages(sv.scan, c.received) && c.sent == Answers(sv, Messages(sv.scan, c.received))
  {
    ObservedIsAttended(sv, es, fd);
    var c := After(sv, es, fd);
    CutAgreesWithOnePass(sv.scan, c.frames, c.buffer);
    assert forall m :: m in c.frames ==> m in c.frames + Messages(sv.scan, c.buffer);
    assert Messages(sv.scan, c.buffer) == [];
    assert c.frames + [] == c.frames;
  }

  /** With no condition on the bytes: what has been written are the answers to the messages cut off,
      and these are the messages of one pass over all bytes received iff one pass finds each of
      them where it was cut off. */
  lemma AnsweredExactly(sv: Services, es: seq<Event>, fd: nat)
    requires Observed(sv, es, fd) && fd !in Run(sv, INIT, es).trigger && Welcome(sv, After(sv, es, fd).frames)
    ensures var c := After(sv, es, fd);
      && StaysInside(sv.scan) && c.received == BytesOf(c.frames) + c.buffer && c.sent == Answers(sv, c.frames)
      && (c.frames == Messages(sv.scan, c.received) <==> FoundAgain(sv.scan, c.frames, c.buffer))
  {
    ObservedIsAttended(sv, es, fd);
    var c := After(sv, es, fd);
    CutAgreesExactly(sv.scan, c.frames, c.buffer);
  }

  /** Two connections that sent the same steady bytes have been answered alike, in any two runs. */
  lemma ChunkingDoesNotMatter(sv: Services, es: seq<Event>, fd: nat, es': seq<Event>, fd': nat)
    requires Observed(sv, es, fd) && fd !in Run(sv, INIT, es).trigger
    requires Observed(sv, es', fd') && fd' !in Run(sv, INIT, es').trigger
    requires After(sv, es, fd).received == After(sv, es', fd').received
    requires StaysInside(sv.scan) && Steady(sv.scan, After(sv, es, fd).received)
    requires Welcome(sv, Messages(sv.scan, After(sv, es, fd).received))
    ensures After(sv, es, fd).sent == After(sv, es', fd').sent
  {
    AnsweredInOrder(sv, es, fd);
    AnsweredInOrder(sv, es', fd');
  }
}
