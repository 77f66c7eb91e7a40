/** When a complete message is left in a buffer with nothing queued that would bring it out. */
module Stranding {
  import opened AppModel
  import opened Framing
  import opened Draining

  /** The next message at fd is complete, and no token of the socket is queued. */
  ghost predicate Stranded(sv: Services, s: State, fd: nat) {
    && IsConnection(s.sockets, fd) && s.sockets[fd].mode == Buffering
    && sv.scan(s.sockets[fd].buffer).Complete? && fd !in s.trigger
  }

  /** A turn from the trigger queue that refuses a message at fd, with the next one complete behind
      it and no other token of the socket queued. */
  ghost predicate Strands(sv: Services, s: State, e: Event, fd: nat) {
    && e.Trigger? && s.trigger != [] && s.trigger[0] == fd && fd !in s.trigger[1..]
    && IsConnection(s.sockets, fd) && s.sockets[fd].mode == Buffering
    && var b := s.sockets[fd].buffer;
    && sv.scan(b).Complete? && Refuses(sv, fd, sv.scan(b).value, e.k)
    && sv.scan(b[|FirstWord(sv.scan, b)|..]).Complete?
  }

  /** The event neither reads from fd nor closes it. */
  ghost predicate Quiet(sv: Services, s: State, e: Event, fd: nat) {
    Enabled(s, e) && !(e.Bytes? && e.fd == fd) && fd in Step(sv, s, e).sockets
  }

  /** fd is as before or closed, and so are its tokens. */
  lemma Undisturbed(sv: Services, s: State, t: State, fd: nat)
    requires fd in t.sockets ==> fd in s.sockets && t.sockets[fd] == s.sockets[fd]
    requires fd in t.trigger <==> fd in s.trigger
    ensures Stranded(sv, t, fd) <==> Stranded(sv, s, fd) && fd in t.sockets
  {
  }

  lemma Registered(sv: Services, s: State, k: nat, e: Entry, fd: nat)
    requires Lawful(sv.scan) && k !in s.sockets && (e.Connection? ==> e.buffer == [])
    ensures Stranded(sv, Register(s, k, e), fd) <==> Stranded(sv, s, fd)
  {
  }

  lemma ReadElsewhere(sv: Services, s: State, k: nat, chunk: seq<byte>, ok: bool, kernel: Kernel, fd: nat)
    requires IsConnection(s.sockets, k) && fd != k
    ensures var t := Receive(sv, s, k, chunk, ok, kernel);
      (fd in t.sockets ==> fd in s.sockets && t.sockets[fd] == s.sockets[fd]) && (fd in t.trigger <==> fd in s.trigger)
  {
  }

  lemma ReadHere(sv: Services, s: State, k: nat, chunk: seq<byte>, ok: bool, kernel: Kernel)
    requires Lawful(sv.scan) && IsConnection(s.sockets, k)
    ensures !Stranded(sv, Receive(sv, s, k, chunk, ok, kernel), k)
  {
    var c := Append(s.sockets[k], chunk);
    var (d, turn) := if c.mode == Raw then (c, Idle) else ParseOnce(sv, k, c, kernel);
    assert k in Victims(Update(s, k, d).sockets, k);
  }

  /** A read at k leaves nothing stranded there and changes nothing elsewhere. */
  lemma ReadStrandsNothing(sv: Services, s: State, k: nat, chunk: seq<byte>, ok: bool, kernel: Kernel, fd: nat)
    requires Lawful(sv.scan) && IsConnection(s.sockets, k)
    ensures var t := Receive(sv, s, k, chunk, ok, kernel);
      Stranded(sv, t, fd) <==> Stranded(sv, s, fd) && fd != k && fd in t.sockets
  {
    if fd == k {
      ReadHere(sv, s, k, chunk, ok, kernel);
    } else {
      ReadElsewhere(sv, s, k, chunk, ok, kernel, fd);
      Undisturbed(sv, s, Receive(sv, s, k, chunk, ok, kernel), fd);
    }
  }

  lemma TurnElsewhere(sv: Services, s: State, k: Kernel, fd: nat)
    requires s.trigger != [] && fd != s.trigger[0]
    ensures var t := ParseAgain(sv, s, k);
      && (fd in t.sockets <==> fd in s.sockets) && (fd in s.sockets ==> t.sockets[fd] == s.sockets[fd])
      && (fd in t.trigger <==> fd in s.trigger)
  {
    assert s.trigger == [s.trigger[0]] + s.trigger[1..];
  }

  /** A turn strands a message at fd in exactly one way; if it is a turn elsewhere, fd is as before. */
  lemma TurnStrandsExactly(sv: Services, s: State, k: Kernel, fd: nat)
    requires Lawful(sv.scan) && s.trigger != []
    ensures Stranded(sv, ParseAgain(sv, s, k), fd) <==>
      Strands(sv, s, Trigger(k), fd) || (Stranded(sv, s, fd) && fd in ParseAgain(sv, s, k).sockets)
  {
    if s.trigger[0] != fd {
      TurnElsewhere(sv, s, k, fd);
      Undisturbed(sv, s, ParseAgain(sv, s, k), fd);
    } else {
      assert fd in s.trigger;
    }
  }

  /** An event leaves a message stranded iff it strands one, or is quiet with one stranded before. */
  lemma StepStrandsExactly(sv: Services, s: State, e: Event, fd: nat)
    requires Lawful(sv.scan) && Enabled(s, e)
    ensures Stranded(sv, Step(sv, s, e), fd) <==> Strands(sv, s, e, fd) || (Stranded(sv, s, fd) && Quiet(sv, s, e, fd))
  {
    match e
    case Add(k, asClient, mode, u) =>
      if k !in s.sockets { Registered(sv, s, k, NewEntry(asClient, mode, u), fd); }
    case Incoming(l, k, u, keep) =>
      if l >= 1 && IsListener(s.sockets, l) {
        var t := Register(s, k, AcceptedEntry(s, l, u));
        Registered(sv, s, k, AcceptedEntry(s, l, u), fd);
        Undisturbed(sv, t, CloseSocket(t, k), fd);
      }
    case Close(k) => Undisturbed(sv, s, CloseSocket(s, k), fd);
    case CloseByUuid(u) => Undisturbed(sv, s, CloseUuid(s, u), fd);
    case CloseEverything => Undisturbed(sv, s, CloseAll(s), fd);
    case Bytes(k, chunk, ok, kernel) => ReadStrandsNothing(sv, s, k, chunk, ok, kernel, fd);
    case Trigger(k) => TurnStrandsExactly(sv, s, k, fd);
  }

  // -------------------------------------------------------------------------- runs

  ghost predicate AllQuiet(sv: Services, s: State, es: seq<Event>, fd: nat)
    decreases |es|
  {
    es == [] || (Quiet(sv, s, es[0], fd) && AllQuiet(sv, Step(sv, s, es[0]), es[1..], fd))
  }

  /** Some event of the run strands a message at fd, and all events after it are quiet. */
  ghost predicate RefusedLast(sv: Services, s: State, es: seq<Event>, fd: nat)
    requires Possible(sv, s, es)
    decreases |es|
  {
    es != [] &&
    var t := Step(sv, s, es[0]);
    (Strands(sv, s, es[0], fd) && AllQuiet(sv, t, es[1..], fd)) || RefusedLast(sv, t, es[1..], fd)
  }

  lemma {:induction false} RunStrandsExactly(sv: Services, s: State, es: seq<Event>, fd: nat)
    requires Lawful(sv.scan) && Possible(sv, s, es)
    ensures Stranded(sv, Run(sv, s, es), fd) <==>
      RefusedLast(sv, s, es, fd) || (Stranded(sv, s, fd) && AllQuiet(sv, s, es, fd))
    decreases |es|
  {
    if es != [] {
      StepStrandsExactly(sv, s, es[0], fd);
      RunStrandsExactly(sv, Step(sv, s, es[0]), es[1..], fd);
    }
  }

  /** In every run of an app: a message is stranded at fd iff a turn from the trigger queue has
      refused the message before it, with no other token queued, and since then the connection has
      neither been read from nor closed. */
  lemma StrandedExactly(sv: Services, es: seq<Event>, fd: nat)
    requires Lawful(sv.scan) && Possible(sv, INIT, es)
    ensures Stranded(sv, Run(sv, INIT, es), fd) <==> RefusedLast(sv, INIT, es, fd)
  {
    RunStrandsExactly(sv, INIT, es, fd);
  }

  lemma QuietKeeps(sv: Services, s: State, e: Event, fd: nat)
    requires Stranded(sv, s, fd) && Quiet(sv, s, e, fd)
    ensures fd in Step(sv, s, e).sockets && Step(sv, s, e).sockets[fd] == s.sockets[fd]
  {
    if e.Trigger? {
      assert s.trigger[0] in s.trigger;
      TurnElsewhere(sv, s, e.k, fd);
    } else if e.Bytes? {
      ReadElsewhere(sv, s, e.fd, e.chunk, e.ok, e.k, fd);
    }
  }

  /** A stranded message stays undelivered, with the whole connection as it was, until the next read. */
  lemma {:induction false} StrandedUntilRead(sv: Services, s: State, es: seq<Event>, fd: nat)
    requires Lawful(sv.scan) && Possible(sv, s, es) && Stranded(sv, s, fd) && AllQuiet(sv, s, es, fd)
    ensures Stranded(sv, Run(sv, s, es), fd) && Run(sv, s, es).sockets[fd] == s.sockets[fd]
    decreases |es|
  {
    if es != [] {
      StepStrandsExactly(sv, s, es[0], fd);
      QuietKeeps(sv, s, es[0], fd);
      StrandedUntilRead(sv, Step(sv, s, es[0]), es[1..], fd);
    }
  }

  // ------------------------------------------------------------------------ one run

  /** The app after one signaling connection has been added and has sent some bytes. */
  lemma FirstRead(sv: Services, fd: nat, uuid: Uuid, chunk: seq<byte>)
    requires Lawful(sv.scan) && fd != 0 && sv.scan(chunk).Complete? && !Refuses(sv, fd, sv.scan(chunk).value, TakesAll)
    requires chunk[sv.scan(chunk).length..] != []
    ensures var s := Receive(sv, Register(INIT, fd, NewConnection(uuid, 0, Buffering)), fd, chunk, true, TakesAll);
      && IsConnection(s.sockets, fd) && s.sockets[fd].mode == Buffering && s.trigger == [fd]
      && s.sockets[fd].buffer == chunk[sv.scan(chunk).length..]
  {
    assert [] + chunk == chunk && [] + [fd] == [fd];
  }

  /** Three messages in one read, the second of which is refused: it is parsed from the trigger
      queue, where the connection is not closed for it, and the third message is left behind
      complete, with nothing queued that would bring it out. */
  lemma RefusalStrandsNextMessage(sv: Services, fd: nat, uuid: Uuid, chunk: seq<byte>)
    requires Lawful(sv.scan) && fd != 0 && 1 <= |chunk| <= READ_BUFFER_SIZE
    requires sv.scan(chunk).Complete? && !Refuses(sv, fd, sv.scan(chunk).value, TakesAll)
    requires var b := chunk[sv.scan(chunk).length..];
      && sv.scan(b).Complete? && Refuses(sv, fd, sv.scan(b).value, TakesAll)
      && sv.scan(b[sv.scan(b).length..]).Complete?
    ensures var es := [Add(fd, true, Buffering, uuid), Bytes(fd, chunk, true, TakesAll), Trigger(TakesAll)];
      Possible(sv, INIT, es) && Stranded(sv, Run(sv, INIT, es), fd)
  {
    var e0, e1, e2 := Add(fd, true, Buffering, uuid), Bytes(fd, chunk, true, TakesAll), Trigger(TakesAll);
    var s1 := Step(sv, INIT, e0);
    var s2 := Step(sv, s1, e1);
    FirstRead(sv, fd, uuid, chunk);
    assert Strands(sv, s2, e2, fd);
    StepStrandsExactly(sv, s2, e2, fd);
    ThreeEvents(sv, INIT, e0, e1, e2);
  }

  lemma EventAndRest(sv: Services, s: State, e: Event, es: seq<Event>)
    requires Enabled(s, e) && Possible(sv, Step(sv, s, e), es)
    ensures Possible(sv, s, [e] + es) && Run(sv, s, [e] + es) == Run(sv, Step(sv, s, e), es)
  {
    assert ([e] + es)[0] == e && ([e] + es)[1..] == es;
  }

  lemma ThreeEvents(sv: Services, s: State, e0: Event, e1: Event, e2: Event)
    requires Enabled(s, e0) && Enabled(Step(sv, s, e0), e1) && Enabled(Step(sv, Step(sv, s, e0), e1), e2)
    ensures Possible(sv, s, [e0, e1, e2])
    ensures Run(sv, s, [e0, e1, e2]) == Step(sv, Step(sv, Step(sv, s, e0), e1), e2)
  {
    TwoEvents(sv, Step(sv, s, e0), e1, e2);
    EventAndRest(sv, s, e0, [e1, e2]);
    assert [e0] + [e1, e2] == [e0, e1, e2];
  }

  lemma TwoEvents(sv: Services, s: State, e0: Event, e1: Event)
    requires Enabled(s, e0) && Enabled(Step(sv, s, e0), e1)
    ensures Possible(sv, s, [e0, e1]) && Run(sv, s, [e0, e1]) == Step(sv, Step(sv, s, e0), e1)
  {
    EventAndRest(sv, Step(sv, s, e0), e1, []);
    assert [e1] + [] == [e1];
    EventAndRest(sv, s, e0, [e1]);
    assert [e0] + [e1] == [e0, e1];
  }
}
