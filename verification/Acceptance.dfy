/** Which sockets are there, and which listener brought them in, read off the events of a run. */
module Acceptance {
  import opened AppModel
  import opened Framing
  import opened Options
  import opened Registry

  // ------------------------------------------------------------------- one event

  /** A socket that is added is there afterwards, as what it was added. */
  lemma AddedIsThere(sv: Services, s: State, fd: nat, asClient: bool, mode: Mode, uuid: Uuid)
    requires Enabled(s, Add(fd, asClient, mode, uuid)) && fd !in s.sockets
    ensures var t := Step(sv, s, Add(fd, asClient, mode, uuid));
      && fd in t.sockets && t.sockets[fd].mode == mode && t.sockets.Keys == s.sockets.Keys + {fd}
      && (asClient <==> IsConnection(t.sockets, fd)) && (asClient ==> t.sockets[fd].uuid == uuid && t.uuids == s.uuids[uuid := fd])
      && t.registered == s.registered + multiset{fd}
  {
  }

  /** A socket that is there already is not added again. */
  lemma AddedTwice(sv: Services, s: State, fd: nat, asClient: bool, mode: Mode, uuid: Uuid)
    requires Enabled(s, Add(fd, asClient, mode, uuid)) && fd in s.sockets
    ensures Step(sv, s, Add(fd, asClient, mode, uuid)) == s
  {
  }

  /** A connection accepted by a listener has its parser mode and goes when the listener is closed. */
  lemma AcceptedGoesWithListener(s: State, l: nat, fd: nat, uuid: Uuid)
    requires l >= 1 && IsListener(s.sockets, l) && fd > 0 && fd !in s.sockets
    ensures var t := Accept(s, l, fd, uuid, true);
      && IsConnection(t.sockets, fd) && t.sockets[fd].uuid == uuid && t.sockets[fd].mode == s.sockets[l].mode
      && t.sockets.Keys == s.sockets.Keys + {fd} && t.uuids == s.uuids[uuid := fd]
      && l !in CloseSocket(t, l).sockets && fd !in CloseSocket(t, l).sockets
  {
    var t := Accept(s, l, fd, uuid, true);
    assert fd in Victims(t.sockets, l);
  }

  /** A connection the callback declines is not there, and has been closed. */
  lemma DeclinedIsClosed(s: State, l: nat, fd: nat, uuid: Uuid)
    requires l >= 1 && IsListener(s.sockets, l) && fd !in s.sockets && uuid !in s.uuids
    ensures var t := Accept(s, l, fd, uuid, false);
      && t.sockets == s.sockets && t.uuids == s.uuids && t.closed == s.closed + multiset{fd}
      && t.callbacks == s.callbacks + multiset{Closing(fd, Some(uuid))}
  {
    var t := Register(s, fd, AcceptedEntry(s, l, uuid));
    CloseConnectionExactly(t, fd);
    assert t.sockets - {fd} == s.sockets && t.uuids - {uuid} == s.uuids;
  }

  /** Closing a connection takes it and its uuid out, closes its socket once and runs its callback once. */
  lemma CloseConnectionExactly(s: State, fd: nat)
    requires IsConnection(s.sockets, fd)
    ensures var t := CloseSocket(s, fd); var uuid := s.sockets[fd].uuid;
      && t.sockets == s.sockets - {fd} && t.uuids == s.uuids - {uuid}
      && t.closed == s.closed + multiset{fd} && t.callbacks == s.callbacks + multiset{Closing(fd, Some(uuid))}
      && t.trigger == s.trigger && t.registered == s.registered
  {
    assert UuidsAt(s.sockets, {fd}) == {s.sockets[fd].uuid};
    assert ClosingsAt(s.sockets, {fd}) == {Closing(fd, Some(s.sockets[fd].uuid))};
  }

  // ------------------------------------------------------------------------ runs

  /** The sockets of before that are still there, and the one an event brought in through l. */
  function GuestsAfter(e: Event, t: State, l: nat, before: set<nat>): set<nat> {
    (set fd | fd in before && fd in t.sockets) +
    (if e.Incoming? && e.listener == l && e.fd in t.sockets then {e.fd} else {})
  }

  /** The connections that Incoming events of the run have brought in through l and that have not
      been closed since. */
  function Guests(sv: Services, s: State, es: seq<Event>, l: nat, before: set<nat>): set<nat>
    requires Possible(sv, s, es)
    decreases |es|
  {
    if es == [] then before
    else
      var t := Step(sv, s, es[0]);
      Guests(sv, t, es[1..], l, GuestsAfter(es[0], t, l, before))
  }

  /** These are the connections that came in through l. */
  ghost predicate AreGuests(s: State, l: nat, guests: set<nat>) {
    forall fd :: fd in guests <==> CameThrough(s.sockets, fd, l)
  }

  /** t has the entries of s that are left, with their masters, and no other. */
  ghost predicate OnlyFewer(s: State, t: State) {
    forall fd :: fd in t.sockets ==> fd in s.sockets && t.sockets[fd].Connection? == s.sockets[fd].Connection? &&
                                     (t.sockets[fd].Connection? ==> t.sockets[fd].master == s.sockets[fd].master)
  }

  lemma ReceiveOnlyFewer(sv: Services, s: State, fd: nat, chunk: seq<byte>, ok: bool, k: Kernel)
    requires IsConnection(s.sockets, fd)
    ensures OnlyFewer(s, Receive(sv, s, fd, chunk, ok, k))
  {
    var c := Append(s.sockets[fd], chunk);
    if c.mode == Buffering { ParseOnceKeepsIdentity(sv, fd, c, k); }
  }

  lemma ParseAgainOnlyFewer(sv: Services, s: State, k: Kernel)
    requires s.trigger != []
    ensures OnlyFewer(s, ParseAgain(sv, s, k))
  {
    var fd := s.trigger[0];
    if IsConnection(s.sockets, fd) { ParseOnceKeepsIdentity(sv, fd, s.sockets[fd], k); }
  }

  lemma StepOnlyFewer(sv: Services, s: State, e: Event)
    requires Enabled(s, e) && !e.Add? && !e.Incoming?
    ensures OnlyFewer(s, Step(sv, s, e))
  {
    match e
    case Bytes(fd, chunk, ok, k) => ReceiveOnlyFewer(sv, s, fd, chunk, ok, k);
    case Trigger(k) => ParseAgainOnlyFewer(sv, s, k);
    case _ =>
  }

  lemma StepGuests(sv: Services, s: State, e: Event, l: nat, guests: set<nat>)
    requires l >= 1 && Enabled(s, e) && AreGuests(s, l, guests)
    ensures AreGuests(Step(sv, s, e), l, GuestsAfter(e, Step(sv, s, e), l, guests))
  {
    if !e.Add? && !e.Incoming? { StepOnlyFewer(sv, s, e); }
  }

  lemma {:induction false} RunGuests(sv: Services, s: State, es: seq<Event>, l: nat, guests: set<nat>)
    requires l >= 1 && Possible(sv, s, es) && AreGuests(s, l, guests)
    ensures AreGuests(Run(sv, s, es), l, Guests(sv, s, es, l, guests))
    decreases |es|
  {
    if es != [] {
      var t := Step(sv, s, es[0]);
      StepGuests(sv, s, es[0], l, guests);
      RunGuests(sv, t, es[1..], l, GuestsAfter(es[0], t, l, guests));
    }
  }

  /** After every run, closing a listener closes exactly the listener and the connections that
      events of the run have brought in through it, except one at socket 0. */
  lemma ListenerClosesItsGuests(sv: Services, es: seq<Event>, l: nat)
    requires l >= 1 && Possible(sv, INIT, es) && IsListener(Run(sv, INIT, es).sockets, l)
    ensures var s := Run(sv, INIT, es);
      CloseSocket(s, l).sockets == s.sockets - ({l} + (Guests(sv, INIT, es, l, {}) - {0}))
  {
    var s := Run(sv, INIT, es);
    RunGuests(sv, INIT, es, l, {});
    assert Victims(s.sockets, l) == {l} + (Guests(sv, INIT, es, l, {}) - {0});
  }
}
