/** The two dictionaries of an app agree and nothing is lost between them, whatever happens. */
module Registry {
  import opened AppModel
  import opened Framing

  /** A uuid maps to a socket iff the entry at the socket is the connection with that uuid. */
  ghost predicate Bijective(s: State) {
    forall u, fd :: (u in s.uuids && s.uuids[u] == fd) <==> (IsConnection(s.sockets, fd) && s.sockets[fd].uuid == u)
  }

  /** The listener of every accepted connection is still there. Socket 0 is not promised this. */
  ghost predicate NoOrphans(m: Sockets) {
    forall fd :: fd != 0 && IsConnection(m, fd) && m[fd].master != 0 ==> IsListener(m, m[fd].master)
  }

  /** Everything ever registered has been closed as often as it was registered, or is still live. */
  ghost predicate Conserved(s: State) {
    && s.registered == s.closed + multiset(s.sockets.Keys)
    && |s.callbacks| == |s.closed|
  }

  ghost predicate Consistent(s: State) {
    Bijective(s) && NoOrphans(s.sockets) && Conserved(s)
  }

  // --------------------------------------------------------------- releasing

  lemma UuidsOfTwoSets(m: Sockets, a: set<nat>, b: set<nat>)
    requires a !! b
    ensures UuidsAt(m, a) + UuidsAt(m - a, b) == UuidsAt(m, a + b)
  {
  }

  lemma ClosingsOfTwoSets(m: Sockets, a: set<nat>, b: set<nat>)
    requires a !! b
    ensures ClosingsAt(m, a) !! ClosingsAt(m - a, b)
    ensures ClosingsAt(m, a) + ClosingsAt(m - a, b) == ClosingsAt(m, a + b)
  {
  }

  lemma MultisetOfUnion<T>(a: set<T>, b: set<T>)
    requires a !! b
    ensures multiset(a) + multiset(b) == multiset(a + b)
  {
  }

  lemma MinusTwice<K, V>(m: map<K, V>, a: set<K>, b: set<K>)
    ensures (m - a) - b == m - (a + b)
  {
  }

  /** Releasing sets of entries one after the other is releasing them together. */
  lemma ReleaseTwice(s: State, a: set<nat>, b: set<nat>)
    requires a <= s.sockets.Keys && b <= s.sockets.Keys && a !! b
    ensures Release(Release(s, a), b) == Release(s, a + b)
  {
    var m := s.sockets;
    UuidsOfTwoSets(m, a, b);
    ClosingsOfTwoSets(m, a, b);
    MultisetOfUnion(a, b);
    MultisetOfUnion(ClosingsAt(m, a), ClosingsAt(m - a, b));
    MinusTwice(m, a, b);
    MinusTwice(s.uuids, UuidsAt(m, a), UuidsAt(m - a, b));
  }

  lemma {:induction false} OneClosingEach(m: Sockets, fds: set<nat>)
    requires fds <= m.Keys
    ensures |ClosingsAt(m, fds)| == |fds|
    decreases fds
  {
    if fds == {} {
      assert ClosingsAt(m, fds) == {};
    } else {
      var fd :| fd in fds;
      OneClosingEach(m, fds - {fd});
      assert ClosingsAt(m, fds) == ClosingsAt(m, fds - {fd}) + {Closing(fd, UuidOf(m[fd]))};
    }
  }

  lemma ReleaseKeepsBijection(s: State, fds: set<nat>)
    requires Bijective(s)
    ensures Bijective(Release(s, fds))
  {
    var t := Release(s, fds);
    forall u, fd
      ensures (u in t.uuids && t.uuids[u] == fd) <==> (IsConnection(t.sockets, fd) && t.sockets[fd].uuid == u)
    {
      assert (u in s.uuids && s.uuids[u] == fd) <==> (IsConnection(s.sockets, fd) && s.sockets[fd].uuid == u);
      if u in UuidsAt(s.sockets, fds) {
        var other :| other in fds && IsConnection(s.sockets, other) && s.sockets[other].uuid == u;
        assert s.uuids[u] == other;
      }
    }
  }

  /** Listeners may only be released together with the connections they accepted. */
  ghost predicate TakesAccepted(m: Sockets, fds: set<nat>) {
    forall l :: l in fds && l != 0 && IsListener(m, l) ==> Accepted(m, l) <= fds
  }

  lemma ReleaseKeepsParents(m: Sockets, fds: set<nat>)
    requires NoOrphans(m) && TakesAccepted(m, fds)
    ensures NoOrphans(m - fds)
  {
    forall fd | fd != 0 && IsConnection(m - fds, fd) && m[fd].master != 0
      ensures IsListener(m - fds, m[fd].master)
    {
      assert IsConnection(m, fd) && fd in Accepted(m, m[fd].master);
    }
  }

  lemma ReleaseConserves(s: State, fds: set<nat>)
    requires Conserved(s) && fds <= s.sockets.Keys
    ensures Conserved(Release(s, fds))
  {
    OneClosingEach(s.sockets, fds);
    assert (s.sockets - fds).Keys + fds == s.sockets.Keys;
    MultisetOfUnion((s.sockets - fds).Keys, fds);
  }

  lemma ReleaseKeeps(s: State, fds: set<nat>)
    requires Consistent(s) && fds <= s.sockets.Keys && TakesAccepted(s.sockets, fds)
    ensures Consistent(Release(s, fds))
  {
    ReleaseKeepsBijection(s, fds);
    ReleaseKeepsParents(s.sockets, fds);
    ReleaseConserves(s, fds);
  }

  lemma CloseSocketKeeps(s: State, fd: nat)
    requires Consistent(s)
    ensures Consistent(CloseSocket(s, fd))
  {
    ReleaseKeeps(s, Victims(s.sockets, fd));
  }

  lemma RegisterKeepsBijection(s: State, fd: nat, e: Entry)
    requires Bijective(s) && fd !in s.sockets && (e.Connection? ==> e.uuid !in s.uuids)
    ensures Bijective(Register(s, fd, e))
  {
    var t := Register(s, fd, e);
    forall u, k
      ensures (u in t.uuids && t.uuids[u] == k) <==> (IsConnection(t.sockets, k) && t.sockets[k].uuid == u)
    {
      assert (u in s.uuids && s.uuids[u] == k) <==> (IsConnection(s.sockets, k) && s.sockets[k].uuid == u);
    }
  }

  lemma RegisterKeepsParents(m: Sockets, fd: nat, e: Entry)
    requires NoOrphans(m) && fd !in m && (e.Connection? && e.master != 0 ==> IsListener(m, e.master))
    ensures NoOrphans(m[fd := e])
  {
    var t := m[fd := e];
    forall k | k != 0 && IsConnection(t, k) && t[k].master != 0
      ensures IsListener(t, t[k].master)
    {
      assert k != fd ==> IsConnection(m, k) && IsListener(m, m[k].master);
    }
  }

  lemma RegisterKeeps(s: State, fd: nat, e: Entry)
    requires Consistent(s) && fd !in s.sockets
    requires e.Connection? ==> e.uuid !in s.uuids && (e.master != 0 ==> IsListener(s.sockets, e.master))
    ensures Consistent(Register(s, fd, e))
  {
    RegisterKeepsBijection(s, fd, e);
    RegisterKeepsParents(s.sockets, fd, e);
    assert s.sockets[fd := e].Keys == s.sockets.Keys + {fd};
    MultisetOfUnion(s.sockets.Keys, {fd});
  }

  /** Changing the buffer and the history of a connection is invisible to the dictionaries. */
  lemma UpdateKeeps(s: State, fd: nat, e: Entry)
    requires Consistent(s) && IsConnection(s.sockets, fd)
    requires e.Connection? && e.uuid == s.sockets[fd].uuid && e.master == s.sockets[fd].master
    ensures Consistent(Update(s, fd, e))
  {
    var t := Update(s, fd, e);
    assert t.sockets.Keys == s.sockets.Keys;
    forall u, k
      ensures (u in t.uuids && t.uuids[u] == k) <==> (IsConnection(t.sockets, k) && t.sockets[k].uuid == u)
    {
      assert (u in s.uuids && s.uuids[u] == k) <==> (IsConnection(s.sockets, k) && s.sockets[k].uuid == u);
    }
    forall k | k != 0 && IsConnection(t.sockets, k) && t.sockets[k].master != 0
      ensures IsListener(t.sockets, t.sockets[k].master)
    {
      assert IsConnection(s.sockets, k) && IsListener(s.sockets, s.sockets[k].master);
    }
  }

  /** What a parser turn leaves alone. */
  lemma ParseOnceKeepsIdentity(sv: Services, fd: nat, c: Entry, k: Kernel)
    requires c.Connection?
    ensures var d := ParseOnce(sv, fd, c, k).0;
      d.Connection? && d.uuid == c.uuid && d.master == c.master && d.mode == c.mode && d.received == c.received
  {
  }

  lemma ReceiveKeeps(sv: Services, s: State, fd: nat, chunk: seq<byte>, ok: bool, k: Kernel)
    requires Consistent(s) && IsConnection(s.sockets, fd)
    ensures Consistent(Receive(sv, s, fd, chunk, ok, k))
  {
    var c := Append(s.sockets[fd], chunk);
    var d := if c.mode == Raw then c else ParseOnce(sv, fd, c, k).0;
    ParseOnceKeepsIdentity(sv, fd, c, k);
    UpdateKeeps(s, fd, d);
    CloseSocketKeeps(Update(s, fd, d), fd);
    TriggerKeeps(Update(s, fd, d), fd, d);
  }

  lemma TriggerKeeps(s: State, fd: nat, e: Entry)
    requires Consistent(s) && e.Connection?
    ensures Consistent(TriggerParseAgain(s, fd, e))
  {
  }

  lemma ParseAgainKeeps(sv: Services, s: State, k: Kernel)
    requires Consistent(s) && s.trigger != []
    ensures Consistent(ParseAgain(sv, s, k))
  {
    var fd := s.trigger[0];
    var t := s.(trigger := s.trigger[1..]);
    assert Consistent(t);
    if IsConnection(t.sockets, fd) {
      ParseOnceKeepsIdentity(sv, fd, t.sockets[fd], k);
      UpdateKeeps(t, fd, ParseOnce(sv, fd, t.sockets[fd], k).0);
    }
  }

  lemma StepKeeps(sv: Services, s: State, e: Event)
    requires Consistent(s) && Enabled(s, e)
    ensures Consistent(Step(sv, s, e))
  {
    match e
    case Add(fd, asClient, mode, uuid) =>
      if fd !in s.sockets { RegisterKeeps(s, fd, NewEntry(asClient, mode, uuid)); }
    case Incoming(l, fd, uuid, keep) =>
      if l >= 1 && IsListener(s.sockets, l) {
        var c := AcceptedEntry(s, l, uuid);
        RegisterKeeps(s, fd, c);
        CloseSocketKeeps(Register(s, fd, c), fd);
      }
    case Close(fd) => CloseSocketKeeps(s, fd);
    case CloseByUuid(uuid) => CloseSocketKeeps(s, SocketOf(s, uuid));
    case CloseEverything => ReleaseKeeps(s, ClientKeys(s.sockets));
    case Bytes(fd, chunk, ok, k) => ReceiveKeeps(sv, s, fd, chunk, ok, k);
    case Trigger(k) => ParseAgainKeeps(sv, s, k);
  }

  /** Bijection, no orphans and conservation hold in every state an app can reach. */
  lemma {:induction false} RunKeeps(sv: Services, s: State, es: seq<Event>)
    requires Consistent(s) && Possible(sv, s, es)
    ensures Consistent(Run(sv, s, es))
    decreases |es|
  {
    if es != [] {
      StepKeeps(sv, s, es[0]);
      RunKeeps(sv, Step(sv, s, es[0]), es[1..]);
    }
  }

  lemma ReachableIsConsistent(sv: Services, es: seq<Event>)
    requires Possible(sv, INIT, es)
    ensures Consistent(Run(sv, INIT, es))
  {
    assert Consistent(INIT);
    RunKeeps(sv, INIT, es);
  }

  // ------------------------------------------------- what closing takes along

  /** The connection at fd came in through the listener l. cb_io_accept refuses listener sockets below 1. */
  ghost predicate CameThrough(m: Sockets, fd: nat, l: nat) {
    IsConnection(m, fd) && l >= 1 && m[fd].master == l
  }

  /** Everything at other sockets is as before, in both dictionaries. */
  ghost predicate OnlyCloses(s: State, t: State, fds: set<nat>) {
    && t.sockets.Keys == s.sockets.Keys - fds
    && (forall fd :: fd in t.sockets ==> t.sockets[fd] == s.sockets[fd])
    && (forall u :: u in t.uuids <==> u in s.uuids && s.uuids[u] !in fds)
    && (forall u :: u in t.uuids ==> t.uuids[u] == s.uuids[u])
  }

  /** A close touches the released sockets and the uuids that map to them, nothing else. */
  lemma ReleaseOnlyCloses(s: State, fds: set<nat>)
    requires Consistent(s) && fds <= s.sockets.Keys
    ensures OnlyCloses(s, Release(s, fds), fds)
  {
    var t := Release(s, fds);
    forall u
      ensures u in t.uuids <==> u in s.uuids && s.uuids[u] !in fds
    {
      if u in s.uuids {
        var fd := s.uuids[u];
        assert IsConnection(s.sockets, fd) && s.sockets[fd].uuid == u;
        if u in UuidsAt(s.sockets, fds) {
          var k :| k in fds && IsConnection(s.sockets, k) && s.sockets[k].uuid == u;
          assert s.uuids[u] == k;
        }
      }
    }
  }

  /** Closing a listener takes exactly the connections that came in through it, unless one of
      them is at socket 0; closing a listener at socket 0 takes every client connection. */
  lemma ListenerTakesItsOwn(s: State, l: nat)
    requires Consistent(s) && IsListener(s.sockets, l)
    ensures OnlyCloses(s, CloseSocket(s, l), Victims(s.sockets, l))
    ensures (forall fd :: fd in Victims(s.sockets, l) <==> fd == l || CameThrough(s.sockets, fd, l))
       <==> if l == 0 then Accepted(s.sockets, 0) == {} else !CameThrough(s.sockets, 0, l)
  {
    ReleaseOnlyCloses(s, Victims(s.sockets, l));
    var m := s.sockets;
    if l == 0 {
      if fd :| fd in Accepted(m, 0) {
        assert fd in Victims(m, 0) && !(fd == 0 || CameThrough(m, fd, 0));
      }
    } else {
      forall fd | fd != 0
        ensures fd in Victims(m, l) <==> fd == l || CameThrough(m, fd, l)
      {
      }
      assert 0 !in Victims(m, l);
    }
  }

  lemma ReleaseNothing(s: State)
    ensures Release(s, {}) == s
  {
    assert UuidsAt(s.sockets, {}) == {} && ClosingsAt(s.sockets, {}) == {};
    assert s.sockets - {} == s.sockets && s.uuids - {} == s.uuids;
  }

  /** Closing by uuid closes the connection with that uuid; for an unknown uuid nothing
      happens iff socket 0 is not registered. */
  lemma CloseByUuidExactly(s: State, uuid: Uuid)
    requires Consistent(s)
    ensures uuid in s.uuids ==> OnlyCloses(s, CloseUuid(s, uuid), {s.uuids[uuid]}) && uuid !in CloseUuid(s, uuid).uuids
    ensures uuid !in s.uuids ==> (CloseUuid(s, uuid) == s <==> 0 !in s.sockets)
  {
    if uuid in s.uuids {
      var fd := s.uuids[uuid];
      assert IsConnection(s.sockets, fd);
      ReleaseOnlyCloses(s, {fd});
    } else if 0 !in s.sockets {
      ReleaseNothing(s);
    } else {
      assert 0 in Victims(s.sockets, 0) && 0 !in CloseUuid(s, uuid).sockets;
    }
  }

  /** close_all leaves the listeners alone, and empties the uuid dictionary iff no connection is at socket 0. */
  lemma CloseAllLeavesListeners(s: State)
    requires Consistent(s)
    ensures forall fd :: IsListener(CloseAll(s).sockets, fd) <==> IsListener(s.sockets, fd)
    ensures forall fd :: IsConnection(CloseAll(s).sockets, fd) <==> fd == 0 && IsConnection(s.sockets, 0)
    ensures CloseAll(s).uuids == map[] <==> !IsConnection(s.sockets, 0)
  {
    var t := CloseAll(s);
    ReleaseKeepsBijection(s, ClientKeys(s.sockets));
    forall u | u in t.uuids
      ensures IsConnection(t.sockets, 0)
    {
      assert IsConnection(t.sockets, t.uuids[u]);
    }
    if IsConnection(s.sockets, 0) {
      assert IsConnection(t.sockets, 0);
      assert t.sockets[0].uuid in t.uuids;
    }
  }

  /** The socket found for a live connection's uuid is its own. */
  lemma SocketOfLiveConnection(s: State, fd: nat)
    requires Consistent(s) && IsConnection(s.sockets, fd)
    ensures SocketOf(s, s.sockets[fd].uuid) == fd
  {
    assert s.sockets[fd].uuid in s.uuids && s.uuids[s.sockets[fd].uuid] == fd;
  }
}
