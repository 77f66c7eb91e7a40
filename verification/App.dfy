/** The TCP app as it runs: dictionaries, trigger pair and callbacks, updated in place.

    Dictionary iteration visits keys in an order of its own, so the loops over
    dictionaries below pick any key that is left. */
module App {
  import opened Options
  import opened AppModel
  import opened Framing
  import opened Multisets
  import opened Send
  import opened Registry
  import Draining

  class DefaultApp {
    const sv: Services
    var sockets: Sockets
    var uuids: map<Uuid, nat>
    var trigger: seq<nat>
    var registered: multiset<nat>
    var closed: multiset<nat>
    var callbacks: multiset<Closing>

    function View(): State
      reads this
    {
      State(sockets, uuids, trigger, registered, closed, callbacks)
    }

    constructor (services: Services)
      ensures View() == INIT && sv == services
    {
      sv := services;
      sockets, uuids, trigger := map[], map[], [];
      registered, closed, callbacks := multiset{}, multiset{}, multiset{};
    }

    // ------------------------------------------------------------- releasing

    /** app_connection_free, for a connection already taken out of the sockets dictionary. */
    method ConnectionFree(fd: nat, connection: Entry, uuidSkip: bool)
      requires connection.Connection?
      modifies this
      ensures sockets == old(sockets) && trigger == old(trigger) && registered == old(registered)
      ensures uuids == if uuidSkip then old(uuids) else old(uuids) - {connection.uuid}
      ensures closed == old(closed) + multiset{fd}
      ensures callbacks == old(callbacks) + multiset{Closing(fd, Some(connection.uuid))}
    {
      if !uuidSkip {
        uuids := uuids - {connection.uuid};
      }
      closed := closed + multiset{fd};
      callbacks := callbacks + multiset{Closing(fd, Some(connection.uuid))};
    }

    /** ov_dict_del on the sockets dictionary, where the value is a connection. */
    method DictDelConnection(fd: nat)
      requires IsConnection(sockets, fd)
      modifies this
      ensures View() == Release(old(View()), {fd})
    {
      var value := sockets[fd];
      ReleaseConnectionAlone(View(), fd);
      sockets := sockets - {fd};
      ConnectionFree(fd, value, false);
    }

    /** search_connections over the sockets dictionary. */
    method SearchConnections(listener: nat) returns (found: set<nat>)
      ensures found == Accepted(sockets, listener)
    {
      found := {};
      var todo := sockets.Keys;
      while todo != {}
        invariant todo <= sockets.Keys && found == Accepted(sockets, listener) - todo
        decreases todo
      {
        var key :| key in todo;
        if key != 0 && sockets[key].Connection? && sockets[key].master == listener {
          found := found + {key};
        }
        todo := todo - {key};
      }
    }

    /** Delete the connections at the given keys, one after the other. */
    method DeleteConnections(keys: set<nat>)
      requires forall fd :: fd in keys ==> IsConnection(sockets, fd)
      modifies this
      ensures View() == Release(old(View()), keys)
    {
      ghost var s := View();
      var todo := keys;
      ReleaseNothing(s);
      while todo != {}
        invariant todo <= keys && View() == Release(s, keys - todo)
        decreases todo
      {
        var key :| key in todo;
        assert (keys - todo) + {key} == keys - (todo - {key});
        ReleaseTwice(s, keys - todo, {key});
        DictDelConnection(key);
        todo := todo - {key};
      }
      assert keys - todo == keys;
    }

    /** app_listener_free, for a listener already taken out of the sockets dictionary. */
    method ListenerFree(fd: nat)
      modifies this
      ensures View() == ListenerFreed(old(View()), fd)
    {
      ghost var s := View();
      var list := SearchConnections(fd);
      DeleteConnections(list);
      assert View() == Release(s, Accepted(s.sockets, fd));
      closed := closed + multiset{fd};
      callbacks := callbacks + multiset{Closing(fd, None)};
    }

    /** ov_dict_del on the sockets dictionary: the entry goes first, then its value is freed. */
    method DictDel(fd: nat)
      modifies this
      ensures View() == CloseSocket(old(View()), fd)
    {
      ghost var s := View();
      if fd !in sockets {
        ReleaseNothing(s);
      } else if sockets[fd].Connection? {
        DictDelConnection(fd);
      } else {
        sockets := sockets - {fd};
        ListenerFree(fd);
        ListenerFreedIsClosed(s, fd);
      }
    }

    /** impl_app_socket_close. */
    method SocketClose(fd: nat)
      modifies this
      ensures View() == CloseSocket(old(View()), fd)
    {
      DictDel(fd);
    }

    /** impl_app_connection_close: a uuid that is not found closes socket 0. */
    method ConnectionClose(uuid: Uuid)
      modifies this
      ensures View() == CloseUuid(old(View()), uuid)
    {
      var id := if uuid in uuids then uuids[uuid] else 0;
      SocketClose(id);
    }

    /** gather_client_socket_keys over the sockets dictionary. */
    method GatherClientKeys() returns (keys: set<nat>)
      ensures keys == ClientKeys(sockets)
    {
      keys := {};
      var todo := sockets.Keys;
      while todo != {}
        invariant todo <= sockets.Keys && keys == ClientKeys(sockets) - todo
        decreases todo
      {
        var key :| key in todo;
        if key != 0 && sockets[key].Connection? {
          keys := keys + {key};
        }
        todo := todo - {key};
      }
    }

    /** impl_app_connection_close_all. */
    method ConnectionCloseAll()
      modifies this
      ensures View() == CloseAll(old(View()))
    {
      var keys := GatherClientKeys();
      DeleteConnections(keys);
    }

    // ----------------------------------------------------------- registering

    /** app_connection_create and app_listener_create, for a socket not in the dictionary. */
    method Create(fd: nat, e: Entry)
      requires fd !in sockets
      modifies this
      ensures View() == Register(old(View()), fd, e)
    {
      sockets := sockets[fd := e];
      if e.Connection? {
        uuids := uuids[e.uuid := fd];
      }
      registered := registered + multiset{fd};
    }

    /** impl_app_socket_add, with a configuration the checks accept. */
    method SocketAdd(fd: nat, asClient: bool, mode: Mode, uuid: Uuid)
      modifies this
      ensures View() == AddSocket(old(View()), fd, NewEntry(asClient, mode, uuid))
    {
      if fd in sockets {
        return;
      }
      Create(fd, NewEntry(asClient, mode, uuid));
    }

    /** cb_io_accept, with nfd the socket accept(2) returned. */
    method CbIoAccept(listener: nat, nfd: nat, uuid: Uuid, keep: bool)
      requires nfd !in sockets
      modifies this
      ensures View() == Accept(old(View()), listener, nfd, uuid, keep)
    {
      if listener < 1 || listener !in sockets || !sockets[listener].Listener? {
        return;
      }
      Create(nfd, NewConnection(uuid, listener, sockets[listener].mode));
      if !keep {
        SocketClose(nfd);
      }
    }

    // --------------------------------------------------------------- reading

    /** ov_signaling_app_io_signaling and impl_app_send for one message. */
    method IoSignaling(fd: nat, v: Value, calls: Calls) returns (ok: bool, wire: seq<byte>, k: Kernel)
      requires Fair(calls)
      ensures match v.event
              case Missing => !ok && wire == []
              case Named(name) =>
                if name !in sv.commands then ok && wire == []
                else match sv.commands[name](v)
                     case FailureCloseSocket => !ok && wire == []
                     case NoAnswer => ok && wire == []
                     case Answer(a) =>
                       if fd == 0 then !ok && wire == []
                       else ok == !Fails(sv.encode(a), k) && wire == Written(sv.encode(a), k)
    {
      ok, wire, k := false, [], TakesAll;
      match v.event {
        case Missing => return;
        case Named(name) =>
          if name !in sv.commands {
            return true, [], k;
          }
          match sv.commands[name](v) {
            case FailureCloseSocket => return;
            case NoAnswer => ok := true;
            case Answer(a) =>
              if fd > 0 {
                var next;
                ok, wire, next := SendTcp(sv.encode(a), calls, 0);
                k := Outcome(ok, wire);
                OutcomeIsWhatWasWritten(sv.encode(a), ok, wire);
              }
          }
      }
    }

    /** app_connection_use_parser with app_connection_process_parsed_data and trigger_parse_again. */
    method UseParser(fd: nat, calls: Calls) returns (success: bool, k: Kernel)
      requires IsConnection(sockets, fd) && Fair(calls)
      modifies this
      ensures var (d, turn) := ParseOnce(sv, fd, old(sockets[fd]), k);
        && success == (turn == Idle || turn == Handled)
        && View() == if turn == Handled then TriggerParseAgain(Update(old(View()), fd, d), fd, d)
                     else Update(old(View()), fd, d)
    {
      var c := sockets[fd];
      k := TakesAll;
      match sv.scan(c.buffer) {
        case Progress =>
          success := true;
          assert sockets == sockets[fd := c];
        case Reject =>
          success := false;
          assert sockets == sockets[fd := c];
        case Complete(_, v) =>
          var word := FirstWord(sv.scan, c.buffer);
          var wire;
          success, wire, k := IoSignaling(fd, v, calls);
          var d := c.(buffer := c.buffer[|word|..], frames := c.frames + [Message(word, v)], sent := c.sent + wire);
          assert c.sent + [] == c.sent;
          sockets := sockets[fd := d];
          if success && d.buffer != [] {
            trigger := trigger + [fd];
          }
      }
    }

    /** cb_io_stream and cb_io_raw for a non-empty read; ok is the answer of a raw io callback. */
    method CbIoStream(fd: nat, chunk: seq<byte>, ok: bool, calls: Calls) returns (k: Kernel)
      requires IsConnection(sockets, fd) && Fair(calls)
      modifies this
      ensures View() == Receive(sv, old(View()), fd, chunk, ok, k)
    {
      ghost var s := View();
      var c := Append(sockets[fd], chunk);
      sockets := sockets[fd := c];
      var success;
      if c.mode == Buffering {
        success, k := UseParser(fd, calls);
        ghost var d := ParseOnce(sv, fd, c, k).0;
        assert s.sockets[fd := c][fd := d] == s.sockets[fd := d];
      } else {
        success, k := ok, TakesAll;
      }
      if !success {
        SocketClose(fd);
      }
    }

    /** cb_parse_again for one token. A failed turn does not close the connection. */
    method CbParseAgain(calls: Calls) returns (k: Kernel)
      requires trigger != [] && Fair(calls)
      modifies this
      ensures View() == ParseAgain(sv, old(View()), k)
    {
      var fd := trigger[0];
      trigger := trigger[1..];
      k := TakesAll;
      if fd in sockets && sockets[fd].Connection? {
        var success;
        success, k := UseParser(fd, calls);
      }
    }

    /** The event loop with nothing to read but the trigger pair comes to rest, after some turns. */
    method WorkOffTriggers(calls: Calls) returns (ghost turns: seq<Event>)
      requires Fair(calls) && Lawful(sv.scan)
      modifies this
      ensures trigger == []
      ensures (forall e :: e in turns ==> e.Trigger?) && Possible(sv, old(View()), turns)
      ensures View() == Run(sv, old(View()), turns)
    {
      ghost var start := View();
      turns := [];
      while trigger != []
        invariant forall e :: e in turns ==> e.Trigger?
        invariant Possible(sv, start, turns) && View() == Run(sv, start, turns)
        decreases Draining.TotalBuffered(sockets), |trigger|
      {
        ghost var s := View();
        var k := CbParseAgain(calls);
        Draining.TurnDecreases(sv, s, k);
        TurnAfter(sv, start, turns, k);
        turns := turns + [Trigger(k)];
      }
    }

    // -------------------------------------------------------------- shutdown

    /** delete_socket for every uuid; stops at the first one it cannot handle. The dictionary
        it walks over is not changed on the way, because the connections skip their uuid. */
    method ForEachUuidDelete() returns (finished: bool, ghost gone: set<nat>)
      requires Bijective(View())
      modifies this
      ensures gone <= old(sockets).Keys && View() == Release(old(View()), gone).(uuids := old(uuids))
      ensures finished <==> !IsConnection(old(sockets), 0)
      ensures finished ==> forall fd :: fd in gone <==> IsConnection(old(sockets), fd)
    {
      ghost var s := View();
      gone := {};
      var todo := uuids.Keys;
      ReleaseNothing(s);
      while todo != {}
        invariant todo <= s.uuids.Keys && gone <= s.sockets.Keys
        invariant View() == Release(s, gone).(uuids := s.uuids)
        invariant DeletedSoFar(s, gone, todo)
        decreases todo
      {
        var uuid :| uuid in todo;
        finished, gone := DeleteSocket(uuid, s, gone, todo);
        if !finished {
          return;
        }
        todo := todo - {uuid};
      }
      finished := true;
      AllDeleted(s, gone);
    }

    /** delete_socket, the callback of the walk over the uuids. */
    method DeleteSocket(uuid: Uuid, ghost s: State, ghost before: set<nat>, ghost todo: set<Uuid>)
      returns (ok: bool, ghost gone: set<nat>)
      requires Bijective(s) && todo <= s.uuids.Keys && uuid in todo
      requires before <= s.sockets.Keys && DeletedSoFar(s, before, todo)
      requires View() == Release(s, before).(uuids := s.uuids)
      modifies this
      ensures ok <==> s.uuids[uuid] != 0
      ensures !ok ==> IsConnection(s.sockets, 0)
      ensures gone <= s.sockets.Keys && View() == Release(s, gone).(uuids := s.uuids)
      ensures ok ==> DeletedSoFar(s, gone, todo - {uuid})
    {
      var id := uuids[uuid];
      assert IsConnection(s.sockets, id) && s.sockets[id].uuid == uuid;
      gone := before;
      ok := id != 0;
      if ok {
        DictDelSkippingUuid(id, s, before);
        gone := before + {id};
      }
    }

    /** ov_dict_del of a connection with uuid_skip set, after those in gone. */
    method DictDelSkippingUuid(fd: nat, ghost s: State, ghost gone: set<nat>)
      requires gone <= s.sockets.Keys && fd !in gone && IsConnection(s.sockets, fd)
      requires View() == Release(s, gone).(uuids := s.uuids)
      modifies this
      ensures View() == Release(s, gone + {fd}).(uuids := s.uuids)
    {
      ReleaseTwice(s, gone, {fd});
      ReleaseConnectionAlone(Release(s, gone), fd);
      var value := sockets[fd];
      sockets := sockets - {fd};
      ConnectionFree(fd, value, true);
    }

    /** ov_dict_clear on the sockets dictionary. Each slot is emptied first and its values are
        freed then; a listener among them takes along what it accepted in the slots to come. */
    method ClearSockets(hash: nat -> nat)
      modifies this
      ensures View() == Release(old(View()), old(sockets).Keys)
    {
      ghost var s := View();
      ghost var done: set<nat> := {};
      ReleaseNothing(s);
      var slot := 0;
      while slot < DICT_SLOTS
        invariant 0 <= slot <= DICT_SLOTS
        invariant done <= s.sockets.Keys && View() == Release(s, done)
        invariant forall fd :: fd in sockets ==> slot <= hash(fd) % DICT_SLOTS
      {
        var chain := set fd | fd in sockets && hash(fd) % DICT_SLOTS == slot;
        done := FreeChain(chain, s, done);
        slot := slot + 1;
      }
      assert sockets == map[];
      assert done == s.sockets.Keys;
    }

    /** Free the values of one slot, already taken out of the dictionary. */
    method FreeChain(chain: set<nat>, ghost s: State, ghost before: set<nat>) returns (ghost done: set<nat>)
      requires before <= s.sockets.Keys && View() == Release(s, before) && chain <= sockets.Keys
      modifies this
      ensures before + chain <= done <= s.sockets.Keys && View() == Release(s, done)
    {
      var detached := map fd | fd in chain :: sockets[fd];
      DetachChain(s, before, chain);
      sockets := sockets - chain;
      done := before;
      var todo := chain;
      while todo != {}
        invariant todo <= chain && before + (chain - todo) <= done <= s.sockets.Keys && done !! todo
        invariant View() == Detached(s, done, todo)
        decreases todo
      {
        var fd :| fd in todo;
        done := FreeDetached(fd, detached[fd], s, done, todo);
        todo := todo - {fd};
      }
      DetachChain(s, done, {});
    }

    method FreeDetached(fd: nat, value: Entry, ghost s: State, ghost before: set<nat>, ghost todo: set<nat>)
      returns (ghost done: set<nat>)
      requires before <= s.sockets.Keys && todo <= s.sockets.Keys && before !! todo && fd in todo
      requires View() == Detached(s, before, todo) && value == s.sockets[fd]
      modifies this
      ensures before + {fd} <= done <= s.sockets.Keys && done !! todo - {fd}
      ensures View() == Detached(s, done, todo - {fd})
    {
      if value.Listener? {
        ghost var own := Accepted(sockets, fd);
        FreeDetachedListener(s, before, todo, fd);
        ListenerFree(fd);
        done := before + {fd} + own;
      } else {
        FreeDetachedConnection(s, before, todo, fd);
        ConnectionFree(fd, value, false);
        done := before + {fd};
      }
    }

    /** impl_app_free. */
    method Free(hash: nat -> nat) returns (finished: bool)
      requires Bijective(View())
      modifies this
      ensures sockets == map[] && uuids == map[]
      ensures closed == old(closed) + multiset(old(sockets).Keys)
      ensures callbacks == old(callbacks) + multiset(ClosingsAt(old(sockets), old(sockets).Keys))
      ensures finished <==> !IsConnection(old(sockets), 0)
      ensures Conserved(old(View())) ==> closed == registered && |callbacks| == |closed|
    {
      trigger := [];
      ghost var s := View();
      ghost var gone;
      finished, gone := ForEachUuidDelete();
      ReleaseRest(s, gone, View());
      ClearSockets(hash);
      uuids := map[];
      AllClosedOnce(s, closed, callbacks);
    }
  }

  lemma AllClosedOnce(s: State, closed: multiset<nat>, callbacks: multiset<Closing>)
    requires closed == s.closed + multiset(s.sockets.Keys)
    requires callbacks == s.callbacks + multiset(ClosingsAt(s.sockets, s.sockets.Keys))
    ensures Conserved(s) ==> closed == s.registered && |callbacks| == |closed|
  {
    OneClosingEach(s.sockets, s.sockets.Keys);
  }

  lemma TurnAfter(sv: Services, s: State, turns: seq<Event>, k: Kernel)
    requires Possible(sv, s, turns) && Run(sv, s, turns).trigger != []
    ensures Possible(sv, s, turns + [Trigger(k)])
    ensures Run(sv, s, turns + [Trigger(k)]) == ParseAgain(sv, Run(sv, s, turns), k)
  {
    var t := Run(sv, s, turns);
    var last: seq<Event> := [Trigger(k)];
    assert last[0] == Trigger(k) && last[1..] == [] && Step(sv, t, Trigger(k)) == ParseAgain(sv, t, k);
    assert Possible(sv, Step(sv, t, last[0]), []) && Run(sv, Step(sv, t, last[0]), []) == ParseAgain(sv, t, k);
    Draining.RunAppend(sv, s, turns, [Trigger(k)], "");
  }

  const DICT_SLOTS: nat := 255

  /** Those in done have been released; those in todo are out of the dictionary but not freed yet. */
  function Detached(s: State, done: set<nat>, todo: set<nat>): State {
    Release(s, done).(sockets := s.sockets - (done + todo))
  }

  /** The connections whose uuids have been visited are gone, no others, and socket 0 is not among them. */
  ghost predicate DeletedSoFar(s: State, gone: set<nat>, todo: set<Uuid>) {
    && 0 !in gone
    && (forall u :: u in s.uuids && u !in todo ==> s.uuids[u] in gone)
    && (forall fd :: fd in gone ==> IsConnection(s.sockets, fd) && s.sockets[fd].uuid !in todo)
  }

  lemma AllDeleted(s: State, gone: set<nat>)
    requires Bijective(s) && DeletedSoFar(s, gone, {})
    ensures forall fd :: fd in gone <==> IsConnection(s.sockets, fd)
  {
    forall fd | IsConnection(s.sockets, fd)
      ensures fd in gone
    {
      assert s.sockets[fd].uuid in s.uuids && s.uuids[s.sockets[fd].uuid] == fd;
    }
  }

  /** What is left to do for a listener that has been taken out of the dictionary. */
  function ListenerFreed(s: State, fd: nat): State {
    var t := Release(s, Accepted(s.sockets, fd));
    t.(closed := t.closed + multiset{fd}, callbacks := t.callbacks + multiset{Closing(fd, None)})
  }

  lemma ListenerFreedIsClosed(s: State, fd: nat)
    requires IsListener(s.sockets, fd)
    ensures ListenerFreed(s.(sockets := s.sockets - {fd}), fd) == CloseSocket(s, fd)
  {
    var m := s.sockets;
    var own := Accepted(m, fd);
    assert Accepted(m - {fd}, fd) == own && fd !in own;
    ReleaseTwice(s, {fd}, own);
    ReleaseListenerAlone(s, fd);
    assert Release(s, {fd}) == s.(sockets := m - {fd}, closed := s.closed + multiset{fd},
                                  callbacks := s.callbacks + multiset{Closing(fd, None)});
    var t := Release(s.(sockets := m - {fd}), own);
    assert t.closed + multiset{fd} == (s.closed + multiset{fd}) + multiset(own);
    assert t.callbacks + multiset{Closing(fd, None)}
        == (s.callbacks + multiset{Closing(fd, None)}) + multiset(ClosingsAt(m - {fd}, own));
  }

  lemma ReleaseConnectionAlone(s: State, fd: nat)
    requires IsConnection(s.sockets, fd)
    ensures var uuid := s.sockets[fd].uuid;
      Release(s, {fd}) == s.(sockets := s.sockets - {fd}, uuids := s.uuids - {uuid}, closed := s.closed + multiset{fd},
                             callbacks := s.callbacks + multiset{Closing(fd, Some(uuid))})
  {
    assert UuidsAt(s.sockets, {fd}) == {s.sockets[fd].uuid};
    assert ClosingsAt(s.sockets, {fd}) == {Closing(fd, Some(s.sockets[fd].uuid))};
  }

  lemma ReleaseListenerAlone(s: State, fd: nat)
    requires IsListener(s.sockets, fd)
    ensures Release(s, {fd}) == s.(sockets := s.sockets - {fd}, closed := s.closed + multiset{fd},
                                   callbacks := s.callbacks + multiset{Closing(fd, None)})
  {
    assert UuidsAt(s.sockets, {fd}) == {};
    assert s.uuids - {} == s.uuids;
    assert ClosingsAt(s.sockets, {fd}) == {Closing(fd, None)};
  }

  lemma DetachChain(s: State, done: set<nat>, chain: set<nat>)
    ensures var t := Release(s, done); t.(sockets := t.sockets - chain) == Detached(s, done, chain)
    ensures Detached(s, done, {}) == Release(s, done)
  {
    MinusTwice(s.sockets, done, chain);
    assert done + {} == done;
  }

  lemma FreeDetachedConnection(s: State, done: set<nat>, todo: set<nat>, fd: nat)
    requires done <= s.sockets.Keys && done !! todo && fd in todo && IsConnection(s.sockets, fd)
    ensures var u := s.sockets[fd].uuid; var a := Detached(s, done, todo);
      Detached(s, done + {fd}, todo - {fd})
        == a.(uuids := a.uuids - {u}, closed := a.closed + multiset{fd},
              callbacks := a.callbacks + multiset{Closing(fd, Some(u))})
  {
    ReleaseTwice(s, done, {fd});
    ReleaseConnectionAlone(Release(s, done), fd);
    assert (done + {fd}) + (todo - {fd}) == done + todo;
  }

  lemma FreeDetachedListener(s: State, done: set<nat>, todo: set<nat>, fd: nat)
    requires done <= s.sockets.Keys && done !! todo && fd in todo && IsListener(s.sockets, fd) && todo <= s.sockets.Keys
    ensures var a := Detached(s, done, todo); var own := Accepted(a.sockets, fd);
      && own <= s.sockets.Keys && own !! done + todo
      && ListenerFreed(a, fd) == Detached(s, done + {fd} + own, todo - {fd})
  {
    var a := Detached(s, done, todo);
    var own := Accepted(a.sockets, fd);
    var b := Release(s, done + {fd});
    ReleaseTwice(s, done, {fd});
    ReleaseListenerAlone(Release(s, done), fd);
    ReleaseTwice(s, done + {fd}, own);
    assert UuidsAt(a.sockets, own) == UuidsAt(b.sockets, own);
    assert ClosingsAt(a.sockets, own) == ClosingsAt(b.sockets, own);
    assert (done + {fd} + own) + (todo - {fd}) == done + todo + own;
    MinusTwice(s.sockets, done + todo, own);
    Swap(a.closed, multiset(own), multiset{fd});
    Swap(a.callbacks, multiset(ClosingsAt(b.sockets, own)), multiset{Closing(fd, None)});
  }

  lemma ReleaseRest(s: State, gone: set<nat>, t: State)
    requires gone <= s.sockets.Keys && t == Release(s, gone).(uuids := s.uuids)
    ensures var u := Release(t, t.sockets.Keys);
      && u.sockets == map[] && u.registered == s.registered
      && u.closed == s.closed + multiset(s.sockets.Keys)
      && u.callbacks == s.callbacks + multiset(ClosingsAt(s.sockets, s.sockets.Keys))
  {
    var rest := s.sockets.Keys - gone;
    assert t.sockets.Keys == rest && gone + rest == s.sockets.Keys;
    ReleaseTwice(s, gone, rest);
  }
}
