/** Requests and their responses over one server connection of the browser client (ov_websocket.js). */
module Websocket {
  import opened Options

  type Id = nat

  datatype Ready = Connecting | Open | Closing | Closed
  datatype Level = Disconnected | Connected | Authenticated | Authorized
  datatype MessageType = Unicast | LoopBroadcast | UserBroadcast

  datatype Failure = NotConnected | ServerGone | ServerError | FormatError
  datatype Status = Outstanding | Resolved(message: nat) | Rejected(why: Failure)

  /** A promise made by #request, with the event name it was sent under. */
  datatype Request = Request(name: string, status: Status)

  /** The listeners a request registers for itself. */
  datatype Handler = OnResponse(id: Id) | OnDisconnect(id: Id)
  datatype Listener = Listener(event: string, handler: Handler)

  /** sockets are all WebSocket objects made so far, in order; current is #websocket.
      connects tells whether the promise of the connect() that made a socket is still open. */
  datatype State = State(client: string, sockets: seq<Ready>, connects: seq<bool>, current: Option<nat>, level: Level,
                         pending: set<Id>, requests: map<Id, Request>, listeners: seq<Listener>)

  const DISCONNECTED := "disconnected"

  /** A message from the server. Fields it does not have are None; message is what it carries. */
  datatype Incoming = Incoming(event: Option<string>, uuid: Option<Id>, client: Option<string>,
                               kind: Option<MessageType>, error: bool, response: bool, parameter: bool, message: nat)

  function Start(client: string): State {
    State(client, [], [], None, Disconnected, {}, map[], [])
  }

  predicate CurrentIs(s: State, r: Ready) {
    s.current.Some? && s.current.value < |s.sockets| && s.sockets[s.current.value] == r
  }

  predicate IsReady(s: State) {
    CurrentIs(s, Open)
  }

  predicate IsConnecting(s: State) {
    CurrentIs(s, Connecting) || CurrentIs(s, Open)
  }

  // ------------------------------------------------------------------- dispatch

  /** The guard of a request's event handler. A message without a type passes for every request. */
  predicate Answers(client: string, e: Incoming, id: Id) {
    (e.client == Some(client) && e.uuid == Some(id) && e.kind == Some(Unicast)) || e.kind == None
  }

  /** What a request is settled with. A message with neither response nor parameter nor error is a format error. */
  function OutcomeOf(e: Incoming): Status {
    if e.error then Rejected(ServerError)
    else if !e.response && !e.parameter then Rejected(FormatError)
    else Resolved(e.message)
  }

  /** A promise is settled once; settling it again changes nothing. */
  function Settle(r: Request, status: Status): Request {
    if r.status == Outstanding then r.(status := status) else r
  }

  function Without(ls: seq<Listener>, l: Listener): seq<Listener> {
    if ls == [] then [] else (if ls[0] == l then [] else [ls[0]]) + Without(ls[1..], l)
  }

  /** A handler takes both listeners of its request off and settles it. The handler of a response
      also takes the request off the pending ones. */
  function Finish(s: State, id: Id, status: Status): State
    requires id in s.requests
  {
    var r := s.requests[id];
    s.(listeners := Without(Without(s.listeners, Listener(r.name, OnResponse(id))), Listener(DISCONNECTED, OnDisconnect(id))),
       requests := s.requests[id := Settle(r, status)])
  }

  function Handle(s: State, h: Handler, e: Incoming): State
    requires h.id in s.requests
  {
    match h
    case OnResponse(id) =>
      if Answers(s.client, e, id) then Finish(s, id, OutcomeOf(e)).(pending := s.pending - {id}) else s
    case OnDisconnect(id) => Finish(s, id, Rejected(ServerGone))
  }

  /** Every listener belongs to a known request. */
  predicate Known(s: State) {
    forall l :: l in s.listeners ==> l.handler.id in s.requests
  }

  /** dispatchEvent: call the listeners of a copy that are still registered when their turn comes. */
  function Dispatch(s: State, copy: seq<Listener>, name: string, e: Incoming): State
    requires Known(s)
    decreases |copy|
  {
    if copy == [] then s
    else if copy[0].event == name && copy[0] in s.listeners then
      KnownAfter(s, copy[0].handler, e);
      Dispatch(Handle(s, copy[0].handler, e), copy[1..], name, e)
    else Dispatch(s, copy[1..], name, e)
  }

  lemma {:induction false} WithoutHas(ls: seq<Listener>, l: Listener, x: Listener)
    ensures x in Without(ls, l) <==> x in ls && x != l
  {
    if ls != [] { WithoutHas(ls[1..], l, x); }
  }

  lemma FinishListeners(s: State, id: Id, status: Status, x: Listener)
    requires id in s.requests
    ensures x in Finish(s, id, status).listeners <==>
      x in s.listeners && x != Listener(s.requests[id].name, OnResponse(id)) && x != Listener(DISCONNECTED, OnDisconnect(id))
  {
    var l := Listener(s.requests[id].name, OnResponse(id));
    WithoutHas(s.listeners, l, x);
    WithoutHas(Without(s.listeners, l), Listener(DISCONNECTED, OnDisconnect(id)), x);
  }

  lemma KnownAfter(s: State, h: Handler, e: Incoming)
    requires Known(s) && h.id in s.requests
    ensures Known(Handle(s, h, e))
  {
    forall x | x in Handle(s, h, e).listeners
      ensures x in s.listeners
    {
      FinishListeners(s, h.id, OutcomeOf(e), x);
      FinishListeners(s, h.id, Rejected(ServerGone), x);
    }
  }

  // ------------------------------------------------------------------ operations

  /** connect(): a new socket unless the current one is connecting or open. */
  function Connect(s: State): State {
    if IsConnecting(s) then s
    else s.(pending := {}, sockets := s.sockets + [Connecting], connects := s.connects + [true], current := Some(|s.sockets|))
  }

  const SILENT := Incoming(None, None, None, Some(Unicast), false, false, false, 0)

  /** onclose of any of the sockets, not only of the current one. */
  function SocketClosed(s: State, i: nat): State
    requires Known(s) && i < |s.sockets| == |s.connects|
  {
    var t := s.(sockets := s.sockets[i := Closed], level := Disconnected, pending := {});
    Dispatch(t, t.listeners, DISCONNECTED, SILENT).(connects := s.connects[i := false])
  }

  function SocketOpened(s: State, i: nat): State
    requires i < |s.sockets| == |s.connects|
  {
    s.(sockets := s.sockets[i := Open], level := Connected, connects := s.connects[i := false])
  }

  /** disconnect(), or the server starting to close. */
  function SocketClosing(s: State, i: nat): State
    requires i < |s.sockets|
  {
    s.(sockets := s.sockets[i := Closing])
  }

  /** #request: reject at once if not ready, but register the listeners and try to send all the same. */
  function Send(s: State, id: Id, name: string): State {
    var status := if IsReady(s) then Outstanding else Rejected(NotConnected);
    s.(requests := s.requests[id := Request(name, status)],
       listeners := s.listeners + [Listener(name, OnResponse(id)), Listener(DISCONNECTED, OnDisconnect(id))],
       pending := if IsReady(s) then s.pending + {id} else s.pending)
  }

  /** The events whose processing reads fields of the response, whatever the message brought. */
  const READS_RESPONSE := {"authorize", "get", "admin_domains", "admin_projects", "user_roles"}

  /** Whether #handle_websocket_event gets as far as dispatching the message. */
  predicate Dispatched(s: State, e: Incoming) {
    e.event.Some? &&
    if !e.error && !e.response && !e.parameter then e.client == Some(s.client)
    else e.event.value in READS_RESPONSE ==> e.response
  }

  function LevelAfter(s: State, e: Incoming): Level {
    if e.event.None? || (!e.error && !e.response && !e.parameter) then s.level
    else if e.event.value == "login" && !e.error then Authenticated
    else if e.event.value == "authorize" && !e.error then Authorized
    else if e.event.value == "logout" then Disconnected
    else s.level
  }

  function Receive(s: State, e: Incoming): State
    requires Known(s)
  {
    var t := s.(level := LevelAfter(s, e));
    if Dispatched(s, e) then Dispatch(t, t.listeners, e.event.value, e) else t
  }

  // ------------------------------------------------------------------ invariant

  predicate Attached(s: State, id: Id) {
    id in s.requests && Listener(s.requests[id].name, OnResponse(id)) in s.listeners
  }

  /** Requests keep two listeners each, or none. */
  ghost predicate Paired(s: State) {
    && Known(s)
    && (forall l :: l in s.listeners ==> l.event == match l.handler
                                                    case OnResponse(id) => s.requests[id].name
                                                    case OnDisconnect(_) => DISCONNECTED)
    && (forall id :: id in s.requests ==>
          (Attached(s, id) <==> Listener(DISCONNECTED, OnDisconnect(id)) in s.listeners))
    && (forall id :: id in s.requests ==> s.requests[id].name != DISCONNECTED)
  }

  /** A request that is not settled still listens. */
  ghost predicate Listening(s: State) {
    forall id :: id in s.requests && s.requests[id].status == Outstanding ==> Attached(s, id)
  }

  /** So does a request counted as pending. */
  ghost predicate PendingListens(s: State) {
    forall id :: id in s.pending ==> Attached(s, id)
  }

  ghost predicate Consistent(s: State) {
    && Paired(s) && Listening(s)
    && |s.sockets| == |s.connects|
    && (s.current.Some? ==> s.current.value < |s.sockets|)
    && (forall i :: 0 <= i < |s.sockets| && s.sockets[i] == Closed ==> !s.connects[i])
    && (forall i :: 0 <= i < |s.sockets| && s.sockets[i] == Open ==> !s.connects[i])
  }

  /** The requests a dispatch settles. */
  ghost predicate Hit(s: State, copy: seq<Listener>, name: string, e: Incoming, id: Id) {
    exists l :: l in copy && l in s.listeners && l.event == name && l.handler.id == id &&
                (l.handler.OnDisconnect? || Answers(s.client, e, id))
  }

  /** The request id is as it was. */
  ghost predicate Untouched(s: State, t: State, id: Id)
    requires id in s.requests
  {
    && id in t.requests && t.requests[id] == s.requests[id]
    && (Attached(t, id) <==> Attached(s, id))
    && (id in t.pending <==> id in s.pending)
  }

  function StatusFor(name: string, e: Incoming): Status {
    if name == DISCONNECTED then Rejected(ServerGone) else OutcomeOf(e)
  }

  /** The request id is settled by an event of this name and does not listen any more. Only a
      response takes it off the pending ones. */
  ghost predicate Done(s: State, t: State, id: Id, name: string, e: Incoming)
    requires id in s.requests
  {
    && id in t.requests && t.requests[id] == Settle(s.requests[id], StatusFor(name, e)) && !Attached(t, id)
    && (id in t.pending <==> name == DISCONNECTED && id in s.pending)
  }

  lemma FinishEffect(s: State, id: Id, status: Status)
    requires Paired(s) && id in s.requests
    ensures var t := Finish(s, id, status);
      && Paired(t) && id in t.requests && t.requests[id] == Settle(s.requests[id], status) && !Attached(t, id)
      && forall k :: k in s.requests && k != id ==> Untouched(s, t, k)
  {
    var t := Finish(s, id, status);
    forall x: Listener
      ensures x in t.listeners <==> x in s.listeners && x.handler.id != id
    {
      FinishListeners(s, id, status, x);
      if x in s.listeners && x.handler.id == id {
        assert x.event == match x.handler case OnResponse(_) => s.requests[id].name case OnDisconnect(_) => DISCONNECTED;
      }
    }
  }

  lemma HandleEffect(s: State, l: Listener, e: Incoming)
    requires Paired(s) && l in s.listeners
    ensures var t := Handle(s, l.handler, e); var id := l.handler.id;
      && Paired(t)
      && (if l.handler.OnDisconnect? || Answers(s.client, e, id) then Done(s, t, id, l.event, e) else t == s)
      && (forall k :: k in s.requests && k != id ==> Untouched(s, t, k))
      && t.requests.Keys == s.requests.Keys && t.client == s.client
  {
    FinishEffect(s, l.handler.id, StatusFor(l.event, e));
  }

  /** A dispatch settles the requests it hits and does nothing to the others. */
  lemma {:induction false} DispatchEffect(s: State, copy: seq<Listener>, name: string, e: Incoming)
    requires Paired(s)
    ensures var t := Dispatch(s, copy, name, e);
      && Paired(t) && t.requests.Keys == s.requests.Keys
      && t.(listeners := s.listeners, pending := s.pending, requests := s.requests) == s
      && (forall id :: id in s.requests ==>
            if Hit(s, copy, name, e, id) then Done(s, t, id, name, e) else Untouched(s, t, id))
    decreases |copy|
  {
    if copy != [] {
      var l := copy[0];
      var called := l.event == name && l in s.listeners;
      var u := if called then Handle(s, l.handler, e) else s;
      if called { HandleEffect(s, l, e); }
      DispatchEffect(u, copy[1..], name, e);
      forall id | id in s.requests
        ensures var t := Dispatch(s, copy, name, e);
          if Hit(s, copy, name, e, id) then Done(s, t, id, name, e) else Untouched(s, t, id)
      {
        HitFirst(s, u, copy, name, e, id);
      }
    }
  }

  /** A request is hit by the first listener of a copy or by one of the rest. */
  lemma HitFirst(s: State, u: State, copy: seq<Listener>, name: string, e: Incoming, id: Id)
    requires Paired(s) && copy != [] && id in s.requests
    requires var l := copy[0]; var called := l.event == name && l in s.listeners;
      u == if called then Handle(s, l.handler, e) else s
    ensures var l := copy[0];
      var first := l.event == name && l in s.listeners && l.handler.id == id && (l.handler.OnDisconnect? || Answers(s.client, e, id));
      && (Hit(s, copy, name, e, id) <==> first || Hit(s, copy[1..], name, e, id))
      && (!first ==> (Hit(u, copy[1..], name, e, id) <==> Hit(s, copy[1..], name, e, id)))
      && (first ==> !Hit(u, copy[1..], name, e, id))
  {
    var l := copy[0];
    assert copy == [l] + copy[1..];
    if l.event == name && l in s.listeners {
      forall x: Listener
        ensures x.handler.id != l.handler.id ==> (x in u.listeners <==> x in s.listeners)
        ensures x.handler.id == l.handler.id && (l.handler.OnDisconnect? || Answers(s.client, e, l.handler.id))
            ==> x !in u.listeners
      {
        FinishListeners(s, l.handler.id, StatusFor(l.event, e), x);
        if x in s.listeners && x.handler.id == l.handler.id {
          assert x.event == match x.handler case OnResponse(_) => s.requests[x.handler.id].name case OnDisconnect(_) => DISCONNECTED;
        }
      }
    }
  }

  // ----------------------------------------------------------------------- runs

  datatype Event =
    | Dial
    | Up(i: nat)
    | Fade(i: nat)
    | Down(i: nat)
    | Ask(id: Id, name: string)
    | Hear(e: Incoming)

  /** Sockets go from connecting to open to closing to closed, possibly skipping states; request
      ids are new; requests are not named like the client's own event. */
  predicate Enabled(s: State, e: Event) {
    match e
    case Dial => true
    case Up(i) => i < |s.sockets| && s.sockets[i] == Connecting
    case Fade(i) => i < |s.sockets| && (s.sockets[i] == Connecting || s.sockets[i] == Open)
    case Down(i) => i < |s.sockets| && s.sockets[i] != Closed
    case Ask(id, name) => id !in s.requests && name != DISCONNECTED
    case Hear(m) => true
  }

  function Step(s: State, e: Event): State
    requires Known(s) && |s.sockets| == |s.connects| && Enabled(s, e)
  {
    match e
    case Dial => Connect(s)
    case Up(i) => SocketOpened(s, i)
    case Fade(i) => SocketClosing(s, i)
    case Down(i) => SocketClosed(s, i)
    case Ask(id, name) => Send(s, id, name)
    case Hear(m) => Receive(s, m)
  }

  lemma SendConsistent(s: State, id: Id, name: string)
    requires Consistent(s) && id !in s.requests && name != DISCONNECTED
    ensures Consistent(Send(s, id, name))
  {
    var t := Send(s, id, name);
    assert forall l :: l in t.listeners <==>
      l in s.listeners || l == Listener(name, OnResponse(id)) || l == Listener(DISCONNECTED, OnDisconnect(id));
    forall k | k in t.requests
      ensures Attached(t, k) <==> Attached(s, k) || k == id
    {
      if k != id { assert t.requests[k] == s.requests[k]; }
    }
  }

  lemma DispatchConsistent(s: State, name: string, e: Incoming)
    requires Consistent(s)
    ensures Consistent(Dispatch(s, s.listeners, name, e))
  {
    DispatchEffect(s, s.listeners, name, e);
    var t := Dispatch(s, s.listeners, name, e);
    forall id | id in t.requests && t.requests[id].status == Outstanding
      ensures Attached(t, id)
    {
      assert Done(s, t, id, name, e) || Untouched(s, t, id);
    }
  }

  /** Nothing becomes pending in a dispatch. */
  lemma {:induction false} PendingKnown(s: State, copy: seq<Listener>, name: string, e: Incoming)
    requires Known(s)
    ensures Dispatch(s, copy, name, e).pending <= s.pending
    decreases |copy|
  {
    if copy != [] {
      if copy[0].event == name && copy[0] in s.listeners {
        KnownAfter(s, copy[0].handler, e);
        PendingKnown(Handle(s, copy[0].handler, e), copy[1..], name, e);
      } else {
        PendingKnown(s, copy[1..], name, e);
      }
    }
  }

  lemma StepConsistent(s: State, e: Event)
    requires Consistent(s) && Enabled(s, e)
    ensures Consistent(Step(s, e))
  {
    match e
    case Down(i) =>
      var t := s.(sockets := s.sockets[i := Closed], level := Disconnected, pending := {}, connects := s.connects[i := false]);
      DispatchConsistent(t, DISCONNECTED, SILENT);
      var u := s.(sockets := s.sockets[i := Closed], level := Disconnected, pending := {});
      DispatchIgnoresConnects(u, u.listeners, DISCONNECTED, SILENT, s.connects[i := false]);
    case Ask(id, name) => SendConsistent(s, id, name);
    case Hear(m) =>
      var t := s.(level := LevelAfter(s, m));
      if Dispatched(s, m) { DispatchConsistent(t, m.event.value, m); }
    case _ =>
  }

  lemma {:induction false} DispatchIgnoresConnects(s: State, copy: seq<Listener>, name: string, e: Incoming, c: seq<bool>)
    requires Known(s)
    ensures Dispatch(s.(connects := c), copy, name, e) == Dispatch(s, copy, name, e).(connects := c)
    decreases |copy|
  {
    if copy != [] {
      if copy[0].event == name && copy[0] in s.listeners {
        KnownAfter(s, copy[0].handler, e);
        DispatchIgnoresConnects(Handle(s, copy[0].handler, e), copy[1..], name, e, c);
      } else {
        DispatchIgnoresConnects(s, copy[1..], name, e, c);
      }
    }
  }

  predicate Possible(s: State, es: seq<Event>)
    requires Consistent(s)
    decreases |es|
  {
    es == [] || (Enabled(s, es[0]) && (StepConsistent(s, es[0]); Possible(Step(s, es[0]), es[1..])))
  }

  /** In every reachable state a request that is not settled is still listening. */
  ghost function Run(s: State, es: seq<Event>): (t: State)
    requires Consistent(s) && Possible(s, es)
    ensures Consistent(t)
    decreases |es|
  {
    if es == [] then s else StepConsistent(s, es[0]); Run(Step(s, es[0]), es[1..])
  }

  lemma StartConsistent(client: string)
    ensures Consistent(Start(client)) && PendingListens(Start(client))
  {
  }

  // --------------------------------------------------------------- main results

  /** Exactly the requests a message answers are settled, with what it carries: those that are
      listening, were sent under its event name and find their client and uuid in it, provided
      the message gets through its processing. A message with the event the client uses for its
      own closing rejects every request that listens. All others are as before. */
  lemma MessageSettlesExactly(s: State, e: Incoming, id: Id)
    requires Consistent(s) && id in s.requests
    ensures var t := Receive(s, e);
      if !Dispatched(s, e) || !Attached(s, id) then Untouched(s, t, id)
      else if e.event == Some(DISCONNECTED) then Done(s, t, id, DISCONNECTED, e)
      else if e.event == Some(s.requests[id].name) && Answers(s.client, e, id) then Done(s, t, id, s.requests[id].name, e)
      else Untouched(s, t, id)
  {
    var t := s.(level := LevelAfter(s, e));
    if Dispatched(s, e) {
      DispatchEffect(t, t.listeners, e.event.value, e);
      HitExactly(t, e.event.value, e, id);
    }
  }

  /** Which requests a dispatch to all listeners hits. */
  lemma HitExactly(s: State, name: string, e: Incoming, id: Id)
    requires Paired(s) && id in s.requests
    ensures Hit(s, s.listeners, name, e, id) <==>
      Attached(s, id) && (name == DISCONNECTED || (name == s.requests[id].name && Answers(s.client, e, id)))
  {
    if Attached(s, id) {
      assert Listener(s.requests[id].name, OnResponse(id)) in s.listeners;
      assert Listener(DISCONNECTED, OnDisconnect(id)) in s.listeners;
    }
  }

  /** A unicast message settles an outstanding request iff it gets through its processing and
      either has the client, the uuid and the event name of that request or the event of the
      client's own closing; but for the latter it settles no other. */
  lemma UnicastSettlesOne(s: State, e: Incoming, id: Id)
    requires Consistent(s) && id in s.requests && s.requests[id].status == Outstanding && e.kind == Some(Unicast)
    ensures id in Receive(s, e).requests
    ensures Receive(s, e).requests[id].status != Outstanding <==>
      (Dispatched(s, e) &&
       (e.event == Some(DISCONNECTED) ||
        (e.client == Some(s.client) && e.uuid == Some(id) && e.event == Some(s.requests[id].name))))
    ensures e.event != Some(DISCONNECTED) ==>
      forall k :: k in s.requests && e.uuid != Some(k) ==> Untouched(s, Receive(s, e), k)
  {
    MessageSettlesExactly(s, e, id);
    forall k | k in s.requests && e.uuid != Some(k) && e.event != Some(DISCONNECTED)
      ensures Untouched(s, Receive(s, e), k)
    {
      MessageSettlesExactly(s, e, k);
    }
  }

  /** What an outstanding request is settled with by a unicast message with its client, uuid and
      event name: an error rejects it with the error, a message with neither response nor parameter
      is a format error, anything else resolves it with what the message carries. It stays
      outstanding iff the message is one of those whose processing needs the response it lacks. */
  lemma ResponseDecides(s: State, e: Incoming, id: Id)
    requires Consistent(s) && id in s.requests && s.requests[id].status == Outstanding
    requires e.kind == Some(Unicast) && e.client == Some(s.client) && e.uuid == Some(id) && e.event == Some(s.requests[id].name)
    ensures id in Receive(s, e).requests
    ensures Receive(s, e).requests[id].status ==
      if e.error then (if NeedsResponse(e) && !e.response then Outstanding else Rejected(ServerError))
      else if !e.response && !e.parameter then Rejected(FormatError)
      else if NeedsResponse(e) && !e.response then Outstanding
      else Resolved(e.message)
  {
    MessageSettlesExactly(s, e, id);
  }

  /** The events whose processing reads fields of the response. */
  predicate NeedsResponse(e: Incoming) {
    e.event == Some("authorize") || e.event == Some("get") || e.event == Some("admin_domains") ||
    e.event == Some("admin_projects") || e.event == Some("user_roles")
  }

  /** A message sent as a broadcast settles no request, unless its event is that of the client's own closing. */
  lemma BroadcastSettlesNothing(s: State, e: Incoming, id: Id)
    requires Consistent(s) && id in s.requests && e.kind.Some? && e.kind != Some(Unicast) && e.event != Some("disconnected")
    ensures Untouched(s, Receive(s, e), id)
  {
    MessageSettlesExactly(s, e, id);
  }

  /** A message without a type settles every outstanding request of its name that it can be processed for. */
  lemma UntypedSettlesAll(s: State, e: Incoming, id: Id)
    requires Consistent(s) && id in s.requests && s.requests[id].status == Outstanding
    requires e.kind == None && e.event == Some(s.requests[id].name)
    ensures id in Receive(s, e).requests
    ensures Receive(s, e).requests[id].status == Outstanding <==>
      if !e.error && !e.response && !e.parameter then e.client != Some(s.client) else NeedsResponse(e) && !e.response
  {
    MessageSettlesExactly(s, e, id);
  }

  /** A new connect() when the socket is neither connecting nor open makes a socket that, once it
      opens, is the one requests are sent over; otherwise connect() changes nothing. */
  lemma ConnectThenOpen(s: State)
    requires Consistent(s)
    ensures IsConnecting(s) ==> Connect(s) == s
    ensures !IsConnecting(s) ==> var t := Connect(s); var i := |s.sockets|;
      && t.sockets == s.sockets + [Connecting] && CurrentIs(t, Connecting) && t.pending == {} && t.connects[i]
      && t.requests == s.requests && t.listeners == s.listeners
      && IsReady(SocketOpened(t, i)) && SocketOpened(t, i).level == Connected && !SocketOpened(t, i).connects[i]
      && !IsReady(SocketClosing(SocketOpened(t, i), i))
  {
  }

  /** How far the client has come with the server, read off what it hears. */
  lemma LevelExactly(s: State, e: Incoming)
    requires Consistent(s)
    ensures Receive(s, e).level ==
      if e.event == None || (!e.error && !e.response && !e.parameter) then s.level
      else if e.event == Some("login") && !e.error then Authenticated
      else if e.event == Some("authorize") && !e.error then Authorized
      else if e.event == Some("logout") then Disconnected
      else s.level
  {
    var t := s.(level := LevelAfter(s, e));
    if Dispatched(s, e) { DispatchEffect(t, t.listeners, e.event.value, e); }
  }

  /** A new request is pending iff the socket is open, and listens in any case. */
  lemma SendPending(s: State, id: Id, name: string)
    requires Consistent(s) && id !in s.requests && id !in s.pending
    ensures var t := Send(s, id, name);
      && (id in t.pending <==> IsReady(s)) && Attached(t, id)
      && (t.requests[id].status == Outstanding <==> IsReady(s))
  {
  }

  /** The server uses the event of the client's own closing while requests are pending. */
  predicate FakesClosing(s: State, e: Event) {
    e.Hear? && e.e.event == Some(DISCONNECTED) && Dispatched(s, e.e) && s.pending != {}
  }

  /** An event keeps the pending requests listening iff it is not such a message: that one takes
      their listeners off and leaves them pending. */
  lemma StepPendingExactly(s: State, e: Event)
    requires Consistent(s) && PendingListens(s) && Enabled(s, e)
    ensures PendingListens(Step(s, e)) <==> !FakesClosing(s, e)
  {
    match e
    case Down(i) =>
      var u := s.(sockets := s.sockets[i := Closed], level := Disconnected, pending := {});
      PendingKnown(u, u.listeners, DISCONNECTED, SILENT);
    case Ask(id, name) => SendConsistent(s, id, name); AskPending(s, id, name);
    case Hear(m) => HearPending(s, m);
    case _ =>
  }

  lemma AskPending(s: State, id: Id, name: string)
    requires Consistent(s) && PendingListens(s) && id !in s.requests
    ensures PendingListens(Send(s, id, name))
  {
    var t := Send(s, id, name);
    forall k | k in t.pending
      ensures Attached(t, k)
    {
      if k != id { assert Attached(s, k) && t.requests[k] == s.requests[k]; }
    }
  }

  lemma HearPending(s: State, e: Incoming)
    requires Consistent(s) && PendingListens(s)
    ensures PendingListens(Receive(s, e)) <==> !FakesClosing(s, Hear(e))
  {
    var t := Receive(s, e);
    var u := s.(level := LevelAfter(s, e));
    if Dispatched(s, e) { PendingKnown(u, u.listeners, e.event.value, e); }
    forall id | id in s.pending
      ensures FakesClosing(s, Hear(e)) ==> id in t.pending && !Attached(t, id)
      ensures !FakesClosing(s, Hear(e)) && id in t.pending ==> Attached(t, id)
    {
      assert Attached(s, id);
      MessageSettlesExactly(s, e, id);
    }
  }

  predicate NeverFaked(es: seq<Event>) {
    forall i :: 0 <= i < |es| ==> !(es[i].Hear? && es[i].e.event == Some(DISCONNECTED))
  }

  /** From a new client on, pending requests listen as long as the server does not use that event. */
  lemma {:induction false} RunPending(s: State, es: seq<Event>)
    requires Consistent(s) && PendingListens(s) && Possible(s, es) && NeverFaked(es)
    ensures PendingListens(Run(s, es))
    decreases |es|
  {
    if es != [] {
      StepPendingExactly(s, es[0]);
      StepConsistent(s, es[0]);
      RunPending(Step(s, es[0]), es[1..]);
    }
  }

  lemma ReachablePendingListens(client: string, es: seq<Event>)
    requires Consistent(Start(client)) && Possible(Start(client), es) && NeverFaked(es)
    ensures Consistent(Run(Start(client), es)) && PendingListens(Run(Start(client), es))
  {
    RunPending(Start(client), es);
  }

  /** After any socket has closed, nothing waits: no request is outstanding or pending, no
      listener is left, and the promise of the connect() that made the socket is settled. */
  lemma CloseLeavesNothing(s: State, i: nat)
    requires Consistent(s) && i < |s.sockets|
    ensures var t := SocketClosed(s, i);
      && t.pending == {} && t.listeners == [] && !t.connects[i]
      && t.requests.Keys == s.requests.Keys
      && forall id :: id in s.requests ==> t.requests[id] == Settle(s.requests[id], Rejected(ServerGone))
  {
    var u := s.(sockets := s.sockets[i := Closed], level := Disconnected, pending := {});
    var t := Dispatch(u, u.listeners, DISCONNECTED, SILENT);
    DispatchEffect(u, u.listeners, DISCONNECTED, SILENT);
    PendingKnown(u, u.listeners, DISCONNECTED, SILENT);
    forall id | id in s.requests
      ensures t.requests[id] == Settle(s.requests[id], Rejected(ServerGone)) && !Attached(t, id)
    {
      if Attached(s, id) {
        assert Attached(u, id);
        assert Listener(DISCONNECTED, OnDisconnect(id)) in u.listeners;
        assert Hit(u, u.listeners, DISCONNECTED, SILENT, id);
      } else {
        assert !Attached(u, id);
        assert Settle(s.requests[id], Rejected(ServerGone)) == s.requests[id];
        assert Done(u, t, id, DISCONNECTED, SILENT) || Untouched(u, t, id);
      }
    }
    if t.listeners != [] {
      var l := t.listeners[0];
      assert l in t.listeners && Attached(t, l.handler.id);
    }
  }

  /** This holds also when the closed socket is an old one: a request just sent over the new
      socket is rejected, and the client counts as disconnected although its socket is open. */
  lemma LateCloseRejectsNewRequests(s: State, previous: nat, id: Id)
    requires Consistent(s) && previous < |s.sockets| && s.sockets[previous] == Closing
    requires IsReady(s) && id in s.requests && s.requests[id].status == Outstanding
    ensures var t := SocketClosed(s, previous);
      IsReady(t) && t.level == Disconnected && id in t.requests && t.requests[id].status == Rejected(ServerGone)
  {
    CloseLeavesNothing(s, previous);
    CloseKeepsOthers(s, previous);
  }

  /** A close changes the ready state of its own socket only. */
  lemma CloseKeepsOthers(s: State, i: nat)
    requires Consistent(s) && i < |s.sockets|
    ensures var t := SocketClosed(s, i);
      t.sockets == s.sockets[i := Closed] && t.current == s.current && t.level == Disconnected
  {
    var u := s.(sockets := s.sockets[i := Closed], level := Disconnected, pending := {});
    DispatchEffect(u, u.listeners, DISCONNECTED, SILENT);
  }

  // ---------------------------------------------------------------------- class

  /** The class ov_Websocket, with the promises it has handed out. */
  class OvWebsocket {
    const client: string
    var sockets: seq<Ready>
    var connects: seq<bool>
    var current: Option<nat>
    var level: Level
    var pending: set<Id>
    var requests: map<Id, Request>
    var listeners: seq<Listener>

    function View(): State
      reads this
    {
      State(client, sockets, connects, current, level, pending, requests, listeners)
    }

    constructor (clientId: string)
      ensures View() == Start(clientId)
    {
      client, sockets, connects, current, level := clientId, [], [], None, Disconnected;
      pending, requests, listeners := {}, map[], [];
    }

    /** connect(). If the current socket is connecting or open, the promise resolves at once with
        whether it is open. */
    method ConnectSocket() returns (resolved: Option<bool>)
      modifies this
      ensures View() == Connect(old(View()))
      ensures resolved == if IsConnecting(old(View())) then Some(IsReady(old(View()))) else None
    {
      resolved := None;
      if IsConnecting(View()) {
        resolved := Some(IsReady(View()));
      } else {
        pending := {};
        current := Some(|sockets|);
        sockets, connects := sockets + [Connecting], connects + [true];
      }
    }

    /** The event_handler and the disconnect_handler of a request. */
    method CallHandler(h: Handler, e: Incoming)
      requires h.id in requests
      modifies this
      ensures View() == Handle(old(View()), h, e)
    {
      var r := requests[h.id];
      match h {
        case OnResponse(id) =>
          if Answers(client, e, id) {
            listeners := Without(listeners, Listener(r.name, OnResponse(id)));
            listeners := Without(listeners, Listener(DISCONNECTED, OnDisconnect(id)));
            pending := pending - {id};
            requests := requests[id := Settle(r, OutcomeOf(e))];
          }
        case OnDisconnect(id) =>
          listeners := Without(listeners, Listener(r.name, OnResponse(id)));
          listeners := Without(listeners, Listener(DISCONNECTED, OnDisconnect(id)));
          requests := requests[id := Settle(r, Rejected(ServerGone))];
      }
    }

    /** dispatchEvent on the event target: a copy of the list is walked, removed listeners are skipped. */
    method DispatchEvent(name: string, e: Incoming)
      requires Known(View())
      modifies this
      ensures View() == Dispatch(old(View()), old(listeners), name, e)
    {
      var copy := listeners;
      var i := 0;
      while i < |copy|
        invariant 0 <= i <= |copy| && Known(View())
        invariant Dispatch(View(), copy[i..], name, e) == Dispatch(old(View()), copy, name, e)
      {
        assert copy[i..][0] == copy[i] && copy[i..][1..] == copy[i + 1..];
        if copy[i].event == name && copy[i] in listeners {
          KnownAfter(View(), copy[i].handler, e);
          CallHandler(copy[i].handler, e);
        }
        i := i + 1;
      }
    }

    /** onclose of socket i, with #handel_close_websocket. */
    method OnClose(i: nat)
      requires Known(View()) && i < |sockets| == |connects|
      modifies this
      ensures View() == SocketClosed(old(View()), i)
    {
      sockets := sockets[i := Closed];
      level := Disconnected;
      pending := {};
      DispatchEvent(DISCONNECTED, SILENT);
      DispatchKeepsConnects(old(View()).(sockets := old(sockets)[i := Closed], level := Disconnected, pending := {}),
                            old(listeners), DISCONNECTED, SILENT);
      connects := connects[i := false];
    }

    method OnOpen(i: nat)
      requires i < |sockets| == |connects|
      modifies this
      ensures View() == SocketOpened(old(View()), i)
    {
      sockets, level, connects := sockets[i := Open], Connected, connects[i := false];
    }

    /** #request with #send_event. */
    method SendRequest(id: Id, name: string)
      modifies this
      ensures View() == Send(old(View()), id, name)
    {
      var status := Outstanding;
      if !IsReady(View()) {
        status := Rejected(NotConnected);
      }
      requests := requests[id := Request(name, status)];
      listeners := listeners + [Listener(name, OnResponse(id))];
      listeners := listeners + [Listener(DISCONNECTED, OnDisconnect(id))];
      assert listeners == old(listeners) + [Listener(name, OnResponse(id)), Listener(DISCONNECTED, OnDisconnect(id))];
      if IsReady(View()) {
        pending := pending + {id};
      }
    }

    /** #handle_websocket_event. */
    method OnMessage(e: Incoming)
      requires Known(View())
      modifies this
      ensures View() == Receive(old(View()), e)
    {
      if e.event.None? {
        return;
      }
      if !e.error && !e.response && !e.parameter {
        if e.client == Some(client) {
          DispatchEvent(e.event.value, e);
        }
        return;
      }
      level := LevelAfter(View(), e);
      if e.event.value in READS_RESPONSE && !e.response {
        return;  // reading a field of the missing response throws
      }
      DispatchEvent(e.event.value, e);
    }
  }

  lemma {:induction false} DispatchKeepsConnects(s: State, copy: seq<Listener>, name: string, e: Incoming)
    requires Known(s)
    ensures Dispatch(s, copy, name, e).connects == s.connects
    decreases |copy|
  {
    if copy != [] {
      if copy[0].event == name && copy[0] in s.listeners {
        KnownAfter(s, copy[0].handler, e);
        DispatchKeepsConnects(Handle(s, copy[0].handler, e), copy[1..], name, e);
      } else {
        DispatchKeepsConnects(s, copy[1..], name, e);
      }
    }
  }
}
