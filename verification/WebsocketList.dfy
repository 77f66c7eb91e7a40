/** The list of server connections of the browser client (ov_websocket_list.js) and the
    listeners that follow the lead connection.

    Listener sets are those of section 2.7 (Interface EventTarget) of the WHATWG DOM
    Standard: ordered, and adding a listener that is there already changes nothing. */
module WebsocketList {

  /** An event name and a callback. Callbacks registered by the websockets for themselves
      are other function objects than those registered through the list. */
  datatype Registration = Registration(event: string, callback: nat, own: bool)

  type Listeners = seq<Registration>

  function AddTo(ls: Listeners, r: Registration): Listeners {
    if r in ls then ls else ls + [r]
  }

  function RemoveFrom(ls: Listeners, r: Registration): Listeners {
    if ls == [] then [] else if ls[0] == r then RemoveFrom(ls[1..], r) else [ls[0]] + RemoveFrom(ls[1..], r)
  }

  function AddAll(ls: Listeners, rs: seq<Registration>): Listeners
    decreases rs
  {
    if rs == [] then ls else AddAll(AddTo(ls, rs[0]), rs[1..])
  }

  function RemoveAll(ls: Listeners, rs: seq<Registration>): Listeners
    decreases rs
  {
    if rs == [] then ls else RemoveAll(RemoveFrom(ls, rs[0]), rs[1..])
  }

  /** Websockets are numbered in list order. attached holds the listener set of each. */
  datatype State = State(lead: nat, events: seq<Registration>, attached: seq<Listeners>)

  predicate Valid(s: State) {
    s.lead < |s.attached|
  }

  function Add(s: State, r: Registration): State
    requires Valid(s)
  {
    s.(events := s.events + [r], attached := s.attached[s.lead := AddTo(s.attached[s.lead], r)])
  }

  function RemoveEventListeners(s: State): State
    requires Valid(s)
  {
    s.(events := [], attached := s.attached[s.lead := RemoveAll(s.attached[s.lead], s.events)])
  }

  function SwitchLead(s: State, ws: nat): State
    requires Valid(s)
  {
    if ws >= |s.attached| then s
    else
      var bare := s.attached[s.lead := RemoveAll(s.attached[s.lead], s.events)];
      s.(lead := ws, attached := bare[ws := AddAll(bare[ws], s.events)])
  }

  /** A websocket's own listener comes or goes, with no part of the list in it. */
  function OwnAdd(s: State, ws: nat, r: Registration): State
    requires ws < |s.attached|
  {
    s.(attached := s.attached[ws := AddTo(s.attached[ws], r)])
  }

  function OwnRemove(s: State, ws: nat, r: Registration): State
    requires ws < |s.attached|
  {
    s.(attached := s.attached[ws := RemoveFrom(s.attached[ws], r)])
  }

  datatype Event =
    | AddListener(r: Registration)
    | RemoveListeners
    | Switch(ws: nat)
    | AddOwn(ws: nat, r: Registration)
    | RemoveOwn(ws: nat, r: Registration)

  /** Listeners added through the list are never a websocket's own, and the other way round. */
  predicate Enabled(s: State, e: Event) {
    match e
    case AddListener(r) => !r.own
    case AddOwn(ws, r) => ws < |s.attached| && r.own
    case RemoveOwn(ws, r) => ws < |s.attached| && r.own
    case _ => true
  }

  function Step(s: State, e: Event): (t: State)
    requires Valid(s) && Enabled(s, e)
    ensures Valid(t) && |t.attached| == |s.attached|
  {
    match e
    case AddListener(r) => Add(s, r)
    case RemoveListeners => RemoveEventListeners(s)
    case Switch(ws) => SwitchLead(s, ws)
    case AddOwn(ws, r) => OwnAdd(s, ws, r)
    case RemoveOwn(ws, r) => OwnRemove(s, ws, r)
  }

  predicate Possible(s: State, es: seq<Event>)
    requires Valid(s)
    decreases |es|
  {
    es == [] || (Enabled(s, es[0]) && Possible(Step(s, es[0]), es[1..]))
  }

  function Run(s: State, es: seq<Event>): (t: State)
    requires Valid(s) && Possible(s, es)
    ensures Valid(t) && |t.attached| == |s.attached|
    decreases |es|
  {
    if es == [] then s else Run(Step(s, es[0]), es[1..])
  }

  // ------------------------------------------------------------------ invariant

  /** The listeners in a set that came through the list, in order. */
  function Shared(ls: Listeners): Listeners {
    if ls == [] then [] else (if ls[0].own then [] else [ls[0]]) + Shared(ls[1..])
  }

  /** The registrations made through the list, each once, in the order they were first made. */
  function Distinct(rs: seq<Registration>): Listeners {
    AddAll([], rs)
  }

  /** The current lead has exactly the listeners of the list, in the order they were made,
      and no other websocket has any of them. */
  ghost predicate Migrated(s: State) {
    && Valid(s)
    && (forall r :: r in s.events ==> !r.own)
    && Shared(s.attached[s.lead]) == Distinct(s.events)
    && (forall ws :: 0 <= ws < |s.attached| && ws != s.lead ==> Shared(s.attached[ws]) == [])
  }

  lemma {:induction false} SharedConcat(a: Listeners, b: Listeners)
    ensures Shared(a + b) == Shared(a) + Shared(b)
  {
    if a == [] {
      assert a + b == b;
    } else {
      assert (a + b)[1..] == a[1..] + b;
      SharedConcat(a[1..], b);
    }
  }

  lemma {:induction false} SharedKeeps(ls: Listeners, r: Registration)
    requires !r.own
    ensures r in Shared(ls) <==> r in ls
  {
    if ls != [] { SharedKeeps(ls[1..], r); }
  }

  lemma SharedAdd(ls: Listeners, r: Registration)
    ensures Shared(AddTo(ls, r)) == if r.own then Shared(ls) else AddTo(Shared(ls), r)
  {
    SharedConcat(ls, [r]);
    assert Shared([r]) == if r.own then [] else [r];
    if !r.own { SharedKeeps(ls, r); }
  }

  lemma {:induction false} SharedRemove(ls: Listeners, r: Registration)
    ensures Shared(RemoveFrom(ls, r)) == if r.own then Shared(ls) else RemoveFrom(Shared(ls), r)
  {
    if ls != [] {
      SharedRemove(ls[1..], r);
      var rest := RemoveFrom(ls[1..], r);
      SharedConcat([ls[0]], rest);
      SharedConcat([ls[0]], ls[1..]);
      assert [ls[0]] + ls[1..] == ls;
      if ls[0].own {
        assert Shared([ls[0]]) == [];
        assert [] + Shared(rest) == Shared(rest) && [] + Shared(ls[1..]) == Shared(ls[1..]);
      } else {
        assert Shared([ls[0]]) == [ls[0]];
        assert Shared(ls)[1..] == Shared(ls[1..]);
      }
    }
  }

  lemma {:induction false} SharedAddAll(ls: Listeners, rs: seq<Registration>)
    requires forall r :: r in rs ==> !r.own
    ensures Shared(AddAll(ls, rs)) == AddAll(Shared(ls), rs)
    decreases rs
  {
    if rs != [] {
      SharedAdd(ls, rs[0]);
      SharedAddAll(AddTo(ls, rs[0]), rs[1..]);
    }
  }

  lemma {:induction false} SharedRemoveAll(ls: Listeners, rs: seq<Registration>)
    requires forall r :: r in rs ==> !r.own
    ensures Shared(RemoveAll(ls, rs)) == RemoveAll(Shared(ls), rs)
    decreases rs
  {
    if rs != [] {
      SharedRemove(ls, rs[0]);
      SharedRemoveAll(RemoveFrom(ls, rs[0]), rs[1..]);
    }
  }

  lemma {:induction false} RemoveFromDrops(ls: Listeners, r: Registration, x: Registration)
    ensures x in RemoveFrom(ls, r) <==> x in ls && x != r
  {
    if ls != [] { RemoveFromDrops(ls[1..], r, x); }
  }

  lemma {:induction false} RemoveAllDrops(ls: Listeners, rs: seq<Registration>, x: Registration)
    ensures x in RemoveAll(ls, rs) <==> x in ls && x !in rs
    decreases rs
  {
    if rs != [] {
      RemoveFromDrops(ls, rs[0], x);
      RemoveAllDrops(RemoveFrom(ls, rs[0]), rs[1..], x);
    }
  }

  lemma {:induction false} AddAllHas(ls: Listeners, rs: seq<Registration>, x: Registration)
    ensures x in AddAll(ls, rs) <==> x in ls || x in rs
    decreases rs
  {
    if rs != [] { AddAllHas(AddTo(ls, rs[0]), rs[1..], x); }
  }

  lemma {:induction false} AddAllAppend(ls: Listeners, rs: seq<Registration>, r: Registration)
    ensures AddAll(ls, rs + [r]) == AddTo(AddAll(ls, rs), r)
    decreases rs
  {
    if rs == [] {
      assert rs + [r] == [r] && AddAll(AddTo(ls, r), [r][1..]) == AddTo(ls, r);
    } else {
      assert (rs + [r])[1..] == rs[1..] + [r];
      AddAllAppend(AddTo(ls, rs[0]), rs[1..], r);
    }
  }

  /** Taking all listeners of the list off the lead leaves none of them there. */
  lemma RemovedFromLead(ls: Listeners, rs: seq<Registration>)
    requires forall r :: r in rs ==> !r.own
    requires Shared(ls) == Distinct(rs)
    ensures Shared(RemoveAll(ls, rs)) == []
  {
    SharedRemoveAll(ls, rs);
    var left := RemoveAll(Shared(ls), rs);
    if left != [] {
      RemoveAllDrops(Shared(ls), rs, left[0]);
      AddAllHas([], rs, left[0]);
    }
  }

  lemma SwitchMigrates(s: State, ws: nat)
    requires Migrated(s)
    ensures Migrated(SwitchLead(s, ws))
  {
    if ws < |s.attached| {
      RemovedFromLead(s.attached[s.lead], s.events);
      var bare := s.attached[s.lead := RemoveAll(s.attached[s.lead], s.events)];
      SharedAddAll(bare[ws], s.events);
    }
  }

  lemma StepMigrates(s: State, e: Event)
    requires Migrated(s) && Enabled(s, e)
    ensures Migrated(Step(s, e))
  {
    match e
    case AddListener(r) =>
      SharedAdd(s.attached[s.lead], r);
      AddAllAppend([], s.events, r);
    case RemoveListeners => RemovedFromLead(s.attached[s.lead], s.events);
    case Switch(ws) => SwitchMigrates(s, ws);
    case AddOwn(ws, r) => SharedAdd(s.attached[ws], r);
    case RemoveOwn(ws, r) => SharedRemove(s.attached[ws], r);
  }

  /** Listeners follow the lead through every run. */
  lemma {:induction false} RunMigrates(s: State, es: seq<Event>)
    requires Migrated(s) && Possible(s, es)
    ensures Migrated(Run(s, es))
    decreases |es|
  {
    if es != [] {
      StepMigrates(s, es[0]);
      RunMigrates(Step(s, es[0]), es[1..]);
    }
  }

  /** Right after setup_connections: the first server leads, and only the websockets' own listeners are attached. */
  predicate JustSetUp(s: State) {
    s.lead == 0 < |s.attached| && s.events == [] &&
    forall ws, i :: 0 <= ws < |s.attached| && 0 <= i < |s.attached[ws]| ==> s.attached[ws][i].own
  }

  lemma {:induction false} OnlyOwn(ls: Listeners)
    requires forall i :: 0 <= i < |ls| ==> ls[i].own
    ensures Shared(ls) == []
  {
    if ls != [] { OnlyOwn(ls[1..]); }
  }

  /** From setup on, a listener registered through the list is attached to the current lead
      iff it has been registered since the last removal, and never to another websocket. */
  lemma ListenersFollowLead(s: State, es: seq<Event>, r: Registration, ws: nat)
    requires JustSetUp(s) && Possible(s, es) && !r.own && ws < |s.attached|
    ensures var t := Run(s, es);
      && Shared(t.attached[t.lead]) == Distinct(t.events)
      && (r in t.attached[ws] <==> ws == t.lead && r in t.events)
  {
    forall k | 0 <= k < |s.attached|
      ensures Shared(s.attached[k]) == []
    {
      OnlyOwn(s.attached[k]);
    }
    RunMigrates(s, es);
    var t := Run(s, es);
    SharedKeeps(t.attached[ws], r);
    AddAllHas([], t.events, r);
  }

  // ------------------------------------------------------------ read off the events

  /** What has been registered through the list since the last removal. */
  function RegisteredBy(es: seq<Event>): seq<Registration>
    decreases |es|
  {
    if es == [] then []
    else
      var front := RegisteredBy(es[..|es| - 1]);
      match es[|es| - 1]
      case AddListener(r) => front + [r]
      case RemoveListeners => []
      case _ => front
  }

  /** The websocket of the last switch to one of n, or the first. */
  function LedBy(es: seq<Event>, n: nat): nat
    decreases |es|
  {
    if es == [] then 0
    else match es[|es| - 1]
         case Switch(ws) => if ws < n then ws else LedBy(es[..|es| - 1], n)
         case _ => LedBy(es[..|es| - 1], n)
  }

  lemma {:induction false} RunLast(s: State, es: seq<Event>)
    requires Valid(s) && es != [] && Possible(s, es)
    ensures var front, e := es[..|es| - 1], es[|es| - 1];
      Possible(s, front) && Enabled(Run(s, front), e) && Run(s, es) == Step(Run(s, front), e)
    decreases |es|
  {
    if |es| > 1 {
      RunLast(Step(s, es[0]), es[1..]);
      assert es[1..][..|es| - 2] == es[..|es| - 1][1..];
    }
  }

  lemma {:induction false} RunFollowsEvents(s: State, es: seq<Event>)
    requires JustSetUp(s) && Possible(s, es)
    ensures Run(s, es).events == RegisteredBy(es) && Run(s, es).lead == LedBy(es, |s.attached|)
    decreases |es|
  {
    if es != [] {
      RunLast(s, es);
      RunFollowsEvents(s, es[..|es| - 1]);
    }
  }

  /** From setup on, a listener registered through the list is attached to a websocket iff it has
      been registered since the last removal and the websocket is the one switched to last. */
  lemma AttachedExactly(s: State, es: seq<Event>, r: Registration, ws: nat)
    requires JustSetUp(s) && Possible(s, es) && !r.own && ws < |s.attached|
    ensures r in Run(s, es).attached[ws] <==> ws == LedBy(es, |s.attached|) && r in RegisteredBy(es)
  {
    ListenersFollowLead(s, es, r, ws);
    RunFollowsEvents(s, es);
  }

  /** A websocket's own listeners come and go by themselves and not with the list. */
  lemma OwnStays(s: State, e: Event, r: Registration, ws: nat)
    requires Migrated(s) && Enabled(s, e) && r.own && ws < |s.attached|
    ensures r in Step(s, e).attached[ws] <==>
      (e == AddOwn(ws, r) || (r in s.attached[ws] && e != RemoveOwn(ws, r)))
  {
    match e
    case RemoveListeners => RemoveAllDrops(s.attached[s.lead], s.events, r);
    case Switch(k) =>
      RemoveAllDrops(s.attached[s.lead], s.events, r);
      if k < |s.attached| {
        var bare := s.attached[s.lead := RemoveAll(s.attached[s.lead], s.events)];
        AddAllHas(bare[k], s.events, r);
      }
    case RemoveOwn(k, x) => RemoveFromDrops(s.attached[k], x, r);
    case _ =>
  }

  // ---------------------------------------------------------------------- class

  /** The module variables of ov_websocket_list.js. */
  class ServerList {
    var lead: nat
    var events: seq<Registration>
    var attached: seq<Listeners>

    function View(): State
      reads this
    {
      State(lead, events, attached)
    }

    constructor (sockets: seq<Listeners>)
      requires sockets != []
      ensures View() == State(0, [], sockets)
    {
      lead, events, attached := 0, [], sockets;
    }

    method AddEventListener(r: Registration)
      requires Valid(View())
      modifies this
      ensures View() == Add(old(View()), r)
    {
      events := events + [r];
      attached := attached[lead := AddTo(attached[lead], r)];
    }

    /** Remove the listeners of the list from the lead, one by one. */
    method DetachEvents()
      requires Valid(View())
      modifies this
      ensures lead == old(lead) && events == old(events)
      ensures attached == old(attached)[lead := RemoveAll(old(attached)[lead], events)]
    {
      ghost var before := attached;
      var i := 0;
      while i < |events|
        invariant 0 <= i <= |events| && Valid(View()) && |attached| == |before|
        invariant lead == old(lead) && events == old(events)
        invariant attached == before[lead := attached[lead]]
        invariant RemoveAll(attached[lead], events[i..]) == RemoveAll(before[lead], events)
      {
        assert events[i..][1..] == events[i + 1..];
        attached := attached[lead := RemoveFrom(attached[lead], events[i])];
        i := i + 1;
      }
    }

    method RemoveListeners()
      requires Valid(View())
      modifies this
      ensures View() == RemoveEventListeners(old(View()))
    {
      DetachEvents();
      events := [];
    }

    method SwitchLeadWebsocket(ws: nat)
      requires Valid(View())
      modifies this
      ensures View() == SwitchLead(old(View()), ws)
    {
      if ws < |attached| {
        DetachEvents();
        lead := ws;
        ghost var before := attached;
        var i := 0;
        while i < |events|
          invariant 0 <= i <= |events| && Valid(View()) && |attached| == |before|
          invariant lead == ws && events == old(events)
          invariant attached == before[ws := attached[ws]]
          invariant AddAll(attached[ws], events[i..]) == AddAll(before[ws], events)
        {
          assert events[i..][1..] == events[i + 1..];
          attached := attached[lead := AddTo(attached[lead], events[i])];
          i := i + 1;
        }
      }
    }
  }
}
