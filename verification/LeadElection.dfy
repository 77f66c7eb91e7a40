/** One call of connect() over all servers (ov_auth.js): which server leads, and what the call returns.

    The promises of the connection attempts settle in any order. The then-callback of a
    promise runs before anything that waits for it resumes, so a settlement and its
    callback are one step, and the resumptions of connect() are steps of their own. */
module LeadElection {
  import opened Options
  import WebsocketList

  /** Where connect() is: at Promise.any, at Promise.allSettled, at the lead promise, or done. */
  datatype Place = AwaitAny | AwaitAll | AwaitLead(promise: nat) | Returned(value: bool)

  /** settled holds what ws_connect has resolved to for each server; promise is the server
      lead_promise belongs to, resolved is lead_is_resolved, switches counts the calls of
      switch_lead_websocket. */
  datatype State = State(prime: nat, settled: seq<Option<bool>>, resolved: bool, promise: nat,
                         lead: nat, switches: nat, place: Place)

  datatype Event = Settle(server: nat, value: bool) | Resume

  predicate Connected(s: State, i: nat) {
    i < |s.settled| && s.settled[i] == Some(true)
  }

  predicate AllSettled(s: State) {
    forall i :: 0 <= i < |s.settled| ==> s.settled[i].Some?
  }

  /** connect() has called ws_connect for every server of the list. */
  predicate Started(s: State, lead: nat) {
    && s.prime < |s.settled| && lead < |s.settled|
    && (forall i :: 0 <= i < |s.settled| ==> s.settled[i] == None)
    && s == State(s.prime, s.settled, false, s.prime, lead, 0, AwaitAny)
  }

  predicate Enabled(s: State, e: Event) {
    match e
    case Settle(i, _) => i < |s.settled| && s.settled[i] == None
    case Resume =>
      match s.place
      case AwaitAny => exists i :: 0 <= i < |s.settled| && s.settled[i].Some?
      case AwaitAll => AllSettled(s)
      case AwaitLead(i) => i < |s.settled| && s.settled[i].Some?
      case Returned(_) => false
  }

  /** Whether the callback of a backup's promise takes the lead. */
  predicate TakesLead(s: State, i: nat, value: bool) {
    i != s.prime && value && !s.resolved
  }

  function OnSettled(s: State, i: nat, value: bool): State
    requires Enabled(s, Settle(i, value))
  {
    var t := s.(settled := s.settled[i := Some(value)]);
    if i == s.prime then t.(resolved := value)
    else if TakesLead(s, i, value) then t.(resolved := true, promise := i, lead := i, switches := s.switches + 1)
    else t
  }

  function OnResume(s: State): State
    requires Enabled(s, Resume)
  {
    match s.place
    case AwaitAny => s.(place := if s.resolved then AwaitLead(s.promise) else AwaitAll)
    case AwaitAll => s.(place := AwaitLead(s.promise))
    case AwaitLead(i) => s.(place := Returned(s.settled[i].value))
  }

  function Step(s: State, e: Event): State
    requires Enabled(s, e)
  {
    match e
    case Settle(i, value) => OnSettled(s, i, value)
    case Resume => OnResume(s)
  }

  predicate Possible(s: State, es: seq<Event>)
    decreases |es|
  {
    es == [] || (Enabled(s, es[0]) && Possible(Step(s, es[0]), es[1..]))
  }

  function Run(s: State, es: seq<Event>): State
    requires Possible(s, es)
    decreases |es|
  {
    if es == [] then s else Run(Step(s, es[0]), es[1..])
  }

  // ------------------------------------------------------------------ invariant

  /** The lead promise is the prime's or belongs to a connected server, and to a connected
      one as soon as there is any. */
  ghost predicate BestPromise(s: State) {
    && s.prime < |s.settled|
    && (s.promise == s.prime || Connected(s, s.promise))
    && (s.resolved ==> Connected(s, s.promise))
    && (forall i :: Connected(s, i) ==> Connected(s, s.promise))
  }

  /** What connect() is about to return. */
  ghost predicate Decided(s: State) {
    match s.place
    case AwaitAny => true
    case AwaitAll => true
    case AwaitLead(i) => Connected(s, i) || (i == s.prime && AllSettled(s) && forall k :: !Connected(s, k))
    case Returned(value) =>
      if value then exists i :: Connected(s, i) else AllSettled(s) && forall k :: !Connected(s, k)
  }

  /** A second switch needs the prime to have failed after the first. */
  ghost predicate FewSwitches(s: State) {
    && s.prime < |s.settled|
    && s.switches <= 2
    && (s.settled[s.prime] != Some(false) ==> s.switches <= 1)
    && (s.settled[s.prime] == None ==> (s.switches == 1 <==> s.resolved))
    && (s.settled[s.prime] == Some(true) ==> s.resolved)
    && (s.settled[s.prime] == Some(false) && !s.resolved ==> s.switches <= 1)
  }

  ghost predicate Sound(s: State) {
    BestPromise(s) && Decided(s) && FewSwitches(s)
  }

  lemma SettleFewSwitches(s: State, i: nat, value: bool)
    requires FewSwitches(s) && Enabled(s, Settle(i, value))
    ensures FewSwitches(OnSettled(s, i, value))
  {
    var t := OnSettled(s, i, value);
    if i != s.prime {
      assert t.settled[s.prime] == s.settled[s.prime];
      if TakesLead(s, i, value) {
        var p := s.settled[s.prime];
        assert p.Some? ==> if p.value then p == Some(true) else p == Some(false);
      }
    }
  }

  lemma SettleSound(s: State, i: nat, value: bool)
    requires Sound(s) && Enabled(s, Settle(i, value))
    ensures Sound(OnSettled(s, i, value))
  {
    SettleFewSwitches(s, i, value);
    var t := OnSettled(s, i, value);
    forall k
      ensures Connected(t, k) <==> Connected(s, k) || (k == i && value)
    {
    }
  }

  lemma StepSound(s: State, e: Event)
    requires Sound(s) && Enabled(s, e)
    ensures Sound(Step(s, e))
    ensures s.lead == s.promise ==> Step(s, e).lead == Step(s, e).promise
  {
    match e
    case Settle(i, value) => SettleSound(s, i, value);
    case Resume =>
      var t := Step(s, e);
      assert forall k :: Connected(t, k) <==> Connected(s, k);
      if s.place == AwaitAll && !Connected(s, s.promise) {
        assert forall k :: !Connected(s, k);
      }
  }

  lemma {:induction false} RunSound(s: State, es: seq<Event>)
    requires Sound(s) && Possible(s, es)
    ensures Sound(Run(s, es))
    ensures s.lead == s.promise ==> Run(s, es).lead == Run(s, es).promise
    decreases |es|
  {
    if es != [] {
      StepSound(s, es[0]);
      RunSound(Step(s, es[0]), es[1..]);
    }
  }

  // --------------------------------------------------------------- main results

  /** Whatever the order of settlements and resumptions: connect() returns true only if some
      attempt succeeded, false only if all have failed; if the prime was leading on entry,
      the lead after a true result is a server whose attempt succeeded. The lead is switched
      at most twice, also counting switches after connect() has returned. */
  lemma ElectionOutcome(s: State, lead: nat, es: seq<Event>)
    requires Started(s, lead) && Possible(s, es)
    ensures var t := Run(s, es);
      && (t.place == Returned(true) ==> exists i :: Connected(t, i))
      && (t.place == Returned(false) ==> AllSettled(t) && forall i :: !Connected(t, i))
      && (t.place == Returned(true) && lead == s.prime ==> Connected(t, t.lead))
      && t.switches <= 2
  {
    RunSound(s, es);
  }

  /** How often connect() resumes from Promise.any on, when all attempts have settled. */
  function Resumptions(s: State): nat {
    if s.resolved then 2 else 3
  }

  /** Once all attempts have settled connect() cannot hang: it resumes until it returns. */
  lemma ElectionEnds(s: State, lead: nat, es: seq<Event>)
    requires Started(s, lead) && Possible(s, es) && AllSettled(Run(s, es)) && Run(s, es).place.AwaitAny?
    ensures var t := Run(s, es); var rs := seq(Resumptions(t), _ => Resume);
      Possible(t, rs) && Run(t, rs).place.Returned?
  {
    RunSound(s, es);
    KeepsServers(s, es);
    var t := Run(s, es);
    assert t.settled[t.prime].Some?;
    if t.resolved { Unroll2(t); } else { Unroll3(t); }
  }

  lemma {:induction false} KeepsServers(s: State, es: seq<Event>)
    requires Possible(s, es)
    ensures |Run(s, es).settled| == |s.settled| && Run(s, es).prime == s.prime
    decreases |es|
  {
    if es != [] { KeepsServers(Step(s, es[0]), es[1..]); }
  }

  lemma Unroll2(s: State)
    requires Enabled(s, Resume) && Enabled(OnResume(s), Resume)
    ensures Possible(s, seq(2, _ => Resume)) && Run(s, seq(2, _ => Resume)) == OnResume(OnResume(s))
  {
    var es: seq<Event> := seq(2, _ => Resume);
    assert es == [Resume, Resume] && es[1..] == [Resume] && es[1..][1..] == [];
    assert Possible(OnResume(s), [Resume]) && Run(OnResume(s), [Resume]) == OnResume(OnResume(s)) by {
      assert [Resume][1..] == [];
    }
  }

  lemma Unroll3(s: State)
    requires Enabled(s, Resume) && Enabled(OnResume(s), Resume) && Enabled(OnResume(OnResume(s)), Resume)
    ensures Possible(s, seq(3, _ => Resume)) && Run(s, seq(3, _ => Resume)) == OnResume(OnResume(OnResume(s)))
  {
    var es: seq<Event> := seq(3, _ => Resume);
    var two: seq<Event> := seq(2, _ => Resume);
    Unroll2(OnResume(s));
    assert es[0] == Resume && es[1..] == two;
  }

  lemma {:induction false} PrimeKeepsLead(s: State, es: seq<Event>)
    requires Sound(s) && Connected(s, s.prime) && s.switches == 0 && s.lead == s.prime && Possible(s, es)
    ensures Run(s, es).switches == 0 && Run(s, es).lead == s.prime
    decreases |es|
  {
    if es != [] {
      StepSound(s, es[0]);
      PrimeKeepsLead(Step(s, es[0]), es[1..]);
    }
  }

  /** If the prime has connected and no backup has by then, the lead is not switched by this
      call, neither so far nor in whatever follows. */
  lemma PrimeFirstKeepsLead(s: State, lead: nat, es: seq<Event>, es': seq<Event>)
    requires Started(s, lead) && lead == s.prime && Possible(s, es) && Possible(Run(s, es), es')
    requires Connected(Run(s, es), s.prime)
    requires forall i :: i != s.prime ==> !Connected(Run(s, es), i)
    ensures Run(Run(s, es), es').switches == 0 && Run(Run(s, es), es').lead == s.prime
  {
    RunSound(s, es);
    KeepsServers(s, es);
    RunSwitchesMeanBackup(s, es);
    PrimeKeepsLead(Run(s, es), es');
  }

  lemma {:induction false} RunSwitchesMeanBackup(s: State, es: seq<Event>)
    requires Possible(s, es) && (s.switches > 0 ==> exists i :: i != s.prime && Connected(s, i))
    ensures Run(s, es).switches > 0 ==> exists i :: i != s.prime && Connected(Run(s, es), i)
    decreases |es|
  {
    if es != [] {
      var t := Step(s, es[0]);
      if t.switches > 0 {
        if s.switches > 0 {
          var i :| i != s.prime && Connected(s, i);
          assert Connected(t, i);
        } else {
          assert Connected(t, es[0].server);
        }
      }
      RunSwitchesMeanBackup(t, es[1..]);
    }
  }

  /** A true result names a lead whose attempt succeeded in every run iff the prime leads on entry. */
  lemma LeadConnectedExactly(s: State, lead: nat)
    requires Started(s, lead)
    ensures (forall es :: Possible(s, es) && Run(s, es).place == Returned(true) ==> Connected(Run(s, es), Run(s, es).lead))
       <==> lead == s.prime
  {
    if lead == s.prime {
      forall es | Possible(s, es) && Run(s, es).place == Returned(true)
        ensures Connected(Run(s, es), Run(s, es).lead)
      {
        ElectionOutcome(s, lead, es);
      }
    } else {
      BackupLeadFails(s, lead);
    }
  }

  /** If a backup leads on entry, its attempt fails and the prime's succeeds, connect() returns
      true and the failed backup still leads. */
  lemma BackupLeadFails(s: State, lead: nat)
    requires Started(s, lead) && lead != s.prime
    ensures var es := [Settle(s.prime, true), Settle(lead, false), Resume, Resume];
      Possible(s, es) && Run(s, es).place == Returned(true) && Run(s, es).lead == lead && !Connected(Run(s, es), lead)
  {
    var e0, e1 := Settle(s.prime, true), Settle(lead, false);
    var s1 := Step(s, e0);
    var s2 := Step(s1, e1);
    assert s2.settled[s.prime] == Some(true);
    Unroll2(s2);
    assert seq(2, _ => Resume) == [Resume, Resume];
    assert [e1, Resume, Resume][1..] == [Resume, Resume];
    assert [e0, e1, Resume, Resume][1..] == [e1, Resume, Resume];
    assert Possible(s1, [e1, Resume, Resume]) && Run(s1, [e1, Resume, Resume]) == Run(s2, [Resume, Resume]);
  }

  // ------------------------------------------------------ who leads, read off the events

  /** Some attempt has succeeded and the prime has not failed after it. */
  predicate Taken(prime: nat, es: seq<Event>) {
    exists p :: 0 <= p < |es| && SucceedsAt(es, p) && NoPrimeFailure(prime, es[p + 1..])
  }

  predicate SucceedsAt(es: seq<Event>, p: nat)
    requires p < |es|
  {
    es[p].Settle? && es[p].value
  }

  predicate NoPrimeFailure(prime: nat, es: seq<Event>) {
    forall q :: 0 <= q < |es| ==> es[q] != Settle(prime, false)
  }

  lemma TakenFirst(prime: nat, es: seq<Event>)
    requires es != []
    ensures Taken(prime, es) <==> (SucceedsAt(es, 0) && NoPrimeFailure(prime, es[1..])) || Taken(prime, es[1..])
  {
    var rest := es[1..];
    if Taken(prime, es) {
      var p :| 0 <= p < |es| && SucceedsAt(es, p) && NoPrimeFailure(prime, es[p + 1..]);
      if p > 0 {
        assert rest[p - 1] == es[p] && rest[p..] == es[p + 1..];
        assert SucceedsAt(rest, p - 1);
      }
    }
    if Taken(prime, rest) {
      var p :| 0 <= p < |rest| && SucceedsAt(rest, p) && NoPrimeFailure(prime, rest[p + 1..]);
      assert rest[p] == es[p + 1] && rest[p + 1..] == es[p + 2..];
      assert SucceedsAt(es, p + 1);
    }
  }

  /** lead_is_resolved says just this. */
  lemma {:induction false} ResolvedExactly(s: State, es: seq<Event>)
    requires Possible(s, es)
    ensures Run(s, es).resolved <==> Taken(s.prime, es) || (s.resolved && NoPrimeFailure(s.prime, es))
    decreases |es|
  {
    if es != [] {
      ResolvedExactly(Step(s, es[0]), es[1..]);
      TakenFirst(s.prime, es);
      assert NoPrimeFailure(s.prime, es) <==> es[0] != Settle(s.prime, false) && NoPrimeFailure(s.prime, es[1..]) by {
        assert es == [es[0]] + es[1..];
      }
    }
  }

  /** After any run, a success of a backup moves the lead to it iff no attempt had succeeded before
      or the prime has failed after every success so far. No other event moves the lead. */
  lemma LeadMovesExactly(s: State, lead: nat, es: seq<Event>, e: Event)
    requires Started(s, lead) && Possible(s, es) && Enabled(Run(s, es), e)
    ensures var t := Run(s, es); var u := Step(t, e);
      if e.Settle? && e.value && e.server != s.prime && !Taken(s.prime, es) then u.lead == e.server && u.switches == t.switches + 1
      else u.lead == t.lead && u.switches == t.switches
  {
    ResolvedExactly(s, es);
    KeepsServers(s, es);
  }

  /** The lead after a run of events: the last backup that succeeded when the lead was not taken. */
  function LeadAfter(prime: nat, lead: nat, es: seq<Event>): nat
    decreases |es|
  {
    if es == [] then lead
    else
      var front, e := es[..|es| - 1], es[|es| - 1];
      if e.Settle? && e.value && e.server != prime && !Taken(prime, front) then e.server else LeadAfter(prime, lead, front)
  }

  lemma {:induction false} RunLast(s: State, es: seq<Event>)
    requires es != [] && Possible(s, es)
    ensures var front, e := es[..|es| - 1], es[|es| - 1];
      Possible(s, front) && Enabled(Run(s, front), e) && Run(s, es) == Step(Run(s, front), e)
    decreases |es|
  {
    if |es| > 1 {
      RunLast(Step(s, es[0]), es[1..]);
      assert es[1..][..|es| - 2] == es[..|es| - 1][1..];
    }
  }

  lemma {:induction false} LeadIsLastTaker(s: State, lead: nat, es: seq<Event>)
    requires Started(s, lead) && Possible(s, es)
    ensures Run(s, es).lead == LeadAfter(s.prime, lead, es)
    decreases |es|
  {
    if es != [] {
      var front := es[..|es| - 1];
      RunLast(s, es);
      LeadIsLastTaker(s, lead, front);
      LeadMovesExactly(s, lead, front, es[|es| - 1]);
    }
  }

  /** For example: a backup succeeds, the prime fails, another backup succeeds and takes the lead. */
  lemma LatePrimeFailureOpensLead(s: State, lead: nat, i: nat, j: nat)
    requires Started(s, lead) && i < |s.settled| && j < |s.settled| && i != j && i != s.prime && j != s.prime
    ensures var es := [Settle(i, true), Settle(s.prime, false), Settle(j, true)];
      Possible(s, es) && Run(s, es).lead == j && Run(s, es).switches == 2
  {
    var e0, e1, e2 := Settle(i, true), Settle(s.prime, false), Settle(j, true);
    var s1 := Step(s, e0);
    var s2 := Step(s1, e1);
    EventAndRest(s2, e2, []);
    assert [e2] + [] == [e2];
    EventAndRest(s1, e1, [e2]);
    assert [e1] + [e2] == [e1, e2];
    EventAndRest(s, e0, [e1, e2]);
    assert [e0] + [e1, e2] == [e0, e1, e2];
  }

  lemma EventAndRest(s: State, e: Event, es: seq<Event>)
    requires Enabled(s, e) && Possible(Step(s, e), es)
    ensures Possible(s, [e] + es) && Run(s, [e] + es) == Run(Step(s, e), es)
  {
    assert ([e] + es)[0] == e && ([e] + es)[1..] == es;
  }

  /** As soon as a success has been seen connect() returns true in two resumptions, whatever is still unsettled. */
  lemma ReturnsEarly(s: State, lead: nat, es: seq<Event>)
    requires Started(s, lead) && Possible(s, es) && Run(s, es).place.AwaitAny? && Taken(s.prime, es)
    ensures var t := Run(s, es); var rs := seq(2, _ => Resume);
      Possible(t, rs) && Run(t, rs).place == Returned(true)
  {
    RunSound(s, es);
    ResolvedExactly(s, es);
    var t := Run(s, es);
    assert t.settled[t.promise].Some?;
    Unroll2(t);
  }

  // ---------------------------------------------------------------------- class

  /** The local variables of connect(), captured by the callbacks it registers. */
  class Connect {
    const servers: WebsocketList.ServerList
    const prime: nat
    var settled: seq<Option<bool>>
    var resolved: bool
    var promise: nat
    var place: Place
    ghost var switches: nat

    ghost function View(): State
      reads this, servers
    {
      State(prime, settled, resolved, promise, servers.lead, switches, place)
    }

    ghost predicate Fits()
      reads this, servers
    {
      WebsocketList.Valid(servers.View()) && |settled| == |servers.attached|
    }

    constructor (list: WebsocketList.ServerList, primeServer: nat)
      requires WebsocketList.Valid(list.View()) && primeServer < |list.attached|
      ensures servers == list && prime == primeServer && Fits()
      ensures Started(View(), list.lead)
    {
      servers, prime := list, primeServer;
      settled := seq(|list.attached|, _ => None);
      resolved, promise, place, switches := false, primeServer, AwaitAny, 0;
    }

    /** The then-callback registered for the promise of server i. */
    method Settled(i: nat, value: bool)
      requires Fits() && Enabled(View(), Settle(i, value))
      modifies this, servers
      ensures Fits() && View() == OnSettled(old(View()), i, value)
      ensures servers.View() == if TakesLead(old(View()), i, value) then WebsocketList.SwitchLead(old(servers.View()), i)
                                else old(servers.View())
    {
      settled := settled[i := Some(value)];
      if i == prime {
        resolved := value;
      } else if value && !resolved {
        resolved := true;
        promise := i;
        servers.SwitchLeadWebsocket(i);
        switches := switches + 1;
      }
    }

    /** connect() goes on after the await it is at. */
    method Resumed()
      requires Enabled(View(), Resume)
      modifies this
      ensures View() == OnResume(old(View()))
    {
      match place {
        case AwaitAny => place := if !resolved then AwaitAll else AwaitLead(promise);
        case AwaitAll => place := AwaitLead(promise);
        case AwaitLead(i) => place := Returned(settled[i].value);
      }
    }
  }
}
