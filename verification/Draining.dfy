/** Working off the trigger queue without new input: it ends, and then everything is answered. */
module Draining {
  import opened AppModel
  import opened Framing
  import opened Stream

  function Buffered(e: Entry): nat {
    if e.Connection? then |e.buffer| else 0
  }

  /** The bytes waiting in all parser buffers. */
  ghost function TotalBuffered(m: Sockets): nat
    decreases m.Keys
  {
    if m.Keys == {} then 0
    else
      var fd :| fd in m;
      Buffered(m[fd]) + TotalBuffered(m - {fd})
  }

  /** The total can be counted starting from any socket. */
  lemma {:induction false} CountFirst(m: Sockets, fd: nat)
    requires fd in m
    ensures TotalBuffered(m) == Buffered(m[fd]) + TotalBuffered(m - {fd})
    decreases m.Keys
  {
    var k :| k in m && TotalBuffered(m) == Buffered(m[k]) + TotalBuffered(m - {k});
    if k != fd {
      CountFirst(m - {k}, fd);
      CountFirst(m - {fd}, k);
      assert (m - {k}) - {fd} == (m - {fd}) - {k};
    }
  }

  lemma TotalAfterUpdate(m: Sockets, fd: nat, e: Entry)
    requires fd in m
    ensures TotalBuffered(m[fd := e]) + Buffered(m[fd]) == TotalBuffered(m) + Buffered(e)
  {
    CountFirst(m, fd);
    CountFirst(m[fd := e], fd);
    assert m[fd := e] - {fd} == m - {fd};
  }

  /** Every turn taken from the queue either shortens a buffer or shortens the queue. */
  lemma TurnDecreases(sv: Services, s: State, k: Kernel)
    requires Lawful(sv.scan) && s.trigger != []
    ensures var t := ParseAgain(sv, s, k);
      || TotalBuffered(t.sockets) < TotalBuffered(s.sockets)
      || (t.sockets == s.sockets && |t.trigger| < |s.trigger|)
  {
    var fd := s.trigger[0];
    if IsConnection(s.sockets, fd) {
      var (d, turn) := ParseOnce(sv, fd, s.sockets[fd], k);
      TotalAfterUpdate(s.sockets, fd, d);
      if turn == Idle || turn == Malformed {
        assert s.sockets[fd := d] == s.sockets;
      }
    }
  }

  /** The turns an app takes until its trigger queue is empty. */
  ghost function DrainTurns(sv: Services, s: State): (es: seq<Event>)
    requires Lawful(sv.scan)
    ensures Possible(sv, s, es)
    decreases TotalBuffered(s.sockets), |s.trigger|
  {
    if s.trigger == [] then []
    else
      TurnDecreases(sv, s, TakesAll);
      var rest := DrainTurns(sv, ParseAgain(sv, s, TakesAll));
      assert ([Trigger(TakesAll)] + rest)[1..] == rest;
      [Trigger(TakesAll)] + rest
  }

  lemma {:induction false} RunAppend(sv: Services, s: State, es: seq<Event>, ds: seq<Event>, uuid: Uuid)
    requires Possible(sv, s, es) && Possible(sv, Run(sv, s, es), ds)
    ensures Possible(sv, s, es + ds) && Run(sv, s, es + ds) == Run(sv, Run(sv, s, es), ds)
    ensures Served(sv, s, es, uuid) && Served(sv, Run(sv, s, es), ds, uuid) ==> Served(sv, s, es + ds, uuid)
    decreases |es|
  {
    if es == [] {
      assert es + ds == ds;
    } else {
      assert (es + ds)[1..] == es[1..] + ds;
      RunAppend(sv, Step(sv, s, es[0]), es[1..], ds, uuid);
    }
  }

  /** The first turn of a drain, and the drain of what it leaves. */
  lemma DrainFirst(sv: Services, s: State, uuid: Uuid)
    requires Lawful(sv.scan) && s.trigger != []
    ensures var t := ParseAgain(sv, s, TakesAll);
      && Run(sv, s, DrainTurns(sv, s)) == Run(sv, t, DrainTurns(sv, t))
      && (Served(sv, t, DrainTurns(sv, t), uuid) ==> Served(sv, s, DrainTurns(sv, s), uuid))
  {
    TurnDecreases(sv, s, TakesAll);
    var ds := DrainTurns(sv, ParseAgain(sv, s, TakesAll));
    var es := DrainTurns(sv, s);
    assert es == [Trigger(TakesAll)] + ds && es[1..] == ds;
    assert Step(sv, s, es[0]) == ParseAgain(sv, s, TakesAll);
  }

  lemma TurnKeepsConnection(sv: Services, s: State, k: Kernel, fd: nat)
    requires s.trigger != [] && Signaling(s, fd)
    ensures var t := ParseAgain(sv, s, k);
      Signaling(t, fd) && t.sockets[fd].received == s.sockets[fd].received && t.sockets[fd].uuid == s.sockets[fd].uuid
  {
  }

  /** Draining empties the queue, keeps every connection with what it has received, and serves everyone. */
  lemma {:induction false} DrainEmpties(sv: Services, s: State, fd: nat, uuid: Uuid)
    requires Lawful(sv.scan) && Signaling(s, fd)
    ensures var t := Run(sv, s, DrainTurns(sv, s));
      && t.trigger == [] && Signaling(t, fd)
      && t.sockets[fd].received == s.sockets[fd].received && t.sockets[fd].uuid == s.sockets[fd].uuid
    ensures Served(sv, s, DrainTurns(sv, s), uuid)
    decreases TotalBuffered(s.sockets), |s.trigger|
  {
    if s.trigger != [] {
      TurnDecreases(sv, s, TakesAll);
      TurnKeepsConnection(sv, s, TakesAll, fd);
      DrainEmpties(sv, ParseAgain(sv, s, TakesAll), fd, uuid);
      DrainFirst(sv, s, uuid);
    }
  }

  /** Whatever has happened, once the queue has been worked off the answers on the wire of a
      connection are those to all complete messages it has sent. */
  lemma EverythingIsAnswered(sv: Services, es: seq<Event>, fd: nat)
    requires Observed(sv, es, fd)
    requires StaysInside(sv.scan) && Steady(sv.scan, After(sv, es, fd).received)
    requires Welcome(sv, Messages(sv.scan, After(sv, es, fd).received))
    ensures var all := es + DrainTurns(sv, Run(sv, INIT, es));
      && Observed(sv, all, fd) && Run(sv, INIT, all).trigger == []
      && After(sv, all, fd).received == After(sv, es, fd).received
      && After(sv, all, fd).sent == Answers(sv, Messages(sv.scan, After(sv, es, fd).received))
  {
    var s := Run(sv, INIT, es);
    var ds := DrainTurns(sv, s);
    DrainEmpties(sv, s, fd, s.sockets[fd].uuid);
    RunAppend(sv, INIT, es, ds, s.sockets[fd].uuid);
    AnsweredInOrder(sv, es + ds, fd);
  }

  /** Whether the io callback refuses a message. */
  predicate Refuses(sv: Services, fd: nat, v: Value, k: Kernel) {
    match Dispatch(sv, v)
    case FailureCloseSocket => true
    case NoAnswer => false
    case Answer(a) => fd == 0 || Fails(sv.encode(a), k)
  }

  /** A read keeps the connection iff what is buffered with it is not malformed and its first
      message, if it is complete, is not refused. What was received before and has been handled
      plays no part. */
  lemma ReadKeepsConnectionExactly(sv: Services, s: State, fd: nat, chunk: seq<byte>, ok: bool, k: Kernel)
    requires Signaling(s, fd)
    ensures var t := Receive(sv, s, fd, chunk, ok, k); var b := s.sockets[fd].buffer + chunk;
      && (Signaling(t, fd) <==> sv.scan(b) != Reject && (sv.scan(b).Complete? ==> !Refuses(sv, fd, sv.scan(b).value, k)))
      && (Signaling(t, fd) ==> t.sockets[fd].received == s.sockets[fd].received + chunk)
      && (!Signaling(t, fd) ==> fd !in t.sockets)
  {
    var c := Append(s.sockets[fd], chunk);
    var (d, turn) := ParseOnce(sv, fd, c, k);
    assert fd in Victims(Update(s, fd, d).sockets, fd);
  }
}
