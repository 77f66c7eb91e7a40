/** What a signaling connection gets for a message, from the registered commands alone
    (ov_signaling_app.c), and what every read and every turn does to its connection. */
module Answering {
  import opened AppModel
  import opened Framing
  import opened Stream
  import Draining

  /** The connection stays, with its first n buffered bytes handled as a message and these bytes
      written to it; its socket is queued once more iff bytes are left. */
  ghost predicate HandledFirst(s: State, t: State, fd: nat, b: seq<byte>, n: nat, v: Value, wire: seq<byte>, queue: seq<nat>)
    requires IsConnection(s.sockets, fd) && n <= |b|
  {
    && t.sockets.Keys == s.sockets.Keys && IsConnection(t.sockets, fd)
    && t.sockets[fd].buffer == b[n..] && t.sockets[fd].frames == s.sockets[fd].frames + [Message(b[..n], v)]
    && t.sockets[fd].sent == s.sockets[fd].sent + wire
    && t.trigger == if b[n..] == [] then queue else queue + [fd]
  }

  /** The connection is gone, and nothing has been queued. */
  ghost predicate Closed(s: State, t: State, fd: nat) {
    fd !in t.sockets && t.sockets.Keys == s.sockets.Keys - {fd} && t.trigger == s.trigger
  }

  /** A read at a signaling connection, with the first message of what is buffered:
      - without an event it closes the connection;
      - with an event no command is registered for it is taken and nothing is written;
      - otherwise the command decides: the connection is closed, nothing is written, or exactly the
        encoded answer is, unless the kernel fails on the way, which closes the connection. */
  lemma ReadAnswersExactly(sv: Services, s: State, fd: nat, chunk: seq<byte>, ok: bool, k: Kernel)
    requires Lawful(sv.scan) && Signaling(s, fd)
    ensures var t := Receive(sv, s, fd, chunk, ok, k); var b := s.sockets[fd].buffer + chunk;
      match sv.scan(b)
      case Progress =>
        && t.sockets.Keys == s.sockets.Keys && t.trigger == s.trigger && IsConnection(t.sockets, fd)
        && t.sockets[fd] == s.sockets[fd].(buffer := b, received := s.sockets[fd].received + chunk)
      case Reject => Closed(s, t, fd)
      case Complete(n, v) =>
        match v.event
        case Missing => Closed(s, t, fd)
        case Named(name) =>
          if name !in sv.commands then HandledFirst(s, t, fd, b, n, v, [], s.trigger)
          else match sv.commands[name](v)
               case FailureCloseSocket => Closed(s, t, fd)
               case NoAnswer => HandledFirst(s, t, fd, b, n, v, [], s.trigger)
               case Answer(a) =>
                 if k.FailsAfter? && k.count < |sv.encode(a)| then Closed(s, t, fd)
                 else HandledFirst(s, t, fd, b, n, v, sv.encode(a), s.trigger)
  {
    var c := Append(s.sockets[fd], chunk);
    assert c.sent + [] == c.sent;
    var (d, turn) := ParseOnce(sv, fd, c, k);
    assert Update(s, fd, d).sockets.Keys == s.sockets.Keys;
  }

  /** The connection stays with the message taken off its buffer, and is not queued for it. */
  ghost predicate Refused(s: State, t: State, fd: nat, n: nat, v: Value, wire: seq<byte>)
    requires IsConnection(s.sockets, fd) && n <= |s.sockets[fd].buffer| && s.trigger != []
  {
    var b := s.sockets[fd].buffer;
    && t.sockets.Keys == s.sockets.Keys && IsConnection(t.sockets, fd)
    && t.sockets[fd].buffer == b[n..] && t.sockets[fd].frames == s.sockets[fd].frames + [Message(b[..n], v)]
    && t.sockets[fd].sent == s.sockets[fd].sent + wire && t.trigger == s.trigger[1..]
  }

  /** A turn from the trigger queue: the same answers, but the connection is closed for nothing. */
  lemma TurnAnswersExactly(sv: Services, s: State, fd: nat, k: Kernel)
    requires Lawful(sv.scan) && Signaling(s, fd) && s.trigger != [] && s.trigger[0] == fd
    ensures var t := ParseAgain(sv, s, k); var b := s.sockets[fd].buffer; var queue := s.trigger[1..];
      match sv.scan(b)
      case Progress => t == s.(trigger := queue)
      case Reject => t == s.(trigger := queue)
      case Complete(n, v) =>
        match v.event
        case Missing => Refused(s, t, fd, n, v, [])
        case Named(name) =>
          if name !in sv.commands then HandledFirst(s, t, fd, b, n, v, [], queue)
          else match sv.commands[name](v)
               case FailureCloseSocket => Refused(s, t, fd, n, v, [])
               case NoAnswer => HandledFirst(s, t, fd, b, n, v, [], queue)
               case Answer(a) =>
                 if k.FailsAfter? && k.count < |sv.encode(a)| then Refused(s, t, fd, n, v, sv.encode(a)[..k.count])
                 else HandledFirst(s, t, fd, b, n, v, sv.encode(a), queue)
  {
    var c := s.sockets[fd];
    assert c.sent + [] == c.sent;
    var (d, turn) := ParseOnce(sv, fd, c, k);
    assert s.sockets[fd := c] == s.sockets;
    assert s.sockets[fd := d].Keys == s.sockets.Keys;
  }

  /** A token of a socket that is gone or of a listener does nothing. */
  lemma StaleTurn(sv: Services, s: State, k: Kernel)
    requires s.trigger != [] && !IsConnection(s.sockets, s.trigger[0])
    ensures ParseAgain(sv, s, k) == s.(trigger := s.trigger[1..])
  {
  }

  /** The message has an event, and its command, if there is one, does not ask to close. */
  predicate Allowed(sv: Services, v: Value) {
    v.event.Named? && (v.event.name in sv.commands ==> sv.commands[v.event.name](v) != FailureCloseSocket)
  }

  /** The answers to a list of messages, read off the commands. */
  lemma {:induction false} AnswersExactly(sv: Services, ms: seq<Message>)
    ensures Welcome(sv, ms) <==> forall i :: 0 <= i < |ms| ==> Allowed(sv, ms[i].value)
    ensures ms != [] ==> Answers(sv, ms) == (match ms[0].value.event
      case Missing => []
      case Named(name) =>
        if name !in sv.commands then [] else match sv.commands[name](ms[0].value)
                                             case Answer(a) => sv.encode(a)
                                             case _ => []) + Answers(sv, ms[1..])
    ensures Answers(sv, []) == []
  {
    if Welcome(sv, ms) {
      assert forall i :: 0 <= i < |ms| ==> ms[i] in ms;
    }
  }

  /** What the io callback refuses, read off the commands. */
  lemma RefusesExactly(sv: Services, fd: nat, v: Value, k: Kernel)
    ensures Draining.Refuses(sv, fd, v, k) <==>
      match v.event
      case Missing => true
      case Named(name) =>
        name in sv.commands &&
        match sv.commands[name](v)
        case FailureCloseSocket => true
        case NoAnswer => false
        case Answer(a) => fd == 0 || (k.FailsAfter? && k.count < |sv.encode(a)|)
  {
  }

  // ------------------------------------------------------------------ raw connections

  /** A read at a connection without a parser: the callback gets the bytes, and its answer decides
      whether the connection stays. */
  lemma RawReadExactly(sv: Services, s: State, fd: nat, chunk: seq<byte>, ok: bool, k: Kernel)
    requires IsConnection(s.sockets, fd) && s.sockets[fd].mode == Raw
    ensures var t := Receive(sv, s, fd, chunk, ok, k); var c := s.sockets[fd];
      if ok then t == s.(sockets := s.sockets[fd := c.(received := c.received + chunk)])
      else Closed(s, t, fd)
  {
    var u := Update(s, fd, Append(s.sockets[fd], chunk));
    assert u.sockets.Keys == s.sockets.Keys;
  }
}
