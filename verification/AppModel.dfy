/** The state of a TCP app (ov_app.c) as a value, and what every event does to it.

    The class App carries the same state in its fields; its methods are proved
    to do exactly what the functions here say, and the invariants over whole
    runs are proved about these functions. */
module AppModel {
  import opened Options
  import opened Framing

  type Uuid = string

  /** Whether the sockets opened from a configuration have a buffering parser or none. */
  datatype Mode = Raw | Buffering

  /** A value of the sockets dictionary.

      received, frames and sent are the history of a connection: the bytes read
      from it, the messages cut off its parser buffer and the bytes written to it. */
  datatype Entry =
    | Listener(mode: Mode)
    | Connection(uuid: Uuid, master: nat, mode: Mode, buffer: seq<byte>,
                 received: seq<byte>, frames: seq<Message>, sent: seq<byte>)

  type Sockets = map<nat, Entry>

  /** One run of a close callback; listeners have no uuid. */
  datatype Closing = Closing(socket: nat, uuid: Option<Uuid>)

  /** sockets and uuids are the dictionaries, trigger the sockets written to the
      trigger pair and not read yet. registered, closed and callbacks count what has
      been registered, which sockets have been closed and which close callbacks ran. */
  datatype State = State(sockets: Sockets, uuids: map<Uuid, nat>, trigger: seq<nat>,
                         registered: multiset<nat>, closed: multiset<nat>, callbacks: multiset<Closing>)

  const INIT := State(map[], map[], [], multiset{}, multiset{}, multiset{})

  function NewConnection(uuid: Uuid, master: nat, mode: Mode): Entry {
    Connection(uuid, master, mode, [], [], [], [])
  }

  // ---------------------------------------------------------------- registry

  predicate IsConnection(m: Sockets, fd: nat) {
    fd in m && m[fd].Connection?
  }

  predicate IsListener(m: Sockets, fd: nat) {
    fd in m && m[fd].Listener?
  }

  function UuidOf(e: Entry): Option<Uuid> {
    if e.Connection? then Some(e.uuid) else None
  }

  function Register(s: State, fd: nat, e: Entry): State {
    s.(sockets := s.sockets[fd := e],
       uuids := if e.Connection? then s.uuids[e.uuid := fd] else s.uuids,
       registered := s.registered + multiset{fd})
  }

  /** The connections a closing listener takes along. Its search skips the key 0. */
  function Accepted(m: Sockets, listener: nat): set<nat> {
    set fd | fd in m && fd != 0 && m[fd].Connection? && m[fd].master == listener
  }

  function UuidsAt(m: Sockets, fds: set<nat>): set<Uuid> {
    set fd | fd in fds && fd in m && m[fd].Connection? :: m[fd].uuid
  }

  function ClosingsAt(m: Sockets, fds: set<nat>): set<Closing> {
    set fd | fd in fds && fd in m :: Closing(fd, UuidOf(m[fd]))
  }

  /** Remove the entries at fds from both dictionaries, close them and run their close callbacks. */
  function Release(s: State, fds: set<nat>): State {
    s.(sockets := s.sockets - fds,
       uuids := s.uuids - UuidsAt(s.sockets, fds),
       closed := s.closed + multiset(fds),
       callbacks := s.callbacks + multiset(ClosingsAt(s.sockets, fds)))
  }

  function Victims(m: Sockets, fd: nat): set<nat> {
    if fd !in m then {}
    else if m[fd].Listener? then {fd} + Accepted(m, fd)
    else {fd}
  }

  function CloseSocket(s: State, fd: nat): State {
    Release(s, Victims(s.sockets, fd))
  }

  /** A uuid the dictionary does not have reads as socket 0. */
  function SocketOf(s: State, uuid: Uuid): nat {
    if uuid in s.uuids then s.uuids[uuid] else 0
  }

  function CloseUuid(s: State, uuid: Uuid): State {
    CloseSocket(s, SocketOf(s, uuid))
  }

  /** The sockets close_all gathers: every connection except one under the key 0. */
  function ClientKeys(m: Sockets): set<nat> {
    set fd | fd in m && fd != 0 && m[fd].Connection?
  }

  function CloseAll(s: State): State {
    Release(s, ClientKeys(s.sockets))
  }

  function AddSocket(s: State, fd: nat, e: Entry): State {
    if fd in s.sockets then s else Register(s, fd, e)
  }

  function AcceptedEntry(s: State, listener: nat, uuid: Uuid): Entry
    requires IsListener(s.sockets, listener)
  {
    NewConnection(uuid, listener, s.sockets[listener].mode)
  }

  /** keep is the answer of the accepted callback. */
  function Accept(s: State, listener: nat, fd: nat, uuid: Uuid, keep: bool): State {
    if listener < 1 || !IsListener(s.sockets, listener) then s
    else
      var t := Register(s, fd, AcceptedEntry(s, listener, uuid));
      if keep then t else CloseSocket(t, fd)
  }

  // --------------------------------------------------------------- signaling

  /** What a registered command makes of a message. */
  datatype Reply = FailureCloseSocket | NoAnswer | Answer(value: Value)

  /** The parser, the encoder and the registered commands of an app. */
  datatype Services = Services(scan: Scanner, encode: Value -> seq<byte>, commands: map<string, Value -> Reply>)

  /** The answer ov_signaling_app_io_signaling sends for a message, or its wish to close. */
  function Dispatch(sv: Services, v: Value): Reply {
    match v.event
    case Missing => FailureCloseSocket
    case Named(name) => if name in sv.commands then sv.commands[name](v) else NoAnswer
  }

  /** How a turn of the parser ended. */
  datatype Turn = Idle | Malformed | Handled | Refused

  /** How the kernel treats the next answer: it takes all of it, or fails after some bytes. */
  datatype Kernel = TakesAll | FailsAfter(count: nat)

  predicate Fails(bytes: seq<byte>, k: Kernel) {
    k.FailsAfter? && k.count < |bytes|
  }

  function Written(bytes: seq<byte>, k: Kernel): seq<byte> {
    if Fails(bytes, k) then bytes[..k.count] else bytes
  }

  /** Decode once and, if a message is complete, hand it to the io callback. */
  function ParseOnce(sv: Services, fd: nat, c: Entry, k: Kernel): (Entry, Turn)
    requires c.Connection?
  {
    match sv.scan(c.buffer)
    case Progress => (c, Idle)
    case Reject => (c, Malformed)
    case Complete(n, v) =>
      var word := FirstWord(sv.scan, c.buffer);
      var d := c.(buffer := c.buffer[|word|..], frames := c.frames + [Message(word, v)]);
      match Dispatch(sv, v)
      case FailureCloseSocket => (d, Refused)
      case NoAnswer => (d, Handled)
      case Answer(a) =>
        if fd == 0 then (d, Refused)
        else
          var bytes := sv.encode(a);
          (d.(sent := d.sent + Written(bytes, k)), if Fails(bytes, k) then Refused else Handled)
  }

  function Update(s: State, fd: nat, e: Entry): State {
    s.(sockets := s.sockets[fd := e])
  }

  /** After a handled message, ask for another turn if bytes are left. */
  function TriggerParseAgain(s: State, fd: nat, e: Entry): State
    requires e.Connection?
  {
    if e.buffer == [] then s else s.(trigger := s.trigger + [fd])
  }

  function Append(c: Entry, chunk: seq<byte>): Entry
    requires c.Connection?
  {
    if c.mode == Raw then c.(received := c.received + chunk)
    else c.(received := c.received + chunk, buffer := c.buffer + chunk)
  }

  /** Bytes arrive at a connection. ok is the answer of a raw io callback. */
  function Receive(sv: Services, s: State, fd: nat, chunk: seq<byte>, ok: bool, k: Kernel): State
    requires IsConnection(s.sockets, fd)
  {
    var c := Append(s.sockets[fd], chunk);
    if c.mode == Raw then
      var t := Update(s, fd, c);
      if ok then t else CloseSocket(t, fd)
    else
      var (d, turn) := ParseOnce(sv, fd, c, k);
      var t := Update(s, fd, d);
      match turn
      case Idle => t
      case Handled => TriggerParseAgain(t, fd, d)
      case _ => CloseSocket(t, fd)
  }

  /** A socket is read from the trigger pair and its connection is parsed once more. */
  function ParseAgain(sv: Services, s: State, k: Kernel): State
    requires s.trigger != []
  {
    var fd := s.trigger[0];
    var t := s.(trigger := s.trigger[1..]);
    if !IsConnection(t.sockets, fd) then t
    else
      var (d, turn) := ParseOnce(sv, fd, t.sockets[fd], k);
      var u := Update(t, fd, d);
      if turn == Handled then TriggerParseAgain(u, fd, d) else u
  }

  // -------------------------------------------------------------------- runs

  datatype Event =
    | Add(fd: nat, asClient: bool, mode: Mode, uuid: Uuid)
    | Incoming(listener: nat, fd: nat, uuid: Uuid, keep: bool)
    | Close(fd: nat)
    | CloseByUuid(uuid: Uuid)
    | CloseEverything
    | Bytes(fd: nat, chunk: seq<byte>, ok: bool, k: Kernel)
    | Trigger(k: Kernel)

  const READ_BUFFER_SIZE: nat := 2048

  /** A socket number and a uuid the kernel and the uuid generator may hand out now.
      A socket number still waiting in the trigger queue is only handed to connections
      with a buffering parser: cb_parse_again uses what it finds as one of those. */
  predicate Fresh(s: State, fd: nat, uuid: Uuid, mode: Mode, asClient: bool) {
    && uuid !in s.uuids
    && (fd in s.trigger ==> asClient && mode == Buffering)
  }

  /** What the environment may do in a state. */
  predicate Enabled(s: State, e: Event) {
    match e
    case Add(fd, asClient, mode, uuid) => Fresh(s, fd, uuid, mode, asClient)
    case Incoming(l, fd, uuid, _) =>
      fd !in s.sockets && Fresh(s, fd, uuid, if IsListener(s.sockets, l) then s.sockets[l].mode else Raw, true)
    case Bytes(fd, chunk, _, _) => IsConnection(s.sockets, fd) && 1 <= |chunk| <= READ_BUFFER_SIZE
    case Trigger(_) => s.trigger != []
    case _ => true
  }

  function NewEntry(asClient: bool, mode: Mode, uuid: Uuid): Entry {
    if asClient then NewConnection(uuid, 0, mode) else Listener(mode)
  }

  function Step(sv: Services, s: State, e: Event): State
    requires Enabled(s, e)
  {
    match e
    case Add(fd, asClient, mode, uuid) => AddSocket(s, fd, NewEntry(asClient, mode, uuid))
    case Incoming(l, fd, uuid, keep) => Accept(s, l, fd, uuid, keep)
    case Close(fd) => CloseSocket(s, fd)
    case CloseByUuid(uuid) => CloseUuid(s, uuid)
    case CloseEverything => CloseAll(s)
    case Bytes(fd, chunk, ok, k) => Receive(sv, s, fd, chunk, ok, k)
    case Trigger(k) => ParseAgain(sv, s, k)
  }

  /** Every event of a run is enabled when it happens. */
  predicate Possible(sv: Services, s: State, es: seq<Event>)
    decreases |es|
  {
    es == [] || (Enabled(s, es[0]) && Possible(sv, Step(sv, s, es[0]), es[1..]))
  }

  function Run(sv: Services, s: State, es: seq<Event>): State
    requires Possible(sv, s, es)
    decreases |es|
  {
    if es == [] then s else Run(sv, Step(sv, s, es[0]), es[1..])
  }
}
