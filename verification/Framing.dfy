/** The buffering parser of a connection, seen from ov_app.c.

    decode_buffered (ov_parser_json.c) looks at everything the parser has
    buffered. It reports no complete message yet, a complete first message
    together with the number of bytes it spans, or a malformed buffer. A
    Scanner is any function that stays inside its buffer. Nothing else is asked
    of it: what it finds may depend on what follows, and a malformed buffer need
    not stay malformed. Module Json models the scanner of the repository. */
module Framing {

  type byte = b: int | 0 <= b < 256

  /** A JSON value: the text under its "event" key, if it has one, and the rest. */
  datatype Value = Value(event: EventName, content: seq<byte>)
  datatype EventName = Missing | Named(name: string)

  datatype Frame = Progress | Complete(length: nat, value: Value) | Reject

  type Scanner = seq<byte> -> Frame

  /** A message as it has been cut off a buffer. */
  datatype Message = Message(bytes: seq<byte>, value: Value)

  /** A complete message is a non-empty prefix of the buffer. */
  ghost predicate StaysInside(scan: Scanner) {
    forall b {:trigger scan(b)} :: scan(b).Complete? ==> 1 <= scan(b).length <= |b|
  }

  ghost predicate Lawful(scan: Scanner) {
    scan([]) == Progress && StaysInside(scan)
  }

  /** The bytes of the first message of a buffer, if the scanner finds one. */
  function FirstWord(scan: Scanner, b: seq<byte>): seq<byte> {
    match scan(b)
    case Complete(n, _) => if n <= |b| then b[..n] else b
    case _ => []
  }

  /** The messages of a byte stream, read off in one pass over the whole stream. */
  ghost function Messages(scan: Scanner, stream: seq<byte>): seq<Message>
    requires StaysInside(scan)
    decreases |stream|
  {
    match scan(stream)
    case Complete(n, v) => [Message(stream[..n], v)] + Messages(scan, stream[n..])
    case _ => []
  }

  ghost function Flatten(parts: seq<seq<byte>>): seq<byte> {
    if parts == [] then [] else parts[0] + Flatten(parts[1..])
  }

  ghost function BytesOf(ms: seq<Message>): seq<byte> {
    if ms == [] then [] else ms[0].bytes + BytesOf(ms[1..])
  }

  lemma {:induction false} FlattenAppend(parts: seq<seq<byte>>, last: seq<byte>)
    ensures Flatten(parts + [last]) == Flatten(parts) + last
  {
    if parts == [] {
      assert parts + [last] == [last];
      assert Flatten([last]) == last + Flatten([]);
    } else {
      assert (parts + [last])[1..] == parts[1..] + [last];
      FlattenAppend(parts[1..], last);
    }
  }

  lemma {:induction false} BytesAppend(ms: seq<Message>, m: Message)
    ensures BytesOf(ms + [m]) == BytesOf(ms) + m.bytes
  {
    if ms == [] {
      assert ms + [m] == [m];
      assert BytesOf([m]) == m.bytes + BytesOf([m][1..]);
    } else {
      assert (ms + [m])[1..] == ms[1..] + [m];
      BytesAppend(ms[1..], m);
    }
  }

  // ------------------------------------------------------- messages cut off a buffer

  /** The scanner has found this message in front of some beginning of the stream. */
  ghost predicate FoundIn(scan: Scanner, m: Message, stream: seq<byte>) {
    exists k :: 0 <= k <= |stream| && scan(stream[..k]) == Complete(|m.bytes|, m.value)
  }

  /** Every message has been found in front of what had come by then of it and all behind it. */
  ghost predicate CutFrom(scan: Scanner, ms: seq<Message>, rest: seq<byte>) {
    ms == [] || (FoundIn(scan, ms[0], BytesOf(ms) + rest) && CutFrom(scan, ms[1..], rest))
  }

  lemma FoundInLonger(scan: Scanner, m: Message, stream: seq<byte>, more: seq<byte>)
    requires FoundIn(scan, m, stream)
    ensures FoundIn(scan, m, stream + more)
  {
    var k :| 0 <= k <= |stream| && scan(stream[..k]) == Complete(|m.bytes|, m.value);
    assert (stream + more)[..k] == stream[..k];
  }

  lemma {:induction false} CutFromLonger(scan: Scanner, ms: seq<Message>, rest: seq<byte>, more: seq<byte>)
    requires CutFrom(scan, ms, rest)
    ensures CutFrom(scan, ms, rest + more)
  {
    if ms != [] {
      FoundInLonger(scan, ms[0], BytesOf(ms) + rest, more);
      assert (BytesOf(ms) + rest) + more == BytesOf(ms) + (rest + more);
      CutFromLonger(scan, ms[1..], rest, more);
    }
  }

  /** Cutting one more message off the rest. */
  lemma {:induction false} CutFromNext(scan: Scanner, ms: seq<Message>, m: Message, rest: seq<byte>)
    requires CutFrom(scan, ms, m.bytes + rest) && scan(m.bytes + rest) == Complete(|m.bytes|, m.value)
    ensures CutFrom(scan, ms + [m], rest)
    ensures BytesOf(ms + [m]) + rest == BytesOf(ms) + (m.bytes + rest)
  {
    BytesAppend(ms, m);
    assert (BytesOf(ms) + m.bytes) + rest == BytesOf(ms) + (m.bytes + rest);
    if ms == [] {
      assert ms + [m] == [m] && [m][1..] == [];
      assert BytesOf([m]) + rest == m.bytes + rest;
      assert (m.bytes + rest)[..|m.bytes + rest|] == m.bytes + rest;
      assert FoundIn(scan, m, m.bytes + rest);
    } else {
      assert (ms + [m])[1..] == ms[1..] + [m] && (ms + [m])[0] == ms[0];
      CutFromNext(scan, ms[1..], m, rest);
    }
  }

  // ------------------------------------------------------------------ steady streams

  ghost predicate NoMessageInFront(scan: Scanner, stream: seq<byte>) {
    forall k :: 0 <= k <= |stream| ==> !scan(stream[..k]).Complete?
  }

  /** Whatever part of the stream has come when a message is found in front, it is the one that is
      found when all has come; and so on behind it. */
  ghost predicate Steady(scan: Scanner, stream: seq<byte>)
    requires StaysInside(scan)
    decreases |stream|
  {
    match scan(stream)
    case Complete(n, _) =>
      && (forall k :: 0 <= k <= |stream| && scan(stream[..k]).Complete? ==> scan(stream[..k]) == scan(stream))
      && Steady(scan, stream[n..])
    case _ => NoMessageInFront(scan, stream)
  }

  /** A message found in a part of a steady stream is the first one of the stream. */
  lemma CutFirst(scan: Scanner, b: seq<byte>, more: seq<byte>)
    requires StaysInside(scan) && Steady(scan, b + more) && scan(b).Complete?
    ensures var n := scan(b).length;
      && scan(b + more) == scan(b) && Steady(scan, b[n..] + more)
      && Messages(scan, b + more) == [Message(b[..n], scan(b).value)] + Messages(scan, b[n..] + more)
  {
    var stream, n := b + more, scan(b).length;
    assert stream[..|b|] == b;
    assert stream[n..] == b[n..] + more && stream[..n] == b[..n];
  }

  lemma FirstBytes(ms: seq<Message>, rest: seq<byte>)
    requires ms != []
    ensures var stream, w := BytesOf(ms) + rest, ms[0].bytes;
      stream[|w|..] == BytesOf(ms[1..]) + rest && stream[..|w|] == w && |w| <= |stream|
  {
    var w, more := ms[0].bytes, BytesOf(ms[1..]);
    assert (w + more) + rest == w + (more + rest);
    InFront(w, more + rest);
  }

  lemma InFront(w: seq<byte>, rest: seq<byte>)
    ensures (w + rest)[|w|..] == rest && (w + rest)[..|w|] == w
  {
  }

  /** A message found in front of some part of a steady stream is its first. */
  lemma FoundFirst(scan: Scanner, m: Message, stream: seq<byte>)
    requires StaysInside(scan) && Steady(scan, stream) && FoundIn(scan, m, stream)
    ensures scan(stream) == Complete(|m.bytes|, m.value) && Steady(scan, stream[|m.bytes|..])
  {
    var k :| 0 <= k <= |stream| && scan(stream[..k]) == Complete(|m.bytes|, m.value);
  }

  /** Messages cut off one at a time are the messages a steady stream has in one pass. */
  lemma {:induction false} CutAgreesWithOnePass(scan: Scanner, ms: seq<Message>, rest: seq<byte>)
    requires StaysInside(scan) && CutFrom(scan, ms, rest) && Steady(scan, BytesOf(ms) + rest)
    ensures Messages(scan, BytesOf(ms) + rest) == ms + Messages(scan, rest)
    ensures Steady(scan, rest)
  {
    if ms == [] {
      assert BytesOf(ms) + rest == rest;
      assert ms + Messages(scan, rest) == Messages(scan, rest);
    } else {
      var stream, w := BytesOf(ms) + rest, ms[0].bytes;
      FirstBytes(ms, rest);
      FoundFirst(scan, ms[0], stream);
      CutAgreesWithOnePass(scan, ms[1..], rest);
      assert [ms[0]] + (ms[1..] + Messages(scan, rest)) == ms + Messages(scan, rest);
    }
  }

  /** One pass over all bytes finds each of the messages where it was cut off. */
  ghost predicate FoundAgain(scan: Scanner, ms: seq<Message>, rest: seq<byte>) {
    ms == [] ||
    (scan(BytesOf(ms) + rest) == Complete(|ms[0].bytes|, ms[0].value) && FoundAgain(scan, ms[1..], rest))
  }

  /** With nothing complete left over, the messages cut off are those of one pass iff one pass finds
      each of them where it was cut off. */
  lemma {:induction false} CutAgreesExactly(scan: Scanner, ms: seq<Message>, rest: seq<byte>)
    requires StaysInside(scan) && !scan(rest).Complete?
    ensures Messages(scan, BytesOf(ms) + rest) == ms <==> FoundAgain(scan, ms, rest)
  {
    if ms == [] {
      assert BytesOf(ms) + rest == rest;
    } else {
      var stream, w := BytesOf(ms) + rest, ms[0].bytes;
      FirstBytes(ms, rest);
      CutAgreesExactly(scan, ms[1..], rest);
      if scan(stream).Complete? {
        FirstAndRest(Message(stream[..scan(stream).length], scan(stream).value), Messages(scan, stream[scan(stream).length..]), ms);
      }
    }
  }

  lemma FirstAndRest(m: Message, rest: seq<Message>, ms: seq<Message>)
    requires ms != []
    ensures [m] + rest == ms <==> m == ms[0] && rest == ms[1..]
  {
    assert ([m] + rest)[0] == m && ([m] + rest)[1..] == rest;
    assert ms == [ms[0]] + ms[1..];
  }
}
