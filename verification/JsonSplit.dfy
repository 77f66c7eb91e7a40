/** Reads that end inside a message of the JSON parser. */
module JsonSplit {
  import opened AppModel
  import opened Draining
  import opened Framing
  import opened Json
  import opened Options
  import opened Stranding
  import Chunking

  /** The exact condition under which splitting does not matter, for decode_buffered. */
  lemma JsonChunkingExactly(lib: Library, stream: seq<byte>)
    ensures Lawful(Scan(lib))
    ensures (forall chunks :: Chunking.Reads(chunks) && Flatten(chunks) == stream ==>
               Chunking.ReadAll(Scan(lib), Chunking.START, chunks).delivered == Messages(Scan(lib), stream))
       <==> Chunking.Splittable(Scan(lib), stream, 0)
  {
    ScanIsLawful(lib);
    Chunking.ChunkingExactly(Scan(lib), stream);
  }

  // ------------------------------------------------------------ an escaped quote

  /** Bytes that stand for themselves in a string. */
  predicate Plain(b: seq<byte>) {
    forall i :: 0 <= i < |b| ==> b[i] >= 0x1f && b[i] != QUOTE && b[i] != BACKSLASH
  }

  function Quoted(b: seq<byte>): seq<byte> {
    [QUOTE] + b + [QUOTE]
  }

  /** The object with the one member key whose value is v, a quote, and w: up to the escaped quote ... */
  function Head(key: seq<byte>, v: seq<byte>): seq<byte> {
    [OPEN_BRACE] + Quoted(key) + [COLON, QUOTE] + v + [BACKSLASH, QUOTE]
  }

  /** ... and from there on. */
  function Tail(w: seq<byte>): seq<byte> {
    w + [QUOTE, CLOSE_BRACE]
  }

  lemma {:induction false} QuoteAt(s: seq<byte>, i: nat, r: nat)
    requires 1 <= i <= r < |s| && (r == |s| - 1 || (s[r] == QUOTE && s[r - 1] != BACKSLASH))
    requires forall j :: i <= j < r ==> s[j] != QUOTE || s[j - 1] == BACKSLASH
    ensures QuoteFrom(s, i) == r
    decreases r - i
  {
    if i < r { QuoteAt(s, i + 1, r); }
  }

  /** Validation walks over plain bytes. */
  lemma {:induction false} ValidPlain(s: seq<byte>, i: nat, j: nat)
    requires i <= j < |s| && forall k :: i <= k < j ==> s[k] >= 0x1f && s[k] != QUOTE && s[k] != BACKSLASH
    ensures ValidFrom(s, i) == ValidFrom(s, j)
    decreases j - i
  {
    if i < j { ValidPlain(s, i + 1, j); }
  }

  lemma KeyMatches(lex: Lexer, key: seq<byte>, x: seq<byte>)
    requires Plain(key) && x != [] && !IsSpace(x[0])
    ensures Key(lex, Quoted(key) + x) == if lex.utf8(Quoted(key)) then Some(|key| + 2) else None
  {
    var s, n := Quoted(key) + x, |key| + 2;
    assert forall j :: 0 <= j < |key| ==> s[j + 1] == key[j];
    QuoteAt(s, 1, n - 1);
    assert s[..n] == Quoted(key);
    assert forall j :: 0 <= j < |key| ==> Quoted(key)[j + 1] == key[j];
    ValidPlain(Quoted(key), 1, n - 1);
    assert s[n..] == x;
  }

  /** Cut behind the escaped quote, that quote passes for the end of the string, and the string for wrong. */
  lemma CutString(lex: Lexer, v: seq<byte>)
    requires Plain(v)
    ensures MatchString(lex, [QUOTE] + v + [BACKSLASH, QUOTE]) == Bad
  {
    var s := [QUOTE] + v + [BACKSLASH, QUOTE];
    assert forall j :: 0 <= j < |v| ==> s[j + 1] == v[j];
    QuoteAt(s, 1, |s| - 1);
    assert s[..|s|] == s;
    ValidPlain(s, 1, |s| - 2);
  }

  /** The string with the escaped quote, and all its parts where they are. */
  function Escaped(v: seq<byte>, w: seq<byte>): (s: seq<byte>)
    ensures |s| == |v| + |w| + 4 && s[0] == QUOTE && s[|s| - 1] == QUOTE
    ensures s[|v| + 1] == BACKSLASH && s[|v| + 2] == QUOTE
    ensures forall j :: 1 <= j <= |v| ==> s[j] == v[j - 1]
    ensures forall j :: |v| + 3 <= j < |s| - 1 ==> s[j] == w[j - |v| - 3]
  {
    [QUOTE] + v + [BACKSLASH, QUOTE] + w + [QUOTE]
  }

  lemma EscapedIsValid(lex: Lexer, v: seq<byte>, w: seq<byte>)
    requires Plain(v) && Plain(w) && lex.utf8(Escaped(v, w))
    ensures ValidString(lex, Escaped(v, w))
  {
    var s := Escaped(v, w);
    ValidPlain(s, 1, |v| + 1);
    ValidPlain(s, |v| + 3, |s| - 1);
    assert ValidFrom(s, |v| + 1) == ValidFrom(s, |v| + 3);
  }

  lemma WholeString(lex: Lexer, v: seq<byte>, w: seq<byte>, x: seq<byte>)
    requires Plain(v) && Plain(w) && lex.utf8(Escaped(v, w))
    ensures MatchString(lex, Escaped(v, w) + x) == Closed(|v| + |w| + 4)
  {
    var e := Escaped(v, w);
    var s, n := e + x, |e|;
    assert s[..n] == e;
    assert forall j :: 0 <= j < n ==> s[j] == e[j];
    EscapedIsValid(lex, v, w);
    assert forall j :: 1 <= j < n - 1 && j != |v| + 2 ==> s[j] != QUOTE;
    assert s[n - 2] != BACKSLASH;
    QuoteAt(s, 1, n - 1);
  }

  lemma ObjectOf(lex: Lexer, u: seq<byte>)
    requires u != [] && !IsSpace(u[0]) && u[0] != CLOSE_BRACE
    ensures MatchValue(lex, [OPEN_BRACE] + u) == Shift(1, Members(lex, u))
  {
    var b := [OPEN_BRACE] + u;
    assert b[1..] == u && b[0..] == b && Space(b) == 0 && Space(u) == 0;
    assert MatchToken(lex, b) == MatchObject(lex, b);
  }

  lemma MembersOf(lex: Lexer, key: seq<byte>, s: seq<byte>)
    requires Plain(key) && s != []
    ensures Members(lex, Quoted(key) + ([COLON] + s))
         == if lex.utf8(Quoted(key)) then Shift(|key| + 3, AfterColon(lex, s)) else Bad
  {
    var u := Quoted(key) + ([COLON] + s);
    var p := |key| + 2;
    assert u[0..] == u && u[0] == QUOTE && Space(u) == 0;
    KeyMatches(lex, key, [COLON] + s);
    assert u[p] == COLON && u[p + 1..] == s;
    assert Members(lex, u) == Member(lex, u);
  }

  /** The match of an object with one member, from the match of its value. */
  lemma OneMember(lex: Lexer, key: seq<byte>, s: seq<byte>)
    requires Plain(key) && s != []
    ensures MatchValue(lex, [OPEN_BRACE] + Quoted(key) + [COLON] + s)
         == if lex.utf8(Quoted(key)) then Shift(|key| + 4, AfterColon(lex, s)) else Bad
  {
    var u := Quoted(key) + ([COLON] + s);
    assert [OPEN_BRACE] + Quoted(key) + [COLON] + s == [OPEN_BRACE] + u;
    assert u[0] == QUOTE;
    ObjectOf(lex, u);
    MembersOf(lex, key, s);
  }

  /** Whatever the key and the plain bytes before it: a buffer that ends behind an escaped quote in
      the value of the first member is malformed. */
  lemma HeadIsRejected(lib: Library, key: seq<byte>, v: seq<byte>)
    requires Plain(key) && Plain(v)
    ensures DecodeBuffered(lib, Head(key, v)) == Reject
  {
    var s := [QUOTE] + v + [BACKSLASH, QUOTE];
    var b := Head(key, v);
    assert b == [OPEN_BRACE] + Quoted(key) + [COLON] + s;
    OneMember(lib.lex, key, s);
    CutString(lib.lex, v);
    assert s[0..] == s;
    assert MatchValue(lib.lex, s) == Bad;
  }

  /** The value of the last member, with the brace that closes the object. */
  lemma LastValue(lex: Lexer, v: seq<byte>, w: seq<byte>)
    requires Plain(v) && Plain(w) && lex.utf8(Escaped(v, w))
    ensures AfterColon(lex, Escaped(v, w) + [CLOSE_BRACE]) == Closed(|v| + |w| + 5)
  {
    var s, n := Escaped(v, w) + [CLOSE_BRACE], |v| + |w| + 4;
    WholeString(lex, v, w, [CLOSE_BRACE]);
    assert s[0..] == s && Space(s) == 0;
    assert MatchValue(lex, s) == Closed(n);
    assert s[n..] == [CLOSE_BRACE];
    assert Item(lex, s) == Some(n);
  }

  predicate NoBrace(b: seq<byte>) {
    forall i :: 0 <= i < |b| ==> b[i] != OPEN_BRACE && b[i] != CLOSE_BRACE
  }

  lemma {:induction false} NoBraces(s: seq<byte>, depth: nat)
    requires NoBrace(s)
    ensures Balanced(s + [CLOSE_BRACE], depth) <==> depth == 0
    decreases |s|
  {
    if s == [] {
      assert s + [CLOSE_BRACE] == [CLOSE_BRACE];
    } else {
      assert (s + [CLOSE_BRACE])[1..] == s[1..] + [CLOSE_BRACE];
      NoBraces(s[1..], depth);
    }
  }

  /** A matched object that decodes is a message. */
  lemma ObjectIsComplete(lib: Library, b: seq<byte>)
    requires |b| > 1 && b[0] == OPEN_BRACE && MatchValue(lib.lex, b) == Closed(|b|)
    requires LooksComplete(b, 0, |b|) && lib.decode(b).Some?
    ensures DecodeBuffered(lib, b) == Complete(|b|, lib.decode(b).value)
  {
    var n := |b|;
    assert AllMatch(lib.lex, b) by {
      assert b[n..] == [] && Space([]) == 0;
      assert b[n + 0..] == [];
    }
    assert b[..n] == b && Space(b) == 0;
  }

  lemma WholeLooksComplete(key: seq<byte>, v: seq<byte>, w: seq<byte>)
    requires NoBrace(key) && NoBrace(v) && NoBrace(w)
    ensures var b := Head(key, v) + Tail(w); LooksComplete(b, 0, |b|)
  {
    var b := Head(key, v) + Tail(w);
    var inner := Quoted(key) + [COLON] + Escaped(v, w);
    assert NoBrace(Quoted(key)) && NoBrace(Escaped(v, w));
    assert NoBrace(inner);
    NoBraces(inner, 0);
    assert b[1..|b|] == inner + [CLOSE_BRACE];
  }

  lemma WholeMatches(lex: Lexer, key: seq<byte>, v: seq<byte>, w: seq<byte>)
    requires Plain(key) && Plain(v) && Plain(w) && lex.utf8(Quoted(key)) && lex.utf8(Escaped(v, w))
    ensures var b := Head(key, v) + Tail(w); MatchValue(lex, b) == Closed(|b|)
  {
    var s := Escaped(v, w) + [CLOSE_BRACE];
    assert Head(key, v) + Tail(w) == [OPEN_BRACE] + Quoted(key) + [COLON] + s;
    OneMember(lex, key, s);
    LastValue(lex, v, w);
  }

  /** The whole object is one message, if it is UTF-8 and decodes. */
  lemma WholeIsComplete(lib: Library, key: seq<byte>, v: seq<byte>, w: seq<byte>)
    requires Plain(key) && Plain(v) && Plain(w) && NoBrace(key) && NoBrace(v) && NoBrace(w)
    requires lib.lex.utf8(Quoted(key)) && lib.lex.utf8(Escaped(v, w)) && lib.decode(Head(key, v) + Tail(w)).Some?
    ensures var b := Head(key, v) + Tail(w);
      DecodeBuffered(lib, b) == Complete(|b|, lib.decode(b).value)
  {
    var b := Head(key, v) + Tail(w);
    WholeMatches(lib.lex, key, v, w);
    WholeLooksComplete(key, v, w);
    ObjectIsComplete(lib, b);
  }

  /** A well-formed message is lost to a read that ends behind an escaped quote in it: nothing is
      delivered and the connection is closed, although one read of the same bytes delivers it. */
  lemma EscapedQuoteLosesMessage(lib: Library, key: seq<byte>, v: seq<byte>, w: seq<byte>)
    requires Plain(key) && Plain(v) && Plain(w) && NoBrace(key) && NoBrace(v) && NoBrace(w)
    requires lib.lex.utf8(Quoted(key)) && lib.lex.utf8(Escaped(v, w)) && lib.decode(Head(key, v) + Tail(w)).Some?
    ensures var scan := Scan(lib); var b := Head(key, v) + Tail(w); var m := Message(b, lib.decode(b).value);
      && Lawful(scan) && Flatten([Head(key, v), Tail(w)]) == b && Messages(scan, b) == [m]
      && Chunking.ReadAll(scan, Chunking.START, [Head(key, v), Tail(w)]) == Chunking.Reader(false, [], [])
      && Chunking.ReadAll(scan, Chunking.START, [b]) == Chunking.Reader(true, [], [m])
      && !Chunking.Splittable(scan, b, 0)
  {
    var scan, b := Scan(lib), Head(key, v) + Tail(w);
    ScanIsLawful(lib);
    HeadIsRejected(lib, key, v);
    WholeIsComplete(lib, key, v, w);
    Chunking.SplittingLosesFirst(scan, Head(key, v), Tail(w));
    OneMessage(scan, b);
    NotSplittable(scan, Head(key, v), Tail(w));
  }

  /** A read of exactly one message. */
  lemma OneMessage(scan: Scanner, b: seq<byte>)
    requires Lawful(scan) && scan(b).Complete? && scan(b).length == |b|
    ensures Messages(scan, b) == [Message(b, scan(b).value)]
    ensures Chunking.ReadAll(scan, Chunking.START, [b]) == Chunking.Reader(true, [], [Message(b, scan(b).value)])
  {
    assert b[|b|..] == [] && b[..|b|] == b;
    assert Messages(scan, []) == [] && Chunking.Rest(scan, []) == [];
    assert Chunking.START.buffer + b == b && [b][1..] == [];
  }

  lemma NotSplittable(scan: Scanner, b: seq<byte>, x: seq<byte>)
    requires Lawful(scan) && scan(b) == Reject && scan(b + x).Complete?
    ensures !Chunking.Splittable(scan, b + x, 0)
  {
    var stream := b + x;
    assert stream[..|b|] == b && stream[..0] == [];
    assert b != [] && !Chunking.CutAt(scan, stream, |b|);
  }

  const EVENT: seq<byte> := [0x65, 0x76, 0x65, 0x6e, 0x74]

  /** {"event":"x\" and y"} */
  const FIRST: seq<byte> := [0x7b, 0x22, 0x65, 0x76, 0x65, 0x6e, 0x74, 0x22, 0x3a, 0x22, 0x78, 0x5c, 0x22]
  const SECOND: seq<byte> := [0x79, 0x22, 0x7d]

  lemma FirstAndSecond()
    ensures Head(EVENT, [0x78]) == FIRST && Tail([0x79]) == SECOND
  {
    assert Head(EVENT, [0x78]) == [OPEN_BRACE] + ([QUOTE] + EVENT + [QUOTE]) + [COLON, QUOTE] + [0x78] + [BACKSLASH, QUOTE];
  }

  lemma ExampleIsPlain()
    ensures Plain(EVENT) && Plain([0x78]) && Plain([0x79]) && NoBrace(EVENT) && NoBrace([0x78]) && NoBrace([0x79])
  {
  }

  /** One read of these bytes delivers a message, two reads lose it. */
  lemma SplitMatters()
    ensures var scan := Scan(SIMPLE); var first, second := Head(EVENT, [0x78]), Tail([0x79]);
      && first == FIRST && second == SECOND
      && Chunking.ReadAll(scan, Chunking.START, [first, second]) == Chunking.Reader(false, [], [])
      && Chunking.ReadAll(scan, Chunking.START, [first + second])
           == Chunking.Reader(true, [], [Message(first + second, Value(Missing, first + second))])
  {
    ExampleIsPlain();
    EscapedQuoteLosesMessage(SIMPLE, EVENT, [0x78], [0x79]);
    FirstAndSecond();
  }

  // ------------------------------------------------ a message that comes and goes

  /** A message whose match is still open is delivered when it comes alone. With a blank behind it
      no message is found, so the delivery depends on how the stream is split. */
  lemma OpenMessageComesAndGoes(lib: Library, w: seq<byte>)
    requires StopsAtDelimiter(lib.lex.strtod) && DecodeBuffered(lib, w).Complete? && DecodeBuffered(lib, w).length == |w|
    requires !Ends(lib.lex, w)
    ensures var scan := Scan(lib); var stream := w + BLANK; var m := Message(w, scan(w).value);
      && Lawful(scan) && Flatten([w, BLANK]) == stream && Messages(scan, stream) == []
      && Chunking.ReadAll(scan, Chunking.START, [stream]) == Chunking.Reader(true, stream, [])
      && [m] <= Chunking.ReadAll(scan, Chunking.START, [w, BLANK]).delivered
      && !Steady(scan, stream) && !Chunking.Splittable(scan, stream, 0)
  {
    var scan, stream := Scan(lib), w + BLANK;
    ScanIsLawful(lib);
    OpenWordBlank(lib, w);
    ComesAndGoes(scan, w, BLANK);
  }

  lemma ComesAndGoes(scan: Scanner, w: seq<byte>, x: seq<byte>)
    requires Lawful(scan) && scan(w).Complete? && scan(w).length == |w| && scan(w + x) == Progress
    ensures Flatten([w, x]) == w + x && Messages(scan, w + x) == []
    ensures Chunking.ReadAll(scan, Chunking.START, [w + x]) == Chunking.Reader(true, w + x, [])
    ensures [Message(w, scan(w).value)] <= Chunking.ReadAll(scan, Chunking.START, [w, x]).delivered
    ensures !Steady(scan, w + x) && !Chunking.Splittable(scan, w + x, 0)
  {
    var stream := w + x;
    var chunks := [stream];
    Chunking.FlattenTwo(w, x);
    assert stream[..|w|] == w && w[..|w|] == w;
    assert Chunking.START.buffer + stream == stream && chunks[1..] == [];
    Chunking.FoundAtOnce(scan, w, [x]);
    assert [w] + [x] == [w, x];
  }

  lemma ValueThen(lex: Lexer, value: seq<byte>, rest: seq<byte>)
    requires value != [] && rest != [] && MatchValue(lex, value + ([COMMA] + rest)) == Closed(|value|)
    ensures AfterColon(lex, value + ([COMMA] + rest)) == Shift(|value| + 1, Members(lex, rest))
  {
    var s, n := value + ([COMMA] + rest), |value|;
    assert s[n..] == [COMMA] + rest && Space(s[n..]) == 0 && s[n + 1..] == rest;
    assert Item(lex, s) == Some(n);
    assert AfterColon(lex, s) == BehindMember(lex, s, n);
  }

  lemma PlainString(lex: Lexer, v: seq<byte>, x: seq<byte>)
    requires Plain(v) && lex.utf8(Quoted(v)) && x != [] && !IsSpace(x[0])
    ensures MatchValue(lex, Quoted(v) + x) == Closed(|v| + 2)
  {
    var s := Quoted(v) + x;
    KeyMatches(lex, v, x);
    assert s[0..] == s && Space(s) == 0;
  }

  lemma NumberTwo(lex: Lexer, x: seq<byte>)
    requires x != [] && lex.strtod([0x32] + x) == Some(1)
    ensures MatchValue(lex, [0x32] + x) == Closed(1)
  {
    var s := [0x32] + x;
    assert s[0..] == s && Space(s) == 0;
  }

  /** "}\\"} : the quote behind the second backslash is not taken for the end of the string. */
  const LAST: seq<byte> := [0x22, 0x7d, 0x5c, 0x5c, 0x22, 0x7d]

  lemma LastIsOpen(lex: Lexer)
    ensures AfterColon(lex, LAST) == Open(6)
  {
    QuoteAt(LAST, 1, 5);
    assert LAST[0..] == LAST && LAST[6..] == [] && Space(LAST) == 0 && Space([]) == 0;
    assert MatchValue(lex, LAST) == Open(6);
    assert Item(lex, LAST) == Some(6);
  }

  const KEY_Y: seq<byte> := [0x79]
  const KEY_A: seq<byte> := [0x61]
  const TWO: seq<byte> := [0x32]

  function ThirdMember(): seq<byte> {
    Quoted(KEY_A) + ([COLON] + LAST)
  }

  function SecondMember(): seq<byte> {
    Quoted(KEY_Y) + ([COLON] + (TWO + ([COMMA] + ThirdMember())))
  }

  /** {"event":"x","y":2,"a":"}\\"} */
  function Tricky(): seq<byte> {
    [OPEN_BRACE] + (Quoted(EVENT) + ([COLON] + (Quoted([0x78]) + ([COMMA] + SecondMember()))))
  }

  lemma TrickyText()
    ensures Tricky() == [0x7b, 0x22, 0x65, 0x76, 0x65, 0x6e, 0x74, 0x22, 0x3a, 0x22, 0x78, 0x22, 0x2c,
                         0x22, 0x79, 0x22, 0x3a, 0x32, 0x2c, 0x22, 0x61, 0x22, 0x3a, 0x22, 0x7d, 0x5c, 0x5c, 0x22, 0x7d]
  {
  }

  lemma ThirdIsOpen(lex: Lexer)
    requires lex.utf8(Quoted(KEY_A))
    ensures Members(lex, ThirdMember()) == Open(|ThirdMember()|)
  {
    LastIsOpen(lex);
    MembersOf(lex, KEY_A, LAST);
  }

  lemma SecondIsOpen(lex: Lexer)
    requires lex.utf8(Quoted(KEY_Y)) && lex.utf8(Quoted(KEY_A)) && lex.strtod(TWO + ([COMMA] + ThirdMember())) == Some(1)
    ensures Members(lex, SecondMember()) == Open(|SecondMember()|)
  {
    ThirdIsOpen(lex);
    NumberTwo(lex, [COMMA] + ThirdMember());
    ValueThen(lex, TWO, ThirdMember());
    MembersOf(lex, KEY_Y, TWO + ([COMMA] + ThirdMember()));
  }

  lemma FirstIsOpen(lex: Lexer)
    requires lex.utf8(Quoted([0x78])) && Members(lex, SecondMember()) == Open(|SecondMember()|)
    ensures var s := Quoted([0x78]) + ([COMMA] + SecondMember()); AfterColon(lex, s) == Open(|s|)
  {
    PlainString(lex, [0x78], [COMMA] + SecondMember());
    ValueThen(lex, Quoted([0x78]), SecondMember());
  }

  lemma TrickyIsOpen(lex: Lexer)
    requires lex.utf8(Quoted(EVENT)) && lex.utf8(Quoted([0x78])) && lex.utf8(Quoted(KEY_Y)) && lex.utf8(Quoted(KEY_A))
    requires lex.strtod(TWO + ([COMMA] + ThirdMember())) == Some(1)
    ensures MatchValue(lex, Tricky()) == Open(|Tricky()|)
  {
    var s := Quoted([0x78]) + ([COMMA] + SecondMember());
    ExampleIsPlain();
    SecondIsOpen(lex);
    FirstIsOpen(lex);
    MembersOf(lex, EVENT, s);
    ObjectOf(lex, Quoted(EVENT) + ([COLON] + s));
  }

  lemma {:induction false} FirstBrace(s: seq<byte>, i: nat)
    requires i + 1 < |s| && s[i] == CLOSE_BRACE && NoBrace(s[..i])
    ensures Balanced(s, 0)
    decreases i
  {
    if i > 0 {
      assert s[..i][0] == s[0];
      assert s[1..][..i - 1] == s[..i][1..];
      FirstBrace(s[1..], i - 1);
    }
  }

  function Front(): seq<byte> {
    Quoted(EVENT) + [COLON] + Quoted([0x78]) + [COMMA] + Quoted(KEY_Y) + [COLON] + TWO + [COMMA]
    + Quoted(KEY_A) + [COLON, QUOTE]
  }

  lemma FrontText()
    ensures Front() == [0x22, 0x65, 0x76, 0x65, 0x6e, 0x74, 0x22, 0x3a, 0x22, 0x78, 0x22, 0x2c,
                        0x22, 0x79, 0x22, 0x3a, 0x32, 0x2c, 0x22, 0x61, 0x22, 0x3a, 0x22]
  {
  }

  lemma TrickyFront()
    ensures Tricky()[1..] == Front() + LAST[1..]
  {
    TrickyText();
    FrontText();
  }

  lemma FrontHasNoBrace()
    ensures NoBrace(Front())
  {
    ExampleIsPlain();
    assert NoBrace(Quoted(EVENT)) && NoBrace(Quoted([0x78])) && NoBrace(Quoted(KEY_Y)) && NoBrace(Quoted(KEY_A));
  }

  /** The brace inside the string passes for the one that closes the object. */
  lemma BraceInside(b: seq<byte>, front: seq<byte>, back: seq<byte>)
    requires |b| > 1 && b[1..] == front + back && NoBrace(front) && |back| > 1 && back[0] == CLOSE_BRACE
    requires b[|b| - 1] == CLOSE_BRACE
    ensures LooksComplete(b, 0, |b|)
  {
    assert b[1..|b|] == front + back;
    assert (front + back)[..|front|] == front;
    FirstBrace(front + back, |front|);
  }

  lemma TrickyLooksComplete()
    ensures LooksComplete(Tricky(), 0, |Tricky()|)
  {
    FrontHasNoBrace();
    TrickyFront();
    BraceInside(Tricky(), Front(), LAST[1..]);
  }

  /** In every library that decodes it, this message comes and goes. */
  lemma TrickyComesAndGoes(lib: Library)
    requires StopsAtDelimiter(lib.lex.strtod) && lib.decode(Tricky()).Some?
    requires lib.lex.utf8(Quoted(EVENT)) && lib.lex.utf8(Quoted([0x78])) && lib.lex.utf8(Quoted(KEY_Y)) && lib.lex.utf8(Quoted(KEY_A))
    requires lib.lex.strtod(TWO + ([COMMA] + ThirdMember())) == Some(1)
    ensures var scan := Scan(lib); var t := Tricky();
      && scan(t) == Complete(|t|, lib.decode(t).value) && scan(t + BLANK) == Progress
      && Lawful(scan) && Messages(scan, t + BLANK) == []
      && [Message(t, lib.decode(t).value)] <= Chunking.ReadAll(scan, Chunking.START, [t, BLANK]).delivered
      && !Chunking.Splittable(scan, t + BLANK, 0)
  {
    var t := Tricky();
    TrickyIsOpen(lib.lex);
    TrickyLooksComplete();
    OpenIsComplete(lib, t);
    OpenWordBlank(lib, t);
    OpenMessageComesAndGoes(lib, t);
  }

  lemma OpenIsComplete(lib: Library, b: seq<byte>)
    requires |b| > 1 && b[0] == OPEN_BRACE && MatchValue(lib.lex, b) == Open(|b|)
    requires LooksComplete(b, 0, |b|) && lib.decode(b).Some?
    ensures DecodeBuffered(lib, b) == Complete(|b|, lib.decode(b).value)
  {
    OpenAllMatches(lib.lex, b);
    assert b[..|b|] == b && Space(b) == 0;
  }

  // ---------------------------------------------------------- what follows a message

  const FIVE: seq<byte> := [0x35]

  lemma FiveIsRejected(lib: Library)
    ensures DecodeBuffered(lib, FIVE) == Reject && (lib.lex.strtod(FIVE) == Some(1) ==> AllMatch(lib.lex, FIVE))
  {
    assert FIVE[0..] == FIVE && Space(FIVE) == 0;
    assert FIVE[1..] == [] && Space([]) == 0;
    assert FIVE[1 + 0..] == [];
  }

  /** The values of a text with an ended match in front are that one and those of what follows. */
  lemma AllMatchBehind(lex: Lexer, w: seq<byte>, x: seq<byte>)
    requires StopsAtDelimiter(lex.strtod) && w != [] && MatchValue(lex, w) == Closed(|w|)
    requires Space(w) < |w| && w[Space(w)] == OPEN_BRACE && (x == [] || !IsSpace(x[0]))
    ensures AllMatch(lex, w + x) == AllMatch(lex, x)
  {
    var b, n := w + x, |w|;
    assert w[..n] == w == b[..n];
    FirstObjectSame(lex, w, b, n);
    assert b[n..] == x && Space(x) == 0;
    assert b[n + 0..] == x;
  }

  /** A message stays first with another text of values behind it. */
  lemma WordThen(lib: Library, w: seq<byte>, x: seq<byte>)
    requires StopsAtDelimiter(lib.lex.strtod) && DecodeBuffered(lib, w).Complete? && DecodeBuffered(lib, w).length == |w|
    requires Ends(lib.lex, w) && (x == [] || !IsSpace(x[0])) && AllMatch(lib.lex, x)
    ensures DecodeBuffered(lib, w + x) == DecodeBuffered(lib, w) && AllMatch(lib.lex, w + x)
  {
    AllMatchBehind(lib.lex, w, x);
    WordFirst(lib, w, x);
  }

  /** The digit 5 behind a message leaves it the first message, but is malformed once the message
      has been cut off: in one read with the message it does no harm, in a read of its own it
      closes the connection. */
  lemma NumberBehindMessage(lib: Library, w: seq<byte>)
    requires StopsAtDelimiter(lib.lex.strtod) && lib.lex.strtod(FIVE) == Some(1)
    requires DecodeBuffered(lib, w).Complete? && DecodeBuffered(lib, w).length == |w| && Ends(lib.lex, w)
    ensures var scan := Scan(lib); var m := Message(w, scan(w).value);
      && Lawful(scan)
      && Chunking.ReadAll(scan, Chunking.START, [w + FIVE]) == Chunking.Reader(true, FIVE, [m])
      && Chunking.ReadAll(scan, Chunking.START, [w, FIVE]) == Chunking.Reader(false, [], [m])
  {
    ScanIsLawful(lib);
    FiveIsRejected(lib);
    WordThen(lib, w, FIVE);
    TogetherOrApart(Scan(lib), w, FIVE);
  }

  /** Malformed bytes behind a message that has been scanned with them, and in a read of their own. */
  lemma TogetherOrApart(scan: Scanner, w: seq<byte>, x: seq<byte>)
    requires Lawful(scan) && scan(w).Complete? && scan(w).length == |w| && scan(w + x) == scan(w) && scan(x) == Reject
    ensures Chunking.ReadAll(scan, Chunking.START, [w + x]) == Chunking.Reader(true, x, [Message(w, scan(w).value)])
    ensures Chunking.ReadAll(scan, Chunking.START, [w, x]) == Chunking.Reader(false, [], [Message(w, scan(w).value)])
  {
    OneRead(scan, w + x, w, x, []);
    assert w + [] == w;
    OneRead(scan, w, w, [], [x]);
    assert [w + x] + [] == [w + x] && [w] + [x] == [w, x];
    ThenClosed(scan, [Message(w, scan(w).value)], x);
  }

  lemma ThenClosed(scan: Scanner, d: seq<Message>, x: seq<byte>)
    requires StaysInside(scan) && scan(x) == Reject
    ensures Chunking.ReadAll(scan, Chunking.Reader(true, [], d), [x]) == Chunking.Reader(false, [], d)
  {
    assert [] + x == x && [x][1..] == [];
  }

  /** A first read that starts with a message and has no other. */
  lemma OneRead(scan: Scanner, b: seq<byte>, w: seq<byte>, rest: seq<byte>, chunks: seq<seq<byte>>)
    requires StaysInside(scan) && b == w + rest && scan(b).Complete? && scan(b).length == |w| && !scan(rest).Complete?
    ensures Chunking.ReadAll(scan, Chunking.START, [b] + chunks)
         == Chunking.ReadAll(scan, Chunking.Reader(true, rest, [Message(w, scan(b).value)]), chunks)
  {
    var m := Message(w, scan(b).value);
    assert Chunking.START.buffer + b == b && b[|w|..] == rest && b[..|w|] == w;
    assert Messages(scan, rest) == [] && Messages(scan, b) == [m] + Messages(scan, rest) == [m];
    assert Chunking.Rest(scan, b) == Chunking.Rest(scan, rest) == rest;
    assert Chunking.Read(scan, Chunking.START, b) == Chunking.Reader(true, rest, [m]);
    assert ([b] + chunks)[1..] == chunks;
  }

  // ----------------------------------------------------------- three messages in one read

  /** A message with an ended match, and no blank in front. */
  ghost predicate JsonWord(lib: Library, w: seq<byte>) {
    && DecodeBuffered(lib, w).Complete? && DecodeBuffered(lib, w).length == |w| && Ends(lib.lex, w)
    && w != [] && w[0] == OPEN_BRACE
  }

  /** Messages one behind the other are found one behind the other. */
  lemma ThreeWords(lib: Library, u: seq<byte>, v: seq<byte>, w: seq<byte>)
    requires StopsAtDelimiter(lib.lex.strtod) && JsonWord(lib, u) && JsonWord(lib, v) && JsonWord(lib, w)
    ensures DecodeBuffered(lib, u + (v + w)) == DecodeBuffered(lib, u) && DecodeBuffered(lib, v + w) == DecodeBuffered(lib, v)
  {
    WordThen(lib, w, []);
    assert w + [] == w;
    WordThen(lib, v, w);
    WordThen(lib, u, v + w);
  }

  /** So any three JSON messages in one read, the second of which is refused, leave the third stranded. */
  lemma JsonRefusalStrands(sv: Services, lib: Library, fd: nat, uuid: Uuid, u: seq<byte>, v: seq<byte>, w: seq<byte>)
    requires sv.scan == Scan(lib) && StopsAtDelimiter(lib.lex.strtod) && fd != 0
    requires JsonWord(lib, u) && JsonWord(lib, v) && JsonWord(lib, w) && |u| + |v| + |w| <= READ_BUFFER_SIZE
    requires !Refuses(sv, fd, DecodeBuffered(lib, u).value, TakesAll) && Refuses(sv, fd, DecodeBuffered(lib, v).value, TakesAll)
    ensures var es := [Add(fd, true, Buffering, uuid), Bytes(fd, u + (v + w), true, TakesAll), Trigger(TakesAll)];
      && Possible(sv, INIT, es) && Stranded(sv, Run(sv, INIT, es), fd)
  {
    ThreeWords(lib, u, v, w);
    ScanIsLawful(lib);
    assert (u + (v + w))[|u|..] == v + w && (v + w)[|v|..] == w;
    RefusalStrandsNextMessage(sv, fd, uuid, u + (v + w));
  }
}
