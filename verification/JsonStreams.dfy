/** What decode_buffered (ov_parser_json.c) makes of printed objects: whole, cut short, one behind
    the other, and with something else behind them. */
module JsonStreams {
  import opened Framing
  import opened Json
  import opened JsonGrammar
  import opened Options
  import Chunking
  import JsonSplit

  predicate IsObject(t: Term) {
    t.EmptyObject? || t.Object?
  }

  // --------------------------------------------------------- matching is the grammar

  /** The first n bytes of s are blanks and the text of t. */
  predicate Starts(lex: Lexer, s: seq<byte>, n: nat, blank: seq<byte>, t: Term) {
    n <= |s| && Blank(blank) && Accepts(lex, t, s[n..]) && s == blank + Print(t, s[n..])
  }

  lemma StartsMatch(lex: Lexer, s: seq<byte>, n: nat, blank: seq<byte>, t: Term)
    requires Starts(lex, s, n, blank, t)
    ensures s != [] && MatchValue(lex, s) == Closed(n) && Space(s) == |blank| < n && s[|blank|] == Print(t, s[n..])[0]
  {
    var u := Print(t, s[n..]);
    FirstByte(lex, t, s[n..]);
    TermMatches(lex, t, s[n..]);
    SpaceIs(blank, u);
    InFront(blank, u);
    ValueIs(lex, s, |blank|, u);
  }

  lemma MatchedStarts(lex: Lexer, s: seq<byte>, n: nat) returns (blank: seq<byte>, t: Term)
    requires s != [] && MatchValue(lex, s) == Closed(n) && Space(s) < n
    ensures Starts(lex, s, n, blank, t)
  {
    var b := Space(s);
    Later(s, b, n - b);
    ValueIs(lex, s, b, s[b..]);
    t := TermOf(lex, s[b..], n - b, s[n..]);
    blank := s[..b];
    SpaceIsBlank(s);
    Halves(s, b);
  }

  /** A value is matched up to n iff the text up to n is whitespace and a printed term. Whatever
      follows plays a part only where strtod looks at it. */
  lemma MatchExactly(lex: Lexer, s: seq<byte>, n: nat)
    requires s != []
    ensures MatchValue(lex, s) == Closed(n) && Space(s) < n <==> exists blank, t :: Starts(lex, s, n, blank, t)
  {
    if MatchValue(lex, s) == Closed(n) && Space(s) < n {
      var blank, t := MatchedStarts(lex, s, n);
    }
    forall blank, t | Starts(lex, s, n, blank, t)
      ensures MatchValue(lex, s) == Closed(n) && Space(s) < n
    {
      StartsMatch(lex, s, n, blank, t);
    }
  }

  /** A printed object is matched whatever follows. */
  lemma ObjectMatches(lex: Lexer, t: Term, x: seq<byte>)
    requires StopsAtDelimiter(lex.strtod) && IsObject(t) && Accepts(lex, t, [])
    ensures Print(t, x) == Text(t) + x && Text(t) != [] && Text(t)[0] == 0x7b
    ensures MatchValue(lex, Text(t)) == Closed(|Text(t)|) && MatchValue(lex, Text(t) + x) == Closed(|Text(t)|)
  {
    var w := Text(t);
    assert w[|w|..] == [] && [] + w == w;
    PrintIs(t, x);
    StartsMatch(lex, w, |w|, [], t);
    assert (w + x)[..|w|] == w[..|w|];
    FirstObjectSame(lex, w, w + x, |w|);
  }

  // ------------------------------------------------------------------- braces

  /** No brace but those of its objects. */
  predicate Braceless(t: Term)
    decreases t
  {
    match t
    case Object(pairs) => BracelessPairs(pairs)
    case Array(_, terms) => BracelessTerms(terms)
    case String(body) => JsonSplit.NoBrace(body)
    case Number(digits) => JsonSplit.NoBrace(digits)
    case _ => true
  }

  predicate BracelessPairs(ps: Pairs)
    decreases ps
  {
    JsonSplit.NoBrace(ps.key) && Braceless(ps.value.term) && (ps.MorePairs? ==> BracelessPairs(ps.rest))
  }

  predicate BracelessTerms(ts: Terms)
    decreases ts
  {
    Braceless(ts.value.term) && (ts.MoreTerms? ==> BracelessTerms(ts.rest))
  }

  /** The position of the brace that closes, when so many are open; the length if there is none. */
  function Close(s: seq<byte>, depth: nat): (k: nat)
    ensures k <= |s|
  {
    if s == [] || (s[0] == 0x7d && depth == 0) then 0
    else 1 + Close(s[1..], if s[0] == 0x7b then depth + 1 else if s[0] == 0x7d then depth - 1 else depth)
  }

  lemma {:induction false} BalancedIs(s: seq<byte>, depth: nat)
    ensures Balanced(s, depth) <==> Close(s, depth) < |s|
    decreases |s|
  {
    if |s| > 1 && !(s[0] == 0x7d && depth == 0) {
      BalancedIs(s[1..], if s[0] == 0x7b then depth + 1 else if s[0] == 0x7d then depth - 1 else depth);
    } else if |s| == 1 {
      assert s[1..] == [];
    }
  }

  lemma {:induction false} CloseCut(s: seq<byte>, depth: nat, m: nat)
    requires m <= |s|
    ensures Close(s[..m], depth) == if Close(s, depth) < m then Close(s, depth) else m
    decreases m
  {
    if m > 0 && !(s[0] == 0x7d && depth == 0) {
      assert s[..m][1..] == s[1..][..m - 1];
      CloseCut(s[1..], if s[0] == 0x7b then depth + 1 else if s[0] == 0x7d then depth - 1 else depth, m - 1);
    }
  }

  lemma {:induction false} CloseOver(b: seq<byte>, y: seq<byte>, depth: nat)
    requires JsonSplit.NoBrace(b)
    ensures Close(b + y, depth) == |b| + Close(y, depth)
  {
    if b == [] {
      assert b + y == y;
    } else {
      assert (b + y)[1..] == b[1..] + y;
      CloseOver(b[1..], y, depth);
    }
  }

  lemma CloseByte(c: byte, y: seq<byte>, depth: nat)
    requires c != 0x7d || depth > 0
    ensures Close([c] + y, depth) == 1 + Close(y, if c == 0x7b then depth + 1 else if c == 0x7d then depth - 1 else depth)
  {
    assert ([c] + y)[1..] == y;
  }

  /** Blanks and quoted text hold no brace. */
  lemma CloseString(body: seq<byte>, y: seq<byte>, depth: nat)
    requires JsonSplit.NoBrace(body)
    ensures Close(PrintString(body, y), depth) == |body| + 2 + Close(y, depth)
  {
    CloseByte(0x22, body + ([0x22] + y), depth);
    CloseOver(body, [0x22] + y, depth);
    CloseByte(0x22, y, depth);
  }

  lemma CloseBlank(b: seq<byte>, y: seq<byte>, depth: nat)
    requires Blank(b)
    ensures Close(b + y, depth) == |b| + Close(y, depth)
  {
    CloseOver(b, y, depth);
  }

  /** Going over a printed term leaves as many braces open as before. */
  lemma {:induction false} CloseTerm(lex: Lexer, t: Term, z: seq<byte>, x: seq<byte>, depth: nat)
    requires Accepts(lex, t, z) && Braceless(t)
    ensures Close(Print(t, x), depth) == |Print(t, x)| - |x| + Close(x, depth)
    decreases t
  {
    match t
    case EmptyObject(blank) =>
      CloseByte(0x7b, blank + ([0x7d] + x), depth);
      CloseBlank(blank, [0x7d] + x, depth + 1);
      CloseByte(0x7d, x, depth + 1);
    case Object(pairs) =>
      CloseByte(0x7b, PrintPairs(pairs, x), depth);
      ClosePairs(lex, pairs, z, x, depth + 1);
      CloseByte(0x7d, x, depth + 1);
    case EmptyArray(blank) =>
      CloseByte(0x5b, blank + ([0x5d] + x), depth);
      CloseBlank(blank, [0x5d] + x, depth);
      CloseByte(0x5d, x, depth);
    case Array(blank, terms) =>
      CloseByte(0x5b, blank + PrintTerms(terms, x), depth);
      CloseBlank(blank, PrintTerms(terms, x), depth);
      CloseTerms(lex, terms, z, x, depth);
    case String(body) => CloseString(body, x, depth);
    case Number(digits) => CloseOver(digits, x, depth);
    case Null => CloseOver([0x6e, 0x75, 0x6c, 0x6c], x, depth);
    case True => CloseOver([0x74, 0x72, 0x75, 0x65], x, depth);
    case False => CloseOver([0x66, 0x61, 0x6c, 0x73, 0x65], x, depth);
  }

  lemma {:induction false} CloseSpaced(lex: Lexer, v: Spaced, z: seq<byte>, x: seq<byte>, depth: nat)
    requires AcceptsSpaced(lex, v, z) && Braceless(v.term)
    ensures Close(PrintSpaced(v, x), depth) == |PrintSpaced(v, x)| - |x| + Close(x, depth)
    decreases v
  {
    CloseBlank(v.before, Print(v.term, v.behind + x), depth);
    CloseTerm(lex, v.term, v.behind + z, v.behind + x, depth);
    CloseBlank(v.behind, x, depth);
  }

  /** Pairs end with the brace that closes. */
  lemma {:induction false} ClosePairs(lex: Lexer, ps: Pairs, z: seq<byte>, x: seq<byte>, depth: nat)
    requires AcceptsPairs(lex, ps, z) && BracelessPairs(ps)
    ensures Close(PrintPairs(ps, x), depth) == |PrintPairs(ps, x)| - |x| - 1 + Close([0x7d] + x, depth)
    decreases ps
  {
    var y := BehindPair(ps, x);
    var w := PrintSpaced(ps.value, y);
    CloseBlank(ps.before, PrintString(ps.key, ps.behind + ([0x3a] + w)), depth);
    CloseString(ps.key, ps.behind + ([0x3a] + w), depth);
    CloseBlank(ps.behind, [0x3a] + w, depth);
    CloseByte(0x3a, w, depth);
    CloseSpaced(lex, ps.value, BehindPair(ps, z), y, depth);
    if ps.MorePairs? {
      CloseByte(0x2c, PrintPairs(ps.rest, x), depth);
      ClosePairs(lex, ps.rest, z, x, depth);
    }
  }

  lemma {:induction false} CloseTerms(lex: Lexer, ts: Terms, z: seq<byte>, x: seq<byte>, depth: nat)
    requires AcceptsTerms(lex, ts, z) && BracelessTerms(ts)
    ensures Close(PrintTerms(ts, x), depth) == |PrintTerms(ts, x)| - |x| + Close(x, depth)
    decreases ts
  {
    CloseSpaced(lex, ts.value, BehindTerm(ts, z), BehindTerm(ts, x), depth);
    if ts.LastTerm? {
      CloseByte(0x5d, x, depth);
    } else {
      CloseTerms(lex, ts.rest, z, x, depth);
      if ts.comma { CloseByte(0x2c, PrintTerms(ts.rest, x), depth); }
    }
  }

  /** The brace that closes an object without braces in its strings is its last byte. */
  lemma LastCloses(lex: Lexer, t: Term)
    requires IsObject(t) && Accepts(lex, t, []) && Braceless(t)
    ensures var w := Text(t); |w| > 1 && w[|w| - 1] == 0x7d && Close(w[1..], 0) == |w| - 2
  {
    var w := Text(t);
    if t.Object? {
      ClosePairs(lex, t.pairs, [], [], 0);
      assert w[1..] == PrintPairs(t.pairs, []) && [0x7d] + [] == [0x7d];
    } else {
      CloseBlank(t.blank, [0x7d], 0);
      assert w[1..] == t.blank + [0x7d];
    }
    CloseIsBrace(w[1..], 0);
  }

  lemma {:induction false} CloseIsBrace(s: seq<byte>, depth: nat)
    requires Close(s, depth) < |s|
    ensures s[Close(s, depth)] == 0x7d
    decreases |s|
  {
    if !(s[0] == 0x7d && depth == 0) {
      CloseIsBrace(s[1..], if s[0] == 0x7b then depth + 1 else if s[0] == 0x7d then depth - 1 else depth);
    }
  }

  lemma BracelessLooksComplete(lex: Lexer, t: Term)
    requires IsObject(t) && Accepts(lex, t, []) && Braceless(t)
    ensures LooksComplete(Text(t), 0, |Text(t)|)
  {
    var w := Text(t);
    LastCloses(lex, t);
    BalancedIs(w[1..|w|], 0);
    assert w[1..|w|] == w[1..];
  }

  // ------------------------------------------------------------------ whole messages

  /** An object whose text decodes and ends with the brace that closes it. */
  ghost predicate Sendable(lib: Library, t: Term) {
    && IsObject(t) && Accepts(lib.lex, t, []) && LooksComplete(Text(t), 0, |Text(t)|) && lib.decode(Text(t)).Some?
  }

  /** With values behind it, a printed object is the first message of the buffer. */
  lemma FirstIsMessage(lib: Library, t: Term, x: seq<byte>)
    requires StopsAtDelimiter(lib.lex.strtod) && Sendable(lib, t) && (x == [] || !IsSpace(x[0]))
    ensures DecodeBuffered(lib, Text(t) + x)
         == if AllMatch(lib.lex, x) then Complete(|Text(t)|, lib.decode(Text(t)).value) else Reject
    ensures AllMatch(lib.lex, Text(t) + x) == AllMatch(lib.lex, x)
  {
    var w := Text(t);
    ObjectMatches(lib.lex, t, []);
    assert w + [] == w && Space(w) == 0;
    JsonSplit.ObjectIsComplete(lib, w);
    WordFirst(lib, w, x);
    JsonSplit.AllMatchBehind(lib.lex, w, x);
  }

  /** A byte no value starts with. */
  predicate StartsNoValue(c: byte) {
    && c != 0x20 && c != 0x09 && c != 0x0a && c != 0x0d
    && c != 0x7b && c != 0x5b && c != 0x22 && c != 0x6e && c != 0x74 && c != 0x66 && c != 0x2d && !(0x30 <= c <= 0x39)
  }

  /** A message with such a byte behind it makes the buffer malformed. */
  lemma StrayByteRejects(lib: Library, t: Term, x: seq<byte>)
    requires StopsAtDelimiter(lib.lex.strtod) && Sendable(lib, t) && x != [] && StartsNoValue(x[0])
    ensures DecodeBuffered(lib, Text(t) + x) == Reject
  {
    FirstIsMessage(lib, t, x);
    assert Space(x) == 0 && x[0..] == x;
    assert MatchValue(lib.lex, x) == Bad;
  }

  /** The first byte behind the blanks decides: without one, or at a zero byte, there is no message
      yet, and a message starts with nothing but a brace. */
  lemma FrontDecides(lib: Library, blank: seq<byte>, x: seq<byte>)
    requires Blank(blank)
    ensures x == [] || x[0] == 0 ==> DecodeBuffered(lib, blank + x) == Progress
    ensures x != [] && x[0] !in {0x00, 0x20, 0x09, 0x0a, 0x0d, 0x7b} ==> DecodeBuffered(lib, blank + x) == Reject
  {
    if x == [] || !IsSpace(x[0]) { SpaceIs(blank, x); }
  }

  /** An object that stops being one makes the buffer malformed, whatever is still to come. */
  lemma BadIsRejected(lib: Library, s: seq<byte>)
    requires s != [] && s[0] == 0x7b && MatchToken(lib.lex, s) == Bad
    ensures DecodeBuffered(lib, s) == Reject
  {
    assert Space(s) == 0 && s[0..] == s;
  }

  predicate NoBlank(c: byte) {
    c != 0x20 && c != 0x09 && c != 0x0a && c != 0x0d
  }

  /** Inside an object nothing but a quote starts a key ... */
  lemma StrayKey(lib: Library, before: seq<byte>, c: byte, x: seq<byte>)
    requires Blank(before) && NoBlank(c) && c != 0x22 && c != 0x7d
    ensures DecodeBuffered(lib, [0x7b] + (before + ([c] + x))) == Reject
  {
    NoKey(lib.lex, [c] + x);
    BadPairs(lib, before, [c] + x);
  }

  lemma NoKey(lex: Lexer, s: seq<byte>)
    requires s != [] && !IsSpace(s[0]) && s[0] != QUOTE
    ensures Members(lex, s) == Bad
  {
    assert Space(s) == 0 && s[0..] == s;
    assert MatchString(lex, s) == Bad;
  }

  /** ... nothing but a colon follows it ... */
  lemma StrayColon(lib: Library, before: seq<byte>, key: seq<byte>, behind: seq<byte>, c: byte, x: seq<byte>)
    requires Blank(before) && StringBody(lib.lex, key) && Blank(behind) && NoBlank(c) && c != 0x3a
    ensures DecodeBuffered(lib, [0x7b] + (before + PrintString(key, behind + ([c] + x)))) == Reject
  {
    var s, p := PrintString(key, behind + ([c] + x)), |key| + 2 + |behind|;
    KeyIs(lib.lex, key, behind, [c] + x);
    NoColon(lib.lex, s, p, c, x);
    BadPairs(lib, before, s);
  }

  lemma NoColon(lex: Lexer, s: seq<byte>, p: nat, c: byte, x: seq<byte>)
    requires s != [] && s[0] == QUOTE && Key(lex, s) == Some(p) && p <= |s| && s[p..] == [c] + x && c != 0x3a
    ensures Members(lex, s) == Bad
  {
    assert s[p] == s[p..][0];
    KeyFirst(lex, s, p);
  }

  /** ... and nothing but a comma or the closing brace its value. */
  lemma StrayInObject(lib: Library, before: seq<byte>, key: seq<byte>, behind: seq<byte>, v: Spaced, c: byte, x: seq<byte>)
    requires Blank(before) && StringBody(lib.lex, key) && Blank(behind) && AcceptsSpaced(lib.lex, v, [c] + x)
    requires NoBlank(c) && c !in {0x2c, 0x7d} && (c in {0x5b, 0x7b} ==> x != [])
    ensures DecodeBuffered(lib, [0x7b] + (before + PrintString(key, behind + ([0x3a] + PrintSpaced(v, [c] + x))))) == Reject
  {
    var w := PrintSpaced(v, [c] + x);
    SpacedMatches(lib.lex, v, [c] + x);
    PrintSpacedIs(v, [c] + x);
    StrayBehindValue(lib.lex, w, c, x);
    BadValue(lib, before, key, behind, w);
  }

  lemma BadValue(lib: Library, before: seq<byte>, key: seq<byte>, behind: seq<byte>, w: seq<byte>)
    requires Blank(before) && StringBody(lib.lex, key) && Blank(behind) && w != [] && AfterColon(lib.lex, w) == Bad
    ensures DecodeBuffered(lib, [0x7b] + (before + PrintString(key, behind + ([0x3a] + w)))) == Reject
  {
    MemberIs(lib.lex, key, behind, w);
    BadPairs(lib, before, PrintString(key, behind + ([0x3a] + w)));
  }

  lemma BadPairs(lib: Library, before: seq<byte>, s: seq<byte>)
    requires Blank(before) && s != [] && !IsSpace(s[0]) && s[0] != CLOSE_BRACE && Members(lib.lex, s) == Bad
    ensures DecodeBuffered(lib, [0x7b] + (before + s)) == Reject
  {
    SpaceIs(before, s);
    MembersBehind(lib.lex, before, s);
    ObjectIs(lib.lex, before + s);
    BadIsRejected(lib, [0x7b] + (before + s));
  }

  lemma StrayBehindValue(lex: Lexer, w: seq<byte>, c: byte, x: seq<byte>)
    requires |w| > |x| && w[|w| - |x| - 1..] == [c] + x && Item(lex, w) == Some(|w| - |x| - 1)
    requires c !in {0x2c, 0x7d} && (c in {0x5b, 0x7b} ==> x != [])
    ensures AfterColon(lex, w) == Bad
  {
    var p := |w| - |x| - 1;
    assert w[p] == w[p..][0];
    AfterItem(lex, w, p);
  }

  /** Inside an array nothing but a comma, a closing bracket or an opening one follows a value. */
  lemma StrayInArray(lex: Lexer, blank: seq<byte>, v: Spaced, c: byte, x: seq<byte>)
    requires Blank(blank) && v.before == [] && AcceptsSpaced(lex, v, [c] + x) && NoBlank(c) && c !in {0x2c, 0x5d, 0x5b, 0x7b}
    ensures MatchToken(lex, [0x5b] + (blank + PrintSpaced(v, [c] + x))) == Bad
  {
    var w := PrintSpaced(v, [c] + x);
    FirstOfSpaced(lex, v, [c] + x);
    ArrayIs(lex, blank, w);
    SpacedMatches(lex, v, [c] + x);
    PrintSpacedIs(v, [c] + x);
    StrayBehindElement(lex, w, |w| - |x| - 1, c, x);
  }

  lemma StrayBehindElement(lex: Lexer, w: seq<byte>, p: nat, c: byte, x: seq<byte>)
    requires p < |w| && w[p..] == [c] + x && c !in {0x2c, 0x5d, 0x5b, 0x7b} && Item(lex, w) == Some(p)
    ensures Elements(lex, w) == Bad
  {
    assert w[p] == w[p..][0];
    ElementsAre(lex, w, p);
  }

  /** A text is one message with nothing open iff it is whitespace and such an object. */
  lemma WholeMessageExactly(lib: Library, s: seq<byte>)
    requires StopsAtDelimiter(lib.lex.strtod)
    ensures DecodeBuffered(lib, s).Complete? && DecodeBuffered(lib, s).length == |s| && Ends(lib.lex, s)
       <==> exists blank, t :: Blank(blank) && IsObject(t) && Accepts(lib.lex, t, []) && s == blank + Text(t) &&
              LooksComplete(Text(t), 0, |Text(t)|) && lib.decode(s).Some?
  {
    if DecodeBuffered(lib, s).Complete? && DecodeBuffered(lib, s).length == |s| && Ends(lib.lex, s) {
      var blank, t := MessageTerm(lib, s);
    }
    forall blank, t | Blank(blank) && IsObject(t) && Accepts(lib.lex, t, []) && s == blank + Text(t) &&
                      LooksComplete(Text(t), 0, |Text(t)|) && lib.decode(s).Some?
      ensures DecodeBuffered(lib, s).Complete? && DecodeBuffered(lib, s).length == |s| && Ends(lib.lex, s)
    {
      BlankThenObject(lib, s, blank, t);
    }
  }

  lemma MessageTerm(lib: Library, s: seq<byte>) returns (blank: seq<byte>, t: Term)
    requires DecodeBuffered(lib, s).Complete? && DecodeBuffered(lib, s).length == |s| && Ends(lib.lex, s)
    ensures Blank(blank) && IsObject(t) && Accepts(lib.lex, t, []) && s == blank + Text(t)
    ensures LooksComplete(Text(t), 0, |Text(t)|) && lib.decode(s).Some?
  {
    CompleteHas(lib, s);
    blank, t := MatchedStarts(lib.lex, s, |s|);
    assert s[|s|..] == [];
    StartsMatch(lib.lex, s, |s|, blank, t);
    assert s[|blank| + 1..|s|] == Text(t)[1..|Text(t)|];
  }

  lemma CompleteHas(lib: Library, s: seq<byte>)
    requires DecodeBuffered(lib, s).Complete? && DecodeBuffered(lib, s).length == |s| && Ends(lib.lex, s)
    ensures var k := Space(s);
      k < |s| && s[k] == 0x7b && MatchValue(lib.lex, s) == Closed(|s|) && LooksComplete(s, k, |s|) && lib.decode(s).Some?
  {
    assert s[..|s|] == s;
  }

  lemma CompleteIs(lib: Library, s: seq<byte>, k: nat)
    requires k == Space(s) < |s| && s[k] == 0x7b && MatchValue(lib.lex, s) == Closed(|s|)
    requires LooksComplete(s, k, |s|) && lib.decode(s).Some?
    ensures DecodeBuffered(lib, s) == Complete(|s|, lib.decode(s).value)
  {
    assert s[..|s|] == s;
    ClosedMatches(lib.lex, s);
  }

  lemma ClosedMatches(lex: Lexer, s: seq<byte>)
    requires s != [] && MatchValue(lex, s) == Closed(|s|)
    ensures AllMatch(lex, s)
  {
    assert s[|s|..] == [] && Space([]) == 0;
    assert s[|s| + 0..] == [];
  }

  lemma BlankThenObject(lib: Library, s: seq<byte>, blank: seq<byte>, t: Term)
    requires Blank(blank) && IsObject(t) && Accepts(lib.lex, t, []) && s == blank + Text(t)
    requires LooksComplete(Text(t), 0, |Text(t)|) && lib.decode(s).Some?
    ensures DecodeBuffered(lib, s) == Complete(|s|, lib.decode(s).value) && Ends(lib.lex, s)
  {
    WholeStarts(lib.lex, s, blank, t);
    LooksSame(s, blank, Text(t));
    CompleteIs(lib, s, |blank|);
  }

  lemma WholeStarts(lex: Lexer, s: seq<byte>, blank: seq<byte>, t: Term)
    requires Blank(blank) && IsObject(t) && Accepts(lex, t, []) && s == blank + Text(t)
    ensures s != [] && MatchValue(lex, s) == Closed(|s|) && Space(s) == |blank| < |s| && s[|blank|] == 0x7b
  {
    assert s[|s|..] == [];
    assert Starts(lex, s, |s|, blank, t);
    StartsMatch(lex, s, |s|, blank, t);
  }

  lemma LooksSame(s: seq<byte>, blank: seq<byte>, w: seq<byte>)
    requires w != [] && s == blank + w && LooksComplete(w, 0, |w|)
    ensures LooksComplete(s, |blank|, |s|)
  {
    assert s[|blank| + 1..|s|] == w[1..|w|];
  }

  // ------------------------------------------------------------------ messages cut short

  /** strtod takes the whole of every beginning of every number. */
  predicate Grows(lex: Lexer, t: Term)
    decreases t
  {
    match t
    case Object(pairs) => GrowsPairs(lex, pairs)
    case Array(_, terms) => GrowsTerms(lex, terms)
    case Number(digits) =>
      forall m {:trigger digits[..m]} :: 0 < m <= |digits| ==> lex.strtod(digits[..m]).Some? && lex.strtod(digits[..m]).value >= m
    case _ => true
  }

  predicate GrowsPairs(lex: Lexer, ps: Pairs)
    decreases ps
  {
    Grows(lex, ps.value.term) && (ps.MorePairs? ==> GrowsPairs(lex, ps.rest))
  }

  predicate GrowsTerms(lex: Lexer, ts: Terms)
    decreases ts
  {
    Grows(lex, ts.value.term) && (ts.MoreTerms? ==> GrowsTerms(lex, ts.rest))
  }

  /** The text ends behind an escaped quote. */
  predicate EndsEscaped(q: seq<byte>) {
    |q| >= 2 && q[|q| - 1] == 0x22 && q[|q| - 2] == 0x5c
  }

  lemma {:induction false} AllBlank(q: seq<byte>)
    requires Blank(q)
    ensures Space(q) == |q|
  {
    if q != [] { AllBlank(q[1..]); }
  }

  lemma StringCut(lex: Lexer, body: seq<byte>, x: seq<byte>, m: nat)
    requires StringBody(lex, body) && 0 < m < |body| + 2
    requires var q := PrintString(body, x)[..m]; !EndsEscaped(q)
    ensures MatchString(lex, PrintString(body, x)[..m]) == Open(m)
  {
    var q := PrintString(body, x)[..m];
    assert q[0] == QUOTE && forall j :: 1 <= j < m ==> q[j] == body[j - 1];
    if m > 1 { JsonSplit.QuoteAt(q, 1, m - 1); }
  }

  lemma CutBehind(a: seq<byte>, b: seq<byte>, m: nat)
    requires m <= |a| + |b|
    ensures m >= |a| ==> (a + b)[..m] == a + b[..m - |a|]
    ensures m <= |a| ==> (a + b)[..m] == a[..m]
  {
  }

  lemma BlankCut(b: seq<byte>, m: nat)
    requires Blank(b) && m <= |b|
    ensures Space(b[..m]) == m
  {
    AllBlank(b[..m]);
  }

  lemma EmptyCut(lex: Lexer, a: byte, blank: seq<byte>)
    requires Opens(a) && Blank(blank)
    ensures MatchToken(lex, [a] + blank).Open?
  {
    var q := [a] + blank;
    AllBlank(blank);
    assert q[1..] == blank;
    assert MatchToken(lex, q) == if a == OPEN_BRACE then MatchObject(lex, q) else MatchArray(lex, q);
  }

  lemma WordCut(lex: Lexer, word: seq<byte>, m: nat)
    requires word in {NULL, TRUE, FALSE} && 0 < m < |word|
    ensures MatchToken(lex, word[..m]).Open?
  {
    var q := word[..m];
    assert q[0] == word[0];
    assert MatchToken(lex, q) == MatchLiteral(word, q);
  }

  lemma NumberCut(lex: Lexer, digits: seq<byte>, m: nat)
    requires Digits(digits) && Grows(lex, Number(digits)) && 0 < m <= |digits|
    ensures MatchToken(lex, digits[..m]) == Open(m)
  {
    var q := digits[..m];
    assert q[0] == digits[0];
    assert MatchToken(lex, q) == MatchNumber(lex, q);
  }

  /** The text of a term, cut short, is still open. */
  lemma {:induction false} TermCut(lex: Lexer, t: Term, x: seq<byte>, m: nat)
    requires StopsAtDelimiter(lex.strtod) && Accepts(lex, t, x) && Grows(lex, t)
    requires 0 < m < |Print(t, x)| - |x| && !EndsEscaped(Print(t, x)[..m])
    ensures MatchToken(lex, Print(t, x)[..m]).Open?
    decreases t
  {
    match t
    case EmptyObject(blank) =>
      EmptyTextCut(0x7b, blank, 0x7d, x, m);
      EmptyCut(lex, 0x7b, blank[..m - 1]);
    case EmptyArray(blank) =>
      EmptyTextCut(0x5b, blank, 0x5d, x, m);
      EmptyCut(lex, 0x5b, blank[..m - 1]);
    case Object(pairs) => ObjectCut(lex, pairs, x, m);
    case Array(blank, terms) => ArrayCut(lex, blank, terms, x, m);
    case String(body) => StringCut(lex, body, x, m);
    case Number(digits) =>
      CutBehind(digits, x, m);
      NumberCut(lex, digits, m);
    case Null =>
      CutBehind(NULL, x, m);
      WordCut(lex, NULL, m);
    case True =>
      CutBehind(TRUE, x, m);
      WordCut(lex, TRUE, m);
    case False =>
      CutBehind(FALSE, x, m);
      WordCut(lex, FALSE, m);
  }

  lemma EmptyTextCut(a: byte, blank: seq<byte>, c: byte, x: seq<byte>, m: nat)
    requires 0 < m < |blank| + 2
    ensures ([a] + (blank + ([c] + x)))[..m] == [a] + blank[..m - 1]
  {
  }

  lemma EscapedBehind(a: seq<byte>, b: seq<byte>)
    requires !EndsEscaped(a + b)
    ensures !EndsEscaped(b)
  {
  }

  lemma {:induction false} ObjectCut(lex: Lexer, ps: Pairs, x: seq<byte>, m: nat)
    requires StopsAtDelimiter(lex.strtod) && AcceptsPairs(lex, ps, x) && GrowsPairs(lex, ps)
    requires 0 < m < |PrintPairs(ps, x)| + 1 - |x| && !EndsEscaped(([0x7b] + PrintPairs(ps, x))[..m])
    ensures MatchToken(lex, ([0x7b] + PrintPairs(ps, x))[..m]).Open?
    decreases ps, 1
  {
    var w := PrintSpaced(ps.value, BehindPair(ps, x));
    PairsText(ps, x, w);
    ObjectTextCut(lex, ps, x, m, w, PrintString(ps.key, ps.behind + ([0x3a] + w)));
  }

  lemma {:induction false} ObjectTextCut(lex: Lexer, ps: Pairs, x: seq<byte>, m: nat, w: seq<byte>, rest: seq<byte>)
    requires StopsAtDelimiter(lex.strtod) && AcceptsPairs(lex, ps, x) && GrowsPairs(lex, ps) && w == PrintSpaced(ps.value, BehindPair(ps, x))
    requires rest == PrintString(ps.key, ps.behind + ([0x3a] + w)) && 0 < m < 1 + |ps.before| + |rest| - |x|
    requires !EndsEscaped(([0x7b] + (ps.before + rest))[..m])
    ensures MatchToken(lex, ([0x7b] + (ps.before + rest))[..m]).Open?
    decreases ps, 0, 3
  {
    InnerCut(0x7b, ps.before, rest, m);
    var j := m - 1 - |ps.before|;
    if j <= 0 {
      EmptyCut(lex, 0x7b, ps.before[..m - 1]);
    } else {
      PairsInside(lex, ps, x, w, rest[..j], j);
    }
  }

  lemma {:induction false} PairsInside(lex: Lexer, ps: Pairs, x: seq<byte>, w: seq<byte>, v: seq<byte>, j: nat)
    requires StopsAtDelimiter(lex.strtod) && AcceptsPairs(lex, ps, x) && GrowsPairs(lex, ps) && w == PrintSpaced(ps.value, BehindPair(ps, x))
    requires 0 < j < |ps.key| + 3 + |ps.behind| + |w| - |x| && v == PrintString(ps.key, ps.behind + ([0x3a] + w))[..j]
    requires !EndsEscaped(v)
    ensures MatchToken(lex, [0x7b] + (ps.before + v)).Open?
    decreases ps, 0, 2
  {
    FirstPairCut(lex, ps, x, w, j);
    ObjectOpens(lex, ps.before, v);
  }

  lemma InnerCut(a: byte, b: seq<byte>, c: seq<byte>, m: nat)
    requires 0 < m <= 1 + |b| + |c|
    ensures m - 1 <= |b| ==> ([a] + (b + c))[..m] == [a] + b[..m - 1]
    ensures m - 1 > |b| ==> ([a] + (b + c))[..m] == [a] + (b + c[..m - 1 - |b|])
    ensures m - 1 > |b| && EndsEscaped(c[..m - 1 - |b|]) ==> EndsEscaped(([a] + (b + c))[..m])
  {
  }

  lemma ObjectOpens(lex: Lexer, before: seq<byte>, v: seq<byte>)
    requires Blank(before) && v != [] && v[0] == QUOTE && Members(lex, v).Open?
    ensures MatchToken(lex, [0x7b] + (before + v)).Open?
  {
    SpaceIs(before, v);
    ObjectIs(lex, before + v);
    MembersBehind(lex, before, v);
  }

  /** The text of pairs, cut short, is still open. */
  lemma {:induction false} PairsCut(lex: Lexer, ps: Pairs, x: seq<byte>, m: nat)
    requires StopsAtDelimiter(lex.strtod) && AcceptsPairs(lex, ps, x) && GrowsPairs(lex, ps)
    requires 0 < m < |PrintPairs(ps, x)| - |x| && !EndsEscaped(PrintPairs(ps, x)[..m])
    ensures Members(lex, PrintPairs(ps, x)[..m]).Open?
    decreases ps, 0
  {
    var w := PrintSpaced(ps.value, BehindPair(ps, x));
    var rest := PrintString(ps.key, ps.behind + ([0x3a] + w));
    PairsText(ps, x, w);
    CutBehind(ps.before, rest, m);
    if m <= |ps.before| {
      BlankMembers(lex, ps.before, m);
    } else {
      var j := m - |ps.before|;
      EscapedBehind(ps.before, rest[..j]);
      FirstPairCut(lex, ps, x, w, j);
      MembersBehind(lex, ps.before, rest[..j]);
    }
  }

  lemma BlankMembers(lex: Lexer, blank: seq<byte>, m: nat)
    requires Blank(blank) && 0 < m <= |blank|
    ensures Members(lex, blank[..m]).Open?
  {
    BlankCut(blank, m);
  }

  lemma {:induction false} FirstPairCut(lex: Lexer, ps: Pairs, x: seq<byte>, w: seq<byte>, j: nat)
    requires StopsAtDelimiter(lex.strtod) && AcceptsPairs(lex, ps, x) && GrowsPairs(lex, ps) && w == PrintSpaced(ps.value, BehindPair(ps, x))
    requires 0 < j < |ps.key| + 3 + |ps.behind| + |w| - |x|
    requires !EndsEscaped(PrintString(ps.key, ps.behind + ([0x3a] + w))[..j])
    ensures Members(lex, PrintString(ps.key, ps.behind + ([0x3a] + w))[..j]).Open?
    decreases ps, 0, 1
  {
    var c := |ps.key| + 3 + |ps.behind|;
    if j > c {
      EscapedColon(ps.key, ps.behind, w, j);
      ValueCut(lex, ps, x, w, j - c);
    }
    PairCut(lex, ps.key, ps.behind, w, j);
  }

  /** A pair cut in front of its value, or in it. */
  lemma PairCut(lex: Lexer, key: seq<byte>, behind: seq<byte>, w: seq<byte>, j: nat)
    requires StringBody(lex, key) && Blank(behind) && 0 < j <= |key| + 3 + |behind| + |w|
    requires !EndsEscaped(PrintString(key, behind + ([0x3a] + w))[..j])
    requires j > |key| + 3 + |behind| ==> AfterColon(lex, w[..j - (|key| + 3 + |behind|)]).Open?
    ensures Members(lex, PrintString(key, behind + ([0x3a] + w))[..j]).Open?
  {
    if j < |key| + 2 {
      KeyCut(lex, key, behind + ([0x3a] + w), j);
    } else {
      StringTextCut(key, behind + ([0x3a] + w), j);
      BehindKeyCut(lex, key, behind, w, j - |key| - 2);
    }
  }

  lemma BehindKeyCut(lex: Lexer, key: seq<byte>, behind: seq<byte>, w: seq<byte>, i: nat)
    requires StringBody(lex, key) && Blank(behind) && i <= |behind| + 1 + |w|
    requires i > |behind| + 1 ==> AfterColon(lex, w[..i - |behind| - 1]).Open?
    ensures Members(lex, PrintString(key, (behind + ([0x3a] + w))[..i])).Open?
  {
    CutBehind(behind, [0x3a] + w, i);
    if i <= |behind| {
      BlankCut(behind, i);
      KeyThenBlank(lex, key, behind[..i]);
    } else {
      ColonCut(lex, key, behind, w, i - |behind|);
    }
  }

  lemma KeyCut(lex: Lexer, key: seq<byte>, z: seq<byte>, j: nat)
    requires StringBody(lex, key) && 0 < j < |key| + 2 && !EndsEscaped(PrintString(key, z)[..j])
    ensures Members(lex, PrintString(key, z)[..j]).Open?
  {
    StringCut(lex, key, z, j);
    KeyOpens(lex, PrintString(key, z)[..j]);
  }

  lemma ColonCut(lex: Lexer, key: seq<byte>, behind: seq<byte>, w: seq<byte>, i: nat)
    requires StringBody(lex, key) && Blank(behind) && 0 < i <= 1 + |w| && (i > 1 ==> AfterColon(lex, w[..i - 1]).Open?)
    ensures Members(lex, PrintString(key, behind + ([0x3a] + w)[..i])).Open?
  {
    CutBehind([0x3a], w, i);
    if i == 1 {
      assert [0x3a] + w[..0] == [0x3a];
      KeyThenColon(lex, key, behind);
    } else {
      MemberIs(lex, key, behind, w[..i - 1]);
    }
  }

  lemma StringTextCut(body: seq<byte>, z: seq<byte>, j: nat)
    requires |body| + 2 <= j <= |body| + 2 + |z|
    ensures PrintString(body, z)[..j] == PrintString(body, z[..j - |body| - 2])
  {
  }

  lemma EscapedColon(key: seq<byte>, behind: seq<byte>, w: seq<byte>, j: nat)
    requires |key| + 3 + |behind| < j <= |key| + 3 + |behind| + |w|
    requires !EndsEscaped(PrintString(key, behind + ([0x3a] + w))[..j])
    ensures !EndsEscaped(w[..j - (|key| + 3 + |behind|)])
  {
    var c := |key| + 3 + |behind|;
    assert PrintString(key, behind + ([0x3a] + w))[c..] == w;
    assert PrintString(key, behind + ([0x3a] + w))[..j][c..] == w[..j - c];
  }

  lemma KeyOpens(lex: Lexer, q: seq<byte>)
    requires q != [] && q[0] == QUOTE && MatchString(lex, q) == Open(|q|)
    ensures Members(lex, q).Open?
  {
    assert q[|q|..] == [] && Space([]) == 0;
    KeyAtEnd(lex, q);
  }

  lemma KeyThenBlank(lex: Lexer, key: seq<byte>, z: seq<byte>)
    requires StringBody(lex, key) && Blank(z)
    ensures Members(lex, PrintString(key, z)).Open?
  {
    assert z + [] == z;
    KeyIs(lex, key, z, []);
    KeyAtEnd(lex, PrintString(key, z));
  }

  lemma KeyAtEnd(lex: Lexer, q: seq<byte>)
    requires q != [] && q[0] == QUOTE && Key(lex, q) == Some(|q|)
    ensures Members(lex, q).Open?
  {
    KeyFirst(lex, q, |q|);
  }

  lemma KeyThenColon(lex: Lexer, key: seq<byte>, behind: seq<byte>)
    requires StringBody(lex, key) && Blank(behind)
    ensures Members(lex, PrintString(key, behind + [0x3a])).Open?
  {
    var q := PrintString(key, behind + [0x3a]);
    KeyIs(lex, key, behind, [0x3a]);
    KeyFirst(lex, q, |q| - 1);
  }

  /** What is behind a colon, cut short in front of the end of the pairs. */
  lemma {:induction false} ValueCut(lex: Lexer, ps: Pairs, x: seq<byte>, w: seq<byte>, i: nat)
    requires StopsAtDelimiter(lex.strtod) && AcceptsPairs(lex, ps, x) && GrowsPairs(lex, ps)
    requires w == PrintSpaced(ps.value, BehindPair(ps, x)) && 0 < i < |w| - |x| && !EndsEscaped(w[..i])
    ensures AfterColon(lex, w[..i]).Open?
    decreases ps, 0, 0
  {
    var y := BehindPair(ps, x);
    var c := |w| - |y|;
    if i <= c {
      var p := SpacedCut(lex, ps.value, y, i);
      AfterItem(lex, w[..i], p);
      assert w[..i][p..] == w[p..i];
    } else {
      var j := i - c - 1;
      ItemStays(lex, ps.value, y, w, i);
      AfterItem(lex, w[..i], c);
      if j > 0 {
        RestCut(w, c, i, PrintPairs(ps.rest, x), 0x2c);
        PairsCut(lex, ps.rest, x, j);
        BehindComma(lex, w[..i], c);
      }
    }
  }

  lemma RestCut(w: seq<byte>, c: nat, i: nat, r: seq<byte>, a: byte)
    requires c + 1 < i <= |w| && w[c..] == [a] + r
    ensures w[..i][c] == a && w[..i][c + 1..] == r[..i - c - 1] && i - c - 1 <= |r|
    ensures !EndsEscaped(w[..i]) ==> !EndsEscaped(r[..i - c - 1])
  {
    assert w[c + 1..] == w[c..][1..] == r;
    assert w[..i][c + 1..] == w[c + 1..][..i - c - 1];
    assert w[..i] == w[..c + 1] + r[..i - c - 1];
    if !EndsEscaped(w[..i]) { EscapedBehind(w[..c + 1], r[..i - c - 1]); }
  }

  /** An item is the same with less behind it. */
  lemma ItemStays(lex: Lexer, v: Spaced, y: seq<byte>, w: seq<byte>, i: nat)
    requires StopsAtDelimiter(lex.strtod) && AcceptsSpaced(lex, v, y) && w == PrintSpaced(v, y)
    requires Follows(y) && |w| - |y| < i <= |w|
    ensures Item(lex, w[..i]) == Some(|w| - |y|) && w[|w| - |y|..] == y && w[|w| - |y|] == y[0]
  {
    SpacedMatches(lex, v, y);
    PrintSpacedIs(v, y);
    ItemShort(lex, w, y, |w| - |y|, i);
  }

  lemma ItemShort(lex: Lexer, w: seq<byte>, y: seq<byte>, c: nat, i: nat)
    requires StopsAtDelimiter(lex.strtod) && w != [] && Item(lex, w) == Some(c) && c < i <= |w| && w[c..] == y && Follows(y)
    ensures Item(lex, w[..i]) == Some(c) && w[c] == y[0]
  {
    assert w[c] == w[c..][0];
    assert w[..c + 1] == w[..i][..c + 1];
    ItemSame(lex, w, w[..i], c);
  }

  /** A term with nothing behind it: strtod may want more, everything else has come to its end. */
  lemma TermWhole(lex: Lexer, t: Term, x: seq<byte>)
    requires StopsAtDelimiter(lex.strtod) && Accepts(lex, t, x) && Grows(lex, t)
    ensures var m := MatchToken(lex, Text(t)); Text(t) != [] && m != Bad && m.n == |Text(t)|
  {
    PrintIs(t, x);
    FirstByte(lex, t, x);
    var w := Text(t);
    match t
    case Number(digits) =>
      assert w == digits && digits[..|digits|] == digits;
      NumberCut(lex, digits, |digits|);
    case Null => WordIs(lex, NULL, []);
    case True => WordIs(lex, TRUE, []);
    case False => WordIs(lex, FALSE, []);
    case _ =>
      TermMatches(lex, t, x);
      InFront(w, x);
      ClosedSame(lex, Print(t, x), w);
  }

  lemma ClosedSame(lex: Lexer, s: seq<byte>, w: seq<byte>)
    requires StopsAtDelimiter(lex.strtod) && w != [] && w <= s && s[0] in {OPEN_BRACE, OPEN_BRACKET, QUOTE}
    requires MatchToken(lex, s) == Closed(|w|)
    ensures MatchToken(lex, w) == Closed(|w|)
  {
    assert Same(s, w, |w|);
    if s[0] == OPEN_BRACE {
      ObjectSame(lex, s, w, |w|);
    } else if s[0] == OPEN_BRACKET {
      ArraySame(lex, s, w, |w|);
    } else {
      StringSame(lex, s, w);
    }
  }

  /** The end of what an open or ended match leaves of the data. */
  predicate AtEnd(q: seq<byte>, p: nat) {
    p == |q| || (p + 1 == |q| && Opens(q[p]))
  }

  lemma OpenItem(lex: Lexer, q: seq<byte>, b: nat, u: seq<byte>) returns (p: nat)
    requires b == Space(q) < |q| && u == q[b..]
    requires var m := MatchToken(lex, u); m.Open? || (m.Closed? && m.n == |u|)
    ensures Item(lex, q) == Some(p) && AtEnd(q, p)
  {
    var m := MatchToken(lex, u);
    ValueIs(lex, q, b, u);
    p := b + m.n;
    if m.n == |u| {
      assert q[p..] == [] && Space([]) == 0;
    } else {
      assert q[p] == u[m.n] && Space(q[p..]) == 0;
    }
    ItemIs(lex, q, Shift(b, m), p);
  }

  lemma BlankItem(lex: Lexer, q: seq<byte>)
    requires q != [] && Space(q) == |q|
    ensures Item(lex, q) == Some(|q|)
  {
    assert q[|q|..] == [] && Space([]) == 0;
  }

  /** What may stand behind an item. */
  predicate Follows(y: seq<byte>) {
    y != [] && Delimits(y[0]) && !IsSpace(y[0]) && (Opens(y[0]) ==> |y| > 1)
  }

  /** An item cut short reaches to the end of the data. */
  lemma {:induction false} SpacedCut(lex: Lexer, v: Spaced, y: seq<byte>, i: nat) returns (p: nat)
    requires StopsAtDelimiter(lex.strtod) && AcceptsSpaced(lex, v, y) && Grows(lex, v.term) && Follows(y)
    requires 0 < i <= |PrintSpaced(v, y)| - |y| && !EndsEscaped(PrintSpaced(v, y)[..i])
    ensures Item(lex, PrintSpaced(v, y)[..i]) == Some(p) && AtEnd(PrintSpaced(v, y)[..i], p)
    decreases v
  {
    var x := v.behind + y;
    var w, u, b := PrintSpaced(v, y), Print(v.term, x), |v.before|;
    var q, e := w[..i], |w| - |x|;
    SpacedFirst(lex, v, y, i);
    if i <= b {
      BlankItem(lex, q);
      p := i;
    } else if i <= e {
      PrintIs(v.term, x);
      if i < e { TermCut(lex, v.term, x, i - b); } else { TermWhole(lex, v.term, x); }
      p := OpenItem(lex, q, b, q[b..]);
    } else {
      p := i;
      BlankBehindTerm(lex, v, y, w, i, e);
    }
  }

  lemma SpacedFirst(lex: Lexer, v: Spaced, y: seq<byte>, i: nat)
    requires AcceptsSpaced(lex, v, y) && 0 < i <= |PrintSpaced(v, y)|
    ensures var q, b, u := PrintSpaced(v, y)[..i], |v.before|, Print(v.term, v.behind + y);
      && (i <= b ==> Space(q) == |q|)
      && (i > b ==> (Space(q) == b && q[b..] == u[..i - b] && q[b] == u[0] != CLOSE_BRACKET && (EndsEscaped(q[b..]) ==> EndsEscaped(q))))
  {
    var u := Print(v.term, v.behind + y);
    CutBehind(v.before, u, i);
    FirstByte(lex, v.term, v.behind + y);
    if i <= |v.before| {
      BlankCut(v.before, i);
    } else {
      SpaceIs(v.before, u[..i - |v.before|]);
    }
  }

  lemma BlankBehindTerm(lex: Lexer, v: Spaced, y: seq<byte>, w: seq<byte>, i: nat, e: nat)
    requires StopsAtDelimiter(lex.strtod) && AcceptsSpaced(lex, v, y) && w == PrintSpaced(v, y)
    requires e == |w| - |v.behind + y| && e < i <= |w| - |y|
    ensures Item(lex, w[..i]) == Some(i)
  {
    var x := v.behind + y;
    SpacedValue(lex, v, y, w, x);
    CutThere(w, x, v.behind, e, i);
    ValueSame(lex, w, w[..i], e);
    BlankCut(v.behind, i - e);
    ItemIs(lex, w[..i], Closed(e), i);
  }

  lemma SpacedValue(lex: Lexer, v: Spaced, y: seq<byte>, w: seq<byte>, x: seq<byte>)
    requires AcceptsSpaced(lex, v, y) && w == PrintSpaced(v, y) && x == v.behind + y
    ensures w != [] && |x| <= |w| && MatchValue(lex, w) == Closed(|w| - |x|) && w[|w| - |x|..] == x
  {
    TermMatches(lex, v.term, x);
    FirstOfSpaced(lex, v, y);
    ValueIs(lex, w, |v.before|, Print(v.term, x));
    PrintIs(v.term, x);
    Onto(v.before, Text(v.term), x);
    InFront(v.before + Text(v.term), x);
  }

  lemma CutThere(w: seq<byte>, x: seq<byte>, b: seq<byte>, e: nat, i: nat)
    requires e < i <= |w| && w[e..] == x && i - e <= |b| && b <= x && Blank(b)
    ensures w[..i][e..] == b[..i - e] && EndsAt(w, e) && Same(w, w[..i], e + 1)
  {
    assert w[e] == x[0] == b[0];
    assert w[..e + 1] == w[..i][..e + 1];
    assert w[..i][e..] == x[..i - e] == b[..i - e];
  }

  lemma {:induction false} ArrayCut(lex: Lexer, blank: seq<byte>, ts: Terms, x: seq<byte>, m: nat)
    requires StopsAtDelimiter(lex.strtod) && AcceptsTerms(lex, ts, x) && GrowsTerms(lex, ts) && Blank(blank) && ts.value.before == []
    requires 0 < m < 1 + |blank| + |PrintTerms(ts, x)| - |x| && !EndsEscaped(([0x5b] + (blank + PrintTerms(ts, x)))[..m])
    ensures MatchToken(lex, ([0x5b] + (blank + PrintTerms(ts, x)))[..m]).Open?
    decreases ts, 1
  {
    var w := PrintTerms(ts, x);
    InnerCut(0x5b, blank, w, m);
    if m - 1 <= |blank| {
      EmptyCut(lex, 0x5b, blank[..m - 1]);
    } else {
      var j := m - 1 - |blank|;
      TermsCut(lex, ts, x, j);
      FirstOfTerms(lex, ts, x);
      ArrayIs(lex, blank, w[..j]);
    }
  }

  /** The text of elements, cut short, is still open. */
  lemma {:induction false} TermsCut(lex: Lexer, ts: Terms, x: seq<byte>, m: nat)
    requires StopsAtDelimiter(lex.strtod) && AcceptsTerms(lex, ts, x) && GrowsTerms(lex, ts)
    requires 0 < m < |PrintTerms(ts, x)| - |x| && !EndsEscaped(PrintTerms(ts, x)[..m])
    ensures Elements(lex, PrintTerms(ts, x)[..m]).Open?
    decreases ts, 0
  {
    var y := BehindTerm(ts, x);
    var w := PrintTerms(ts, x);
    var q, c := w[..m], |w| - |y|;
    TermFollows(lex, ts, x);
    if m <= c {
      var p := SpacedCut(lex, ts.value, y, m);
      ElementsAre(lex, q, p);
      ElementAtEnd(lex, q, p);
    } else {
      ItemStays(lex, ts.value, y, w, m);
      ElementsAre(lex, q, c);
      NextCut(lex, ts, x, w, q, c, m);
    }
  }

  lemma TermFollows(lex: Lexer, ts: Terms, x: seq<byte>)
    requires AcceptsTerms(lex, ts, x)
    ensures Follows(BehindTerm(ts, x)) && |PrintTerms(ts, x)| > |BehindTerm(ts, x)|
  {
    FirstOfTail(lex, ts, x);
    FirstTermMatches(lex, ts, x, PrintTerms(ts, x), BehindTerm(ts, x));
  }

  lemma ElementAtEnd(lex: Lexer, q: seq<byte>, p: nat)
    requires AtEnd(q, p)
    ensures BehindElement(lex, q, p).Open?
  {
  }

  /** Elements cut short behind the first of them. */
  lemma {:induction false} NextCut(lex: Lexer, ts: Terms, x: seq<byte>, w: seq<byte>, q: seq<byte>, c: nat, m: nat)
    requires StopsAtDelimiter(lex.strtod) && AcceptsTerms(lex, ts, x) && GrowsTerms(lex, ts)
    requires w == PrintTerms(ts, x) && 0 < c == |w| - |BehindTerm(ts, x)| < m < |w| - |x| && q == w[..m] && !EndsEscaped(q)
    requires w[c..] == BehindTerm(ts, x) && Follows(BehindTerm(ts, x))
    ensures BehindElement(lex, q, c).Open?
    decreases ts, 0, 0
  {
    var r := PrintTerms(ts.rest, x);
    FirstOfTail(lex, ts, x);
    assert q[c] == w[c] == w[c..][0];
    if m == c + 1 {
      ElementAtEndOrComma(lex, q, c, ts.comma);
    } else if ts.comma {
      RestCut(w, c, m, r, 0x2c);
      TermsCut(lex, ts.rest, x, m - c - 1);
      NextElementBack(lex, q, c, c + 1);
    } else {
      NextText(w, c, m, r, q);
      TermsCut(lex, ts.rest, x, m - c);
      NextElementBack(lex, q, c, c);
    }
  }

  lemma NextText(w: seq<byte>, c: nat, m: nat, r: seq<byte>, q: seq<byte>)
    requires c <= m <= |w| && w[c..] == r && q == w[..m]
    ensures q[c..] == r[..m - c] && (EndsEscaped(r[..m - c]) ==> EndsEscaped(q))
  {
    assert q == q[..c] + q[c..];
    assert q[c..] == w[c..][..m - c];
  }

  lemma ElementAtEndOrComma(lex: Lexer, q: seq<byte>, c: nat, comma: bool)
    requires c + 1 == |q| && (if comma then q[c] == COMMA else Opens(q[c]))
    ensures BehindElement(lex, q, c).Open?
  {
  }

  // ------------------------------------------------------------ incomplete messages

  /** The text ends with the brace that closes its first. */
  predicate ClosesLast(w: seq<byte>) {
    |w| > 1 && w[|w| - 1] == 0x7d && Close(w[1..], 0) == |w| - 2
  }

  lemma OpenMatches(lex: Lexer, b: seq<byte>)
    requires b != [] && MatchValue(lex, b).Open?
    ensures AllMatch(lex, b)
  {
    var n := MatchValue(lex, b).n;
    if n == |b| {
      OpenAllMatches(lex, b);
    } else {
      var u := b[n..];
      assert u == [b[n]] && Space(u) == 0 && u[0..] == u;
      assert MatchToken(lex, u) == Open(0);
    }
  }

  /** Part of a message is no message yet, unless it ends behind an escaped quote. */
  lemma PartIsProgress(lib: Library, t: Term, m: nat)
    requires StopsAtDelimiter(lib.lex.strtod) && IsObject(t) && Accepts(lib.lex, t, []) && Grows(lib.lex, t) && ClosesLast(Text(t))
    requires m < |Text(t)| && !EndsEscaped(Text(t)[..m])
    ensures DecodeBuffered(lib, Text(t)[..m]) == Progress && AllMatch(lib.lex, Text(t)[..m])
  {
    if m > 0 {
      var w := Text(t);
      var b := w[..m];
      TermCut(lib.lex, t, [], m);
      TokenOpens(lib.lex, b);
      OpenMatches(lib.lex, b);
      var n := MatchValue(lib.lex, b).n;
      if n > 0 { NotClosed(w, b, m, n); }
      PartIs(lib, b, n);
    }
  }

  lemma TokenOpens(lex: Lexer, b: seq<byte>)
    requires b != [] && b[0] == 0x7b && MatchToken(lex, b).Open?
    ensures MatchValue(lex, b).Open?
  {
    assert Space(b) == 0 && b[0..] == b;
    ValueIs(lex, b, 0, b);
  }

  /** Part of a text does not look complete. */
  lemma NotClosed(w: seq<byte>, b: seq<byte>, m: nat, n: nat)
    requires ClosesLast(w) && 0 < n <= m < |w| && b == w[..m]
    ensures !LooksComplete(b, 0, n)
  {
    assert b[1..n] == w[1..][..n - 1];
    CloseCut(w[1..], 0, n - 1);
    BalancedIs(b[1..n], 0);
  }

  lemma PartIs(lib: Library, b: seq<byte>, n: nat)
    requires b != [] && b[0] == 0x7b && AllMatch(lib.lex, b) && MatchValue(lib.lex, b) == Open(n)
    requires n <= |b| && (n > 0 ==> !LooksComplete(b, 0, n))
    ensures DecodeBuffered(lib, b) == Progress
  {
    assert Space(b) == 0;
  }

  // ------------------------------------------------------------ streams of messages

  /** A message that no read can spoil. */
  ghost predicate Robust(lib: Library, t: Term) {
    && Sendable(lib, t) && ClosesLast(Text(t)) && Grows(lib.lex, t)
    && (forall i :: 0 <= i < |Text(t)| - 1 && Text(t)[i] == 0x5c ==> Text(t)[i + 1] != 0x22)
  }

  /** Objects without braces or escaped quotes in their strings are such messages. */
  lemma PlainIsRobust(lib: Library, t: Term)
    requires IsObject(t) && Accepts(lib.lex, t, []) && Grows(lib.lex, t) && Braceless(t) && lib.decode(Text(t)).Some?
    requires forall i :: 0 <= i < |Text(t)| - 1 && Text(t)[i] == 0x5c ==> Text(t)[i + 1] != 0x22
    ensures Robust(lib, t)
  {
    LastCloses(lib.lex, t);
    BracelessLooksComplete(lib.lex, t);
  }

  /** The messages with these texts. */
  function Sent(decode: seq<byte> -> Option<Value>, ts: seq<Term>): seq<Message>
    requires forall i :: 0 <= i < |ts| ==> decode(Text(ts[i])).Some?
  {
    if ts == [] then [] else [Message(Text(ts[0]), decode(Text(ts[0])).value)] + Sent(decode, ts[1..])
  }

  ghost predicate AllRobust(lib: Library, ts: seq<Term>) {
    forall i :: 0 <= i < |ts| ==> Robust(lib, ts[i])
  }

  lemma FirstOfSent(lib: Library, ts: seq<Term>)
    requires StopsAtDelimiter(lib.lex.strtod) && AllRobust(lib, ts) && ts != []
    ensures var w, rest := Text(ts[0]), BytesOf(Sent(lib.decode, ts[1..]));
      && Robust(lib, ts[0]) && w != [] && w[0] == 0x7b && BytesOf(Sent(lib.decode, ts)) == w + rest
      && Sent(lib.decode, ts)[0] == Message(w, lib.decode(w).value) && Sent(lib.decode, ts)[1..] == Sent(lib.decode, ts[1..])
  {
    ObjectMatches(lib.lex, ts[0], []);
  }

  /** No part of such texts is malformed. */
  lemma {:induction false} PartMatches(lib: Library, ts: seq<Term>, m: nat)
    requires StopsAtDelimiter(lib.lex.strtod) && AllRobust(lib, ts) && m <= |BytesOf(Sent(lib.decode, ts))|
    ensures var b := BytesOf(Sent(lib.decode, ts))[..m]; AllMatch(lib.lex, b) && (b == [] || b[0] == 0x7b)
    decreases |ts|
  {
    if ts != [] {
      var w, rest := Text(ts[0]), BytesOf(Sent(lib.decode, ts[1..]));
      FirstOfSent(lib, ts);
      CutBehind(w, rest, m);
      if m < |w| {
        PartIsProgress(lib, ts[0], m);
      } else {
        PartMatches(lib, ts[1..], m - |w|);
        FirstIsMessage(lib, ts[0], rest[..m - |w|]);
      }
    }
  }

  lemma {:induction false} SentIsRobust(lib: Library, ts: seq<Term>)
    requires StopsAtDelimiter(lib.lex.strtod) && AllRobust(lib, ts)
    ensures Chunking.Robust(Scan(lib), Sent(lib.decode, ts))
    decreases |ts|
  {
    if ts != [] {
      var ms := Sent(lib.decode, ts);
      FirstOfSent(lib, ts);
      forall m | 0 <= m <= |BytesOf(ms)|
        ensures Chunking.ShowsFirst(Scan(lib), ms, m)
      {
        FirstIsShown(lib, ts, m);
      }
      SentIsRobust(lib, ts[1..]);
    }
  }

  lemma FirstIsShown(lib: Library, ts: seq<Term>, m: nat)
    requires StopsAtDelimiter(lib.lex.strtod) && AllRobust(lib, ts) && ts != [] && m <= |BytesOf(Sent(lib.decode, ts))|
    ensures Chunking.ShowsFirst(Scan(lib), Sent(lib.decode, ts), m)
  {
    var w, rest := Text(ts[0]), BytesOf(Sent(lib.decode, ts[1..]));
    FirstOfSent(lib, ts);
    if m >= |w| { PartMatches(lib, ts[1..], m - |w|); }
    FirstOfPart(lib, ts[0], w, rest, m);
  }

  lemma FirstOfPart(lib: Library, t: Term, w: seq<byte>, rest: seq<byte>, m: nat)
    requires StopsAtDelimiter(lib.lex.strtod) && Robust(lib, t) && w == Text(t) && m <= |w + rest|
    requires m >= |w| ==> var b := rest[..m - |w|]; AllMatch(lib.lex, b) && (b == [] || b[0] == 0x7b)
    ensures DecodeBuffered(lib, (w + rest)[..m]) == if m < |w| then Progress else Complete(|w|, lib.decode(w).value)
  {
    CutBehind(w, rest, m);
    if m < |w| {
      PartIsProgress(lib, t, m);
    } else {
      FirstIsMessage(lib, t, rest[..m - |w|]);
    }
  }

  /** However a stream of such messages is split into reads, each is delivered, in order and once,
      nothing is left over and the connection stays open. */
  lemma StreamIsDelivered(lib: Library, ts: seq<Term>, chunks: seq<seq<byte>>)
    requires StopsAtDelimiter(lib.lex.strtod) && AllRobust(lib, ts) && Flatten(chunks) == BytesOf(Sent(lib.decode, ts))
    ensures Lawful(Scan(lib))
    ensures Chunking.ReadAll(Scan(lib), Chunking.START, chunks) == Chunking.Reader(true, [], Sent(lib.decode, ts))
  {
    ScanIsLawful(lib);
    SentIsRobust(lib, ts);
    Chunking.RobustIsDelivered(Scan(lib), Sent(lib.decode, ts), chunks);
  }

  // ------------------------------------------------------------ a number cut short

  /** A read that ends behind a minus sign finds the buffer malformed, if strtod takes nothing of a
      lone minus sign; so Grows is needed. */
  lemma MinusIsRejected(lib: Library, key: seq<byte>)
    requires JsonSplit.Plain(key) && lib.lex.strtod([0x2d]) == Some(0)
    ensures DecodeBuffered(lib, [0x7b] + JsonSplit.Quoted(key) + [0x3a] + [0x2d]) == Reject
  {
    var s: seq<byte> := [0x2d];
    JsonSplit.OneMember(lib.lex, key, s);
    assert s[0..] == s && Space(s) == 0;
    assert MatchValue(lib.lex, s) == Closed(0);
    ItemIs(lib.lex, s, Closed(0), 0);
    AfterItem(lib.lex, s, 0);
  }

  /** So a message with a negative number is lost to such a read. */
  lemma NegativeNumberIsLost(lib: Library, key: seq<byte>, x: seq<byte>)
    requires JsonSplit.Plain(key) && lib.lex.strtod([0x2d]) == Some(0)
    requires var b := [0x7b] + JsonSplit.Quoted(key) + [0x3a] + [0x2d]; DecodeBuffered(lib, b + x).Complete?
    ensures var b := [0x7b] + JsonSplit.Quoted(key) + [0x3a] + [0x2d]; var scan := Scan(lib);
      && Lawful(scan) && Flatten([b, x]) == b + x && Messages(scan, b + x) != []
      && Chunking.ReadAll(scan, Chunking.START, [b, x]) == Chunking.Reader(false, [], [])
  {
    var b := [0x7b] + JsonSplit.Quoted(key) + [0x3a] + [0x2d];
    ScanIsLawful(lib);
    MinusIsRejected(lib, key);
    Chunking.SplittingLosesFirst(Scan(lib), b, x);
  }

  // ------------------------------------------------------------ an example

  const X: seq<byte> := [0x78]
  const A: seq<byte> := [0x61]

  const X_VALUE := Spaced([], String(X), [])
  const A_PAIR := LastPair([], A, [], Spaced([], EmptyArray([]), []))
  const SAMPLE: Term := Object(MorePairs([], JsonSplit.EVENT, [], X_VALUE, A_PAIR))

  /** {"event":"x","a":[]} is a message of every library that takes its strings and decodes it. */
  lemma SampleIsMessage(lib: Library)
    requires StopsAtDelimiter(lib.lex.strtod) && lib.lex.utf8([0x22] + JsonSplit.EVENT + [0x22])
    requires lib.lex.utf8([0x22] + X + [0x22]) && lib.lex.utf8([0x22] + A + [0x22]) && lib.decode(Text(SAMPLE)).Some?
    ensures Text(SAMPLE) == [0x7b, 0x22, 0x65, 0x76, 0x65, 0x6e, 0x74, 0x22, 0x3a, 0x22, 0x78, 0x22, 0x2c,
                             0x22, 0x61, 0x22, 0x3a, 0x5b, 0x5d, 0x7d]
    ensures DecodeBuffered(lib, Text(SAMPLE)) == Complete(20, lib.decode(Text(SAMPLE)).value)
  {
    SampleIsAccepted(lib.lex);
    SampleText();
    BracelessLooksComplete(lib.lex, SAMPLE);
    AloneIsMessage(lib, SAMPLE);
  }

  lemma AloneIsMessage(lib: Library, t: Term)
    requires StopsAtDelimiter(lib.lex.strtod) && Sendable(lib, t)
    ensures DecodeBuffered(lib, Text(t)) == Complete(|Text(t)|, lib.decode(Text(t)).value)
  {
    FirstIsMessage(lib, t, []);
    assert Text(t) + [] == Text(t);
  }

  lemma SampleText()
    ensures Text(SAMPLE) == [0x7b, 0x22, 0x65, 0x76, 0x65, 0x6e, 0x74, 0x22, 0x3a, 0x22, 0x78, 0x22, 0x2c,
                             0x22, 0x61, 0x22, 0x3a, 0x5b, 0x5d, 0x7d]
  {
    var w := PrintSpaced(X_VALUE, [0x2c] + PrintPairs(A_PAIR, []));
    PairText();
    ValueText(w);
    PairsText(SAMPLE.pairs, [], w);
    SampleBytes(w);
  }

  lemma PairText()
    ensures PrintPairs(A_PAIR, []) == [0x22, 0x61, 0x22, 0x3a, 0x5b, 0x5d, 0x7d]
  {
    assert PrintSpaced(A_PAIR.value, [0x7d]) == [0x5b, 0x5d, 0x7d];
    assert [0x7d] + [] == [0x7d];
  }

  lemma ValueText(w: seq<byte>)
    requires w == PrintSpaced(X_VALUE, [0x2c] + [0x22, 0x61, 0x22, 0x3a, 0x5b, 0x5d, 0x7d])
    ensures w == [0x22, 0x78, 0x22, 0x2c, 0x22, 0x61, 0x22, 0x3a, 0x5b, 0x5d, 0x7d]
  {
  }

  lemma SampleBytes(w: seq<byte>)
    requires w == [0x22, 0x78, 0x22, 0x2c, 0x22, 0x61, 0x22, 0x3a, 0x5b, 0x5d, 0x7d]
    ensures [0x7b] + ([] + PrintString(JsonSplit.EVENT, [] + ([0x3a] + w)))
         == [0x7b, 0x22, 0x65, 0x76, 0x65, 0x6e, 0x74, 0x22, 0x3a, 0x22, 0x78, 0x22, 0x2c,
             0x22, 0x61, 0x22, 0x3a, 0x5b, 0x5d, 0x7d]
  {
  }

  lemma SampleIsAccepted(lex: Lexer)
    requires lex.utf8([0x22] + JsonSplit.EVENT + [0x22]) && lex.utf8([0x22] + X + [0x22]) && lex.utf8([0x22] + A + [0x22])
    ensures Accepts(lex, SAMPLE, []) && Braceless(SAMPLE)
  {
    PlainBody(lex, JsonSplit.EVENT);
    PlainBody(lex, X);
    PlainBody(lex, A);
    AcceptsLast(lex);
    AcceptsFirst(lex);
  }

  lemma AcceptsLast(lex: Lexer)
    requires StringBody(lex, A)
    ensures AcceptsPairs(lex, A_PAIR, []) && BracelessPairs(A_PAIR)
  {
  }

  lemma AcceptsFirst(lex: Lexer)
    requires StringBody(lex, JsonSplit.EVENT) && StringBody(lex, X)
    requires AcceptsPairs(lex, A_PAIR, []) && BracelessPairs(A_PAIR)
    ensures AcceptsPairs(lex, SAMPLE.pairs, []) && BracelessPairs(SAMPLE.pairs)
  {
  }

  /** Bytes that stand for themselves may stand in a string. */
  lemma PlainBody(lex: Lexer, b: seq<byte>)
    requires JsonSplit.Plain(b) && lex.utf8([0x22] + b + [0x22])
    ensures StringBody(lex, b)
  {
    PlainCharacters(b);
  }

  lemma {:induction false} PlainCharacters(b: seq<byte>)
    requires JsonSplit.Plain(b)
    ensures Characters(b)
    decreases |b|
  {
    if b != [] { PlainCharacters(b[1..]); }
  }
}
