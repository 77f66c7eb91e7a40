/** What ov_json_grammar.c takes for a JSON value, as a grammar of its own: texts are printed from
    terms, and matching finds exactly the texts of the terms it accepts. The bytes of the grammar are
    written out.

    Beyond RFC 8259 a comma may be missing in front of an element that opens a bracket, an escaped
    u is followed by any four bytes, and the byte 1f may stand in a string. Short of it, a string
    holds no quote but behind a backslash and does not end in one. */
module JsonGrammar {
  import opened Framing
  import opened Json
  import opened Options
  import opened JsonSplit

  datatype Term =
    | EmptyObject(blank: seq<byte>)
    | Object(pairs: Pairs)
    | EmptyArray(blank: seq<byte>)
    | Array(blank: seq<byte>, terms: Terms)
    | String(body: seq<byte>)
    | Number(digits: seq<byte>)
    | Null
    | True
    | False

  /** A term and the whitespace around it. */
  datatype Spaced = Spaced(before: seq<byte>, term: Term, behind: seq<byte>)

  datatype Pairs =
    | LastPair(before: seq<byte>, key: seq<byte>, behind: seq<byte>, value: Spaced)
    | MorePairs(before: seq<byte>, key: seq<byte>, behind: seq<byte>, value: Spaced, rest: Pairs)

  datatype Terms =
    | LastTerm(value: Spaced)
    | MoreTerms(value: Spaced, comma: bool, rest: Terms)

  // ------------------------------------------------------------------- printing

  /** The text of t, and x behind it. */
  function Print(t: Term, x: seq<byte>): (s: seq<byte>)
    ensures |s| >= |x|
    decreases t
  {
    match t
    case EmptyObject(blank) => [0x7b] + (blank + ([0x7d] + x))
    case Object(pairs) => [0x7b] + PrintPairs(pairs, x)
    case EmptyArray(blank) => [0x5b] + (blank + ([0x5d] + x))
    case Array(blank, terms) => [0x5b] + (blank + PrintTerms(terms, x))
    case String(body) => PrintString(body, x)
    case Number(digits) => digits + x
    case Null => [0x6e, 0x75, 0x6c, 0x6c] + x
    case True => [0x74, 0x72, 0x75, 0x65] + x
    case False => [0x66, 0x61, 0x6c, 0x73, 0x65] + x
  }

  function PrintString(body: seq<byte>, x: seq<byte>): seq<byte> {
    [0x22] + (body + ([0x22] + x))
  }

  function PrintSpaced(v: Spaced, x: seq<byte>): (s: seq<byte>)
    ensures |s| >= |x|
    decreases v
  {
    v.before + Print(v.term, v.behind + x)
  }

  function PrintPairs(ps: Pairs, x: seq<byte>): (s: seq<byte>)
    ensures |s| > |x|
    decreases ps, 1
  {
    ps.before + PrintString(ps.key, ps.behind + ([0x3a] + PrintSpaced(ps.value, BehindPair(ps, x))))
  }

  function BehindPair(ps: Pairs, x: seq<byte>): (s: seq<byte>)
    ensures |s| > |x|
    decreases ps, 0
  {
    match ps
    case LastPair(_, _, _, _) => [0x7d] + x
    case MorePairs(_, _, _, _, rest) => [0x2c] + PrintPairs(rest, x)
  }

  function PrintTerms(ts: Terms, x: seq<byte>): (s: seq<byte>)
    ensures |s| > |x|
    decreases ts, 1
  {
    PrintSpaced(ts.value, BehindTerm(ts, x))
  }

  function BehindTerm(ts: Terms, x: seq<byte>): (s: seq<byte>)
    ensures |s| > |x|
    decreases ts, 0
  {
    match ts
    case LastTerm(_) => [0x5d] + x
    case MoreTerms(_, comma, rest) => if comma then [0x2c] + PrintTerms(rest, x) else PrintTerms(rest, x)
  }

  // ----------------------------------------------------------- printing on

  lemma Onto(a: seq<byte>, b: seq<byte>, c: seq<byte>)
    ensures a + (b + c) == (a + b) + c
  {
  }

  lemma {:induction false} PrintOn(t: Term, x: seq<byte>, y: seq<byte>)
    ensures Print(t, x + y) == Print(t, x) + y
    decreases t
  {
    match t
    case EmptyObject(blank) => ClosedOn(0x7b, blank, 0x7d, x, y);
    case Object(pairs) =>
      PairsOn(pairs, x, y);
      Onto([0x7b], PrintPairs(pairs, x), y);
    case EmptyArray(blank) => ClosedOn(0x5b, blank, 0x5d, x, y);
    case Array(blank, terms) =>
      TermsOn(terms, x, y);
      Onto(blank, PrintTerms(terms, x), y);
      Onto([0x5b], blank + PrintTerms(terms, x), y);
    case String(body) => ClosedOn(0x22, body, 0x22, x, y);
    case Number(digits) => Onto(digits, x, y);
    case Null => Onto([0x6e, 0x75, 0x6c, 0x6c], x, y);
    case True => Onto([0x74, 0x72, 0x75, 0x65], x, y);
    case False => Onto([0x66, 0x61, 0x6c, 0x73, 0x65], x, y);
  }

  lemma ClosedOn(a: byte, b: seq<byte>, c: byte, x: seq<byte>, y: seq<byte>)
    ensures [a] + (b + ([c] + (x + y))) == ([a] + (b + ([c] + x))) + y
  {
  }

  lemma {:induction false} SpacedOn(v: Spaced, x: seq<byte>, y: seq<byte>)
    ensures PrintSpaced(v, x + y) == PrintSpaced(v, x) + y
    decreases v
  {
    Onto(v.behind, x, y);
    PrintOn(v.term, v.behind + x, y);
    Onto(v.before, Print(v.term, v.behind + x), y);
  }

  lemma {:induction false} PairsOn(ps: Pairs, x: seq<byte>, y: seq<byte>)
    ensures PrintPairs(ps, x + y) == PrintPairs(ps, x) + y
    decreases ps
  {
    if ps.MorePairs? {
      PairsOn(ps.rest, x, y);
      Onto([0x2c], PrintPairs(ps.rest, x), y);
    }
    assert BehindPair(ps, x + y) == BehindPair(ps, x) + y;
    SpacedOn(ps.value, BehindPair(ps, x), y);
    var w := PrintSpaced(ps.value, BehindPair(ps, x));
    assert [0x3a] + (w + y) == ([0x3a] + w) + y;
    Onto(ps.behind, [0x3a] + w, y);
    ClosedOn(0x22, ps.key, 0x22, ps.behind + ([0x3a] + w), y);
    Onto(ps.before, PrintString(ps.key, ps.behind + ([0x3a] + w)), y);
  }

  lemma {:induction false} TermsOn(ts: Terms, x: seq<byte>, y: seq<byte>)
    ensures PrintTerms(ts, x + y) == PrintTerms(ts, x) + y
    decreases ts
  {
    if ts.MoreTerms? {
      TermsOn(ts.rest, x, y);
      Onto([0x2c], PrintTerms(ts.rest, x), y);
    }
    assert BehindTerm(ts, x + y) == BehindTerm(ts, x) + y;
    SpacedOn(ts.value, BehindTerm(ts, x), y);
  }

  function Text(t: Term): seq<byte> {
    Print(t, [])
  }

  lemma PrintIs(t: Term, x: seq<byte>)
    ensures Print(t, x) == Text(t) + x
  {
    PrintOn(t, [], x);
    assert [] + x == x;
  }

  // ------------------------------------------------------------------ well-formed terms

  predicate Blank(b: seq<byte>) {
    forall i :: 0 <= i < |b| ==> b[i] == 0x20 || b[i] == 0x09 || b[i] == 0x0a || b[i] == 0x0d
  }

  /** Bytes as they are, escapes of two bytes, and escapes of six. */
  predicate Characters(b: seq<byte>)
    decreases |b|
  {
    if b == [] then true
    else if b[0] != 0x5c then b[0] >= 0x1f && b[0] != 0x22 && Characters(b[1..])
    else if |b| < 2 then false
    else if b[1] == 0x75 then |b| >= 6 && Characters(b[6..])
    else b[1] in {0x22, 0x5c, 0x2f, 0x62, 0x66, 0x6e, 0x72, 0x74} && Characters(b[2..])
  }

  /** What may stand between two quotes. */
  predicate StringBody(lex: Lexer, b: seq<byte>) {
    && Characters(b) && lex.utf8([0x22] + b + [0x22])
    && (forall i :: 0 <= i < |b| && b[i] == 0x22 ==> i > 0 && b[i - 1] == 0x5c)
    && (b != [] ==> b[|b| - 1] != 0x5c)
  }

  predicate Digits(b: seq<byte>) {
    b != [] && (b[0] == 0x2d || 0x30 <= b[0] <= 0x39)
  }

  /** Every part of t is well formed, when x comes behind it: blanks are blank, strings are strings,
      strtod takes the digits of each number and no more, and only an object or array follows an
      element without a comma. The blanks behind an opening bracket are those of the array. */
  predicate Accepts(lex: Lexer, t: Term, x: seq<byte>)
    decreases t
  {
    match t
    case EmptyObject(blank) => Blank(blank)
    case Object(pairs) => AcceptsPairs(lex, pairs, x)
    case EmptyArray(blank) => Blank(blank)
    case Array(blank, terms) => Blank(blank) && terms.value.before == [] && AcceptsTerms(lex, terms, x)
    case String(body) => StringBody(lex, body)
    case Number(digits) => Digits(digits) && x != [] && lex.strtod(digits + x) == Some(|digits|)
    case Null | True | False => true
  }

  predicate AcceptsSpaced(lex: Lexer, v: Spaced, x: seq<byte>)
    decreases v
  {
    Blank(v.before) && Blank(v.behind) && Accepts(lex, v.term, v.behind + x)
  }

  predicate AcceptsPairs(lex: Lexer, ps: Pairs, x: seq<byte>)
    decreases ps
  {
    && Blank(ps.before) && StringBody(lex, ps.key) && Blank(ps.behind)
    && AcceptsSpaced(lex, ps.value, BehindPair(ps, x))
    && (ps.MorePairs? ==> AcceptsPairs(lex, ps.rest, x))
  }

  predicate AcceptsTerms(lex: Lexer, ts: Terms, x: seq<byte>)
    decreases ts
  {
    && AcceptsSpaced(lex, ts.value, BehindTerm(ts, x))
    && (ts.MoreTerms? ==> AcceptsTerms(lex, ts.rest, x) && (ts.comma || Bracketed(ts.rest.value)))
  }

  predicate Bracketed(v: Spaced) {
    v.before == [] && (v.term.EmptyObject? || v.term.Object? || v.term.EmptyArray? || v.term.Array?)
  }

  // ---------------------------------------------------------- a printed term is matched

  lemma {:induction false} SpaceIs(b: seq<byte>, x: seq<byte>)
    requires Blank(b) && (x == [] || !IsSpace(x[0]))
    ensures Space(b + x) == |b|
  {
    if b == [] {
      assert b + x == x;
    } else {
      assert (b + x)[1..] == b[1..] + x;
      SpaceIs(b[1..], x);
    }
  }

  /** Characters are what validation walks over. */
  lemma {:induction false} CharactersExactly(s: seq<byte>, i: nat, b: seq<byte>)
    requires i + |b| + 1 == |s| && s[i..|s| - 1] == b
    ensures ValidFrom(s, i) <==> Characters(b)
    decreases |b|
  {
    if b != [] {
      assert b[0] == s[i] && (|b| > 1 ==> b[1] == s[i + 1]);
      assert s[i + 1..|s| - 1] == b[1..];
      if b[0] != 0x5c {
        CharactersExactly(s, i + 1, b[1..]);
      } else if |b| >= 2 && b[1] != 0x75 {
        assert s[i + 2..|s| - 1] == b[2..];
        CharactersExactly(s, i + 2, b[2..]);
      } else if |b| >= 6 {
        assert s[i + 6..|s| - 1] == b[6..];
        CharactersExactly(s, i + 6, b[6..]);
      }
    }
  }

  lemma StringMatches(lex: Lexer, body: seq<byte>, x: seq<byte>)
    requires StringBody(lex, body)
    ensures MatchString(lex, PrintString(body, x)) == Closed(|body| + 2)
  {
    var s, q, n := PrintString(body, x), [0x22] + body + [0x22], |body| + 2;
    assert s == q + x;
    assert s[..n] == q && s[n - 1] == QUOTE && s[n - 2] != BACKSLASH;
    assert forall j :: 0 <= j < |body| ==> s[j + 1] == body[j];
    QuoteAt(s, 1, n - 1);
    assert q[1..|q| - 1] == body;
    CharactersExactly(q, 1, body);
  }

  /** A term starts with no blank. */
  lemma FirstByte(lex: Lexer, t: Term, x: seq<byte>)
    requires Accepts(lex, t, x)
    ensures var s := Print(t, x); |s| > |x| && !IsSpace(s[0]) && s[0] != CLOSE_BRACKET
  {
  }

  lemma MembersSkip(lex: Lexer, u: seq<byte>)
    requires Space(u) < |u|
    ensures Members(lex, u) == Shift(Space(u), Members(lex, u[Space(u)..]))
  {
    var w := u[Space(u)..];
    assert Space(w) == 0 && w[0..] == w;
  }

  lemma MembersBehind(lex: Lexer, blank: seq<byte>, u: seq<byte>)
    requires Blank(blank) && u != [] && !IsSpace(u[0])
    ensures Members(lex, blank + u) == Shift(|blank|, Members(lex, u))
  {
    SpaceIs(blank, u);
    InFront(blank, u);
    MembersSkip(lex, blank + u);
  }

  /** An object that is not empty. */
  lemma ObjectIs(lex: Lexer, u: seq<byte>)
    requires Space(u) < |u| && u[Space(u)] != CLOSE_BRACE
    ensures MatchToken(lex, [0x7b] + u) == Shift(1, Members(lex, u))
  {
    var s := [0x7b] + u;
    MembersSkip(lex, u);
    assert s[1..] == u && s[1 + Space(u)..] == u[Space(u)..];
    assert MatchToken(lex, s) == MatchObject(lex, s);
  }

  lemma EmptyObjectIs(lex: Lexer, blank: seq<byte>, x: seq<byte>)
    requires Blank(blank)
    ensures MatchToken(lex, [0x7b] + (blank + ([0x7d] + x))) == Closed(|blank| + 2)
  {
    var u := blank + ([0x7d] + x);
    var s := [0x7b] + u;
    SpaceIs(blank, [0x7d] + x);
    assert s[1..] == u;
    assert MatchToken(lex, s) == MatchObject(lex, s);
  }

  lemma EmptyArrayIs(lex: Lexer, blank: seq<byte>, x: seq<byte>)
    requires Blank(blank)
    ensures MatchToken(lex, [0x5b] + (blank + ([0x5d] + x))) == Closed(|blank| + 2)
  {
    var u := blank + ([0x5d] + x);
    var s := [0x5b] + u;
    SpaceIs(blank, [0x5d] + x);
    assert s[1..] == u;
    assert MatchToken(lex, s) == MatchArray(lex, s);
  }

  /** An array that is not empty. */
  lemma ArrayIs(lex: Lexer, blank: seq<byte>, u: seq<byte>)
    requires Blank(blank) && u != [] && !IsSpace(u[0]) && u[0] != CLOSE_BRACKET
    ensures MatchToken(lex, [0x5b] + (blank + u)) == Shift(1 + |blank|, Elements(lex, u))
  {
    var s, k := [0x5b] + (blank + u), 1 + |blank|;
    SpaceIs(blank, u);
    assert s[1..] == blank + u && s[k..] == u && s[k] == u[0];
    InsideArray(lex, s, k);
    ArrayFirst(lex, s);
  }

  lemma ArrayFirst(lex: Lexer, s: seq<byte>)
    requires s != [] && s[0] == OPEN_BRACKET
    ensures MatchToken(lex, s) == MatchArray(lex, s)
  {
  }

  lemma WordIs(lex: Lexer, word: seq<byte>, x: seq<byte>)
    requires word in {NULL, TRUE, FALSE}
    ensures MatchToken(lex, word + x) == Closed(|word|)
  {
    var s := word + x;
    assert s[0] == word[0] && word <= s;
    assert MatchToken(lex, s) == MatchLiteral(word, s);
  }

  lemma ValueIs(lex: Lexer, s: seq<byte>, k: nat, w: seq<byte>)
    requires k == Space(s) < |s| && w == s[k..]
    ensures MatchValue(lex, s) == Shift(k, MatchToken(lex, w))
  {
  }

  lemma ItemAt(lex: Lexer, s: seq<byte>, b: nat, u: seq<byte>, n: nat, y: seq<byte>, p: nat)
    requires b == Space(s) < |s| && u == s[b..] && n <= |u| && MatchToken(lex, u) == Closed(n)
    requires y == s[b + n..] && p == b + n + Space(y)
    ensures Item(lex, s) == Some(p)
  {
    ValueIs(lex, s, b, u);
    ItemIs(lex, s, Closed(b + n), p);
  }

  /** Matching finds the whole of a printed term. */
  lemma {:induction false} TermMatches(lex: Lexer, t: Term, x: seq<byte>)
    requires Accepts(lex, t, x)
    ensures |Print(t, x)| > |x| && MatchToken(lex, Print(t, x)) == Closed(|Print(t, x)| - |x|)
    decreases t, 0
  {
    match t
    case EmptyObject(blank) => EmptyObjectIs(lex, blank, x);
    case Object(pairs) =>
      FirstOfPairs(lex, pairs, x);
      PairsMatch(lex, pairs, x);
      ObjectIs(lex, PrintPairs(pairs, x));
    case EmptyArray(blank) => EmptyArrayIs(lex, blank, x);
    case Array(blank, terms) =>
      FirstOfTerms(lex, terms, x);
      TermsMatch(lex, terms, x);
      ArrayIs(lex, blank, PrintTerms(terms, x));
    case String(body) =>
      StringMatches(lex, body, x);
    case Number(digits) =>
      assert (digits + x)[0] == digits[0];
    case Null => WordIs(lex, NULL, x);
    case True => WordIs(lex, TRUE, x);
    case False => WordIs(lex, FALSE, x);
  }

  lemma FirstOfPairs(lex: Lexer, ps: Pairs, x: seq<byte>)
    requires Blank(ps.before)
    ensures var s := PrintPairs(ps, x); Space(s) == |ps.before| < |s| && s[Space(s)] == QUOTE
  {
    SpaceIs(ps.before, PrintString(ps.key, ps.behind + ([0x3a] + PrintSpaced(ps.value, BehindPair(ps, x)))));
  }

  lemma FirstOfSpaced(lex: Lexer, v: Spaced, x: seq<byte>)
    requires AcceptsSpaced(lex, v, x)
    ensures var s, u := PrintSpaced(v, x), Print(v.term, v.behind + x);
      && Space(s) == |v.before| < |s| && s[Space(s)..] == u && u != [] && s[Space(s)] == u[0] && u[0] != CLOSE_BRACKET
  {
    FirstByte(lex, v.term, v.behind + x);
    SpaceIs(v.before, Print(v.term, v.behind + x));
  }

  /** Elements start with no blank of their own if the first has none in front. */
  lemma FirstOfTerms(lex: Lexer, ts: Terms, x: seq<byte>)
    requires AcceptsTerms(lex, ts, x) && ts.value.before == []
    ensures var s := PrintTerms(ts, x); s != [] && !IsSpace(s[0]) && s[0] != CLOSE_BRACKET
  {
    FirstOfSpaced(lex, ts.value, BehindTerm(ts, x));
  }

  lemma {:induction false} SpacedMatches(lex: Lexer, v: Spaced, x: seq<byte>)
    requires AcceptsSpaced(lex, v, x) && x != [] && !IsSpace(x[0])
    ensures |PrintSpaced(v, x)| > |x| && Item(lex, PrintSpaced(v, x)) == Some(|PrintSpaced(v, x)| - |x|)
    decreases v, 1
  {
    TermStays(lex, v.term, v.behind + x);
    SpacedText(lex, v, x);
    ItemOf(lex, PrintSpaced(v, x), v.before, Text(v.term), v.behind, x, v.behind + x);
  }

  lemma {:induction false} TermStays(lex: Lexer, t: Term, x: seq<byte>)
    requires Accepts(lex, t, x)
    ensures MatchToken(lex, Text(t) + x) == Closed(|Text(t)|)
    decreases t, 1
  {
    PrintIs(t, x);
    TermMatches(lex, t, x);
  }

  lemma SpacedText(lex: Lexer, v: Spaced, x: seq<byte>)
    requires AcceptsSpaced(lex, v, x)
    ensures PrintSpaced(v, x) == v.before + (Text(v.term) + (v.behind + x)) && Text(v.term) != [] && !IsSpace(Text(v.term)[0])
    ensures |PrintSpaced(v, x)| - |x| == |v.before| + |Text(v.term)| + |v.behind|
  {
    PrintIs(v.term, v.behind + x);
    FirstByte(lex, v.term, v.behind + x);
  }

  lemma ItemOf(lex: Lexer, s: seq<byte>, before: seq<byte>, t: seq<byte>, behind: seq<byte>, x: seq<byte>, y: seq<byte>)
    requires Blank(before) && Blank(behind) && t != [] && !IsSpace(t[0]) && (x == [] || !IsSpace(x[0]))
    requires y == behind + x && s == before + (t + y) && MatchToken(lex, t + y) == Closed(|t|)
    ensures Item(lex, s) == Some(|before| + |t| + |behind|)
  {
    SpaceIs(behind, x);
    TokenThen(lex, s, before, t, y, |before| + |t| + |behind|);
  }

  lemma TokenThen(lex: Lexer, s: seq<byte>, before: seq<byte>, t: seq<byte>, y: seq<byte>, p: nat)
    requires Blank(before) && t != [] && !IsSpace(t[0]) && s == before + (t + y) && MatchToken(lex, t + y) == Closed(|t|)
    requires p == |before| + |t| + Space(y)
    ensures Item(lex, s) == Some(p)
  {
    TextParts(s, before, t, y);
    ItemAt(lex, s, |before|, t + y, |t|, y, p);
  }

  lemma TextParts(s: seq<byte>, before: seq<byte>, t: seq<byte>, y: seq<byte>)
    requires Blank(before) && t != [] && !IsSpace(t[0]) && s == before + (t + y)
    ensures Space(s) == |before| < |s| && s[|before|..] == t + y && s[|before| + |t|..] == y
  {
    SpaceIs(before, t + y);
    InFront(before, t + y);
    Ending(before, t, y);
  }

  lemma Ending(a: seq<byte>, b: seq<byte>, y: seq<byte>)
    ensures (a + (b + y))[|a| + |b|..] == y
  {
  }

  lemma KeyIs(lex: Lexer, key: seq<byte>, blank: seq<byte>, x: seq<byte>)
    requires StringBody(lex, key) && Blank(blank) && (x == [] || !IsSpace(x[0]))
    ensures var s, p := PrintString(key, blank + x), |key| + 2 + |blank|;
      Key(lex, s) == Some(p) && |s| == p + |x| && s[p..] == x
  {
    var s, n := PrintString(key, blank + x), |key| + 2;
    StringMatches(lex, key, blank + x);
    SpaceIs(blank, x);
    assert s[n..] == blank + x;
    assert s[n + |blank|..] == x;
  }

  lemma KeyFirst(lex: Lexer, s: seq<byte>, p: nat)
    requires s != [] && s[0] == QUOTE && Key(lex, s) == Some(p)
    ensures p <= |s| && Members(lex, s) == BehindKey(lex, s, p)
  {
    assert Space(s) == 0 && s[0..] == s;
  }

  lemma ColonIs(lex: Lexer, s: seq<byte>, p: nat, w: seq<byte>)
    requires s != [] && s[0] == QUOTE && Key(lex, s) == Some(p) && p <= |s| && s[p..] == [0x3a] + w && w != []
    ensures Members(lex, s) == Shift(p + 1, AfterColon(lex, w))
  {
    assert s[p] == s[p..][0] && s[p + 1..] == s[p..][1..] == w;
    BehindColon(lex, s, p);
    KeyFirst(lex, s, p);
  }

  lemma MemberIs(lex: Lexer, key: seq<byte>, blank: seq<byte>, w: seq<byte>)
    requires StringBody(lex, key) && Blank(blank) && w != []
    ensures Members(lex, PrintString(key, blank + ([0x3a] + w))) == Shift(|key| + 3 + |blank|, AfterColon(lex, w))
  {
    KeyIs(lex, key, blank, [0x3a] + w);
    ColonIs(lex, PrintString(key, blank + ([0x3a] + w)), |key| + 2 + |blank|, w);
  }

  /** The match of pairs, from the match of what follows the first colon. */
  lemma PairsAre(lex: Lexer, before: seq<byte>, key: seq<byte>, behind: seq<byte>, w: seq<byte>, m: Match)
    requires Blank(before) && StringBody(lex, key) && Blank(behind) && w != [] && AfterColon(lex, w) == m
    ensures Members(lex, before + PrintString(key, behind + ([0x3a] + w))) == Shift(|before|, Shift(|key| + 3 + |behind|, m))
  {
    MemberIs(lex, key, behind, w);
    MembersBehind(lex, before, PrintString(key, behind + ([0x3a] + w)));
  }

  lemma PairsText(ps: Pairs, x: seq<byte>, w: seq<byte>)
    requires w == PrintSpaced(ps.value, BehindPair(ps, x))
    ensures PrintPairs(ps, x) == ps.before + PrintString(ps.key, ps.behind + ([0x3a] + w)) && w != []
    ensures |PrintPairs(ps, x)| == |ps.before| + |ps.key| + 3 + |ps.behind| + |w|
  {
  }

  lemma {:induction false} PairsMatch(lex: Lexer, ps: Pairs, x: seq<byte>)
    requires AcceptsPairs(lex, ps, x)
    ensures Members(lex, PrintPairs(ps, x)) == Closed(|PrintPairs(ps, x)| - |x|)
    decreases ps, 1
  {
    var w := PrintSpaced(ps.value, BehindPair(ps, x));
    ValueMatches(lex, ps, x, w);
    PairsText(ps, x, w);
    PairsAre(lex, ps.before, ps.key, ps.behind, w, Closed(|w| - |x|));
  }

  lemma {:induction false} ValueMatches(lex: Lexer, ps: Pairs, x: seq<byte>, w: seq<byte>)
    requires AcceptsPairs(lex, ps, x) && w == PrintSpaced(ps.value, BehindPair(ps, x))
    ensures w != [] && |w| >= |x| && AfterColon(lex, w) == Closed(|w| - |x|)
    decreases ps, 0, 1
  {
    var y := BehindPair(ps, x);
    PairValue(lex, ps, x, y);
    FirstValueMatches(lex, ps.value, w, y);
    PairMatches(lex, ps, x, w, y, |w| - |y|);
    ItemThen(lex, w, |w| - |y|, Closed(|w| - |x|));
  }

  lemma PairValue(lex: Lexer, ps: Pairs, x: seq<byte>, y: seq<byte>)
    requires AcceptsPairs(lex, ps, x) && y == BehindPair(ps, x)
    ensures AcceptsSpaced(lex, ps.value, y) && y != [] && !IsSpace(y[0])
  {
  }

  lemma {:induction false} FirstValueMatches(lex: Lexer, v: Spaced, w: seq<byte>, y: seq<byte>)
    requires AcceptsSpaced(lex, v, y) && w == PrintSpaced(v, y) && y != [] && !IsSpace(y[0])
    ensures |w| > |y| && Item(lex, w) == Some(|w| - |y|) && w[|w| - |y|..] == y
    decreases v, 2
  {
    SpacedMatches(lex, v, y);
    PrintSpacedIs(v, y);
  }

  lemma ItemThen(lex: Lexer, w: seq<byte>, p: nat, m: Match)
    requires w != [] && Item(lex, w) == Some(p) && p <= |w| && BehindMember(lex, w, p) == m
    ensures AfterColon(lex, w) == m
  {
  }

  lemma {:induction false} PairMatches(lex: Lexer, ps: Pairs, x: seq<byte>, w: seq<byte>, y: seq<byte>, p: nat)
    requires AcceptsPairs(lex, ps, x) && y == BehindPair(ps, x) && p <= |w| && w[p..] == y
    ensures BehindMember(lex, w, p) == Closed(|w| - |x|)
    decreases ps, 0, 0
  {
    match ps
    case LastPair(_, _, _, _) => BehindLastPair(lex, w, p, x);
    case MorePairs(_, _, _, _, rest) =>
      PairsMatch(lex, rest, x);
      BehindMorePairs(lex, w, p, PrintPairs(rest, x));
  }

  lemma BehindLastPair(lex: Lexer, w: seq<byte>, p: nat, x: seq<byte>)
    requires p <= |w| && w[p..] == [0x7d] + x
    ensures BehindMember(lex, w, p) == Closed(|w| - |x|)
  {
    assert w[p] == w[p..][0];
  }

  lemma BehindMorePairs(lex: Lexer, w: seq<byte>, p: nat, r: seq<byte>)
    requires p <= |w| && r != [] && w[p..] == [0x2c] + r
    ensures |w| == p + 1 + |r| && BehindMember(lex, w, p) == Shift(p + 1, Members(lex, r))
  {
    assert w[p] == w[p..][0] && w[p + 1..] == w[p..][1..] == r;
    BehindComma(lex, w, p);
  }

  lemma PrintSpacedIs(v: Spaced, x: seq<byte>)
    ensures var s := PrintSpaced(v, x); s[|s| - |x|..] == x
  {
    SpacedOn(v, [], x);
    assert [] + x == x;
  }

  lemma ElementsAre(lex: Lexer, s: seq<byte>, p: nat)
    requires s != [] && Item(lex, s) == Some(p)
    ensures p <= |s| && (p + 1 < |s| && Opens(s[p]) ==> p > 0) && Elements(lex, s) == BehindElement(lex, s, p)
  {
  }

  lemma {:induction false} TermsMatch(lex: Lexer, ts: Terms, x: seq<byte>)
    requires AcceptsTerms(lex, ts, x)
    ensures Elements(lex, PrintTerms(ts, x)) == Closed(|PrintTerms(ts, x)| - |x|)
    decreases ts, 1
  {
    var w, y := PrintTerms(ts, x), BehindTerm(ts, x);
    FirstTermMatches(lex, ts, x, w, y);
    ElementsAre(lex, w, |w| - |y|);
    ElementMatches(lex, ts, x, w, y, |w| - |y|);
  }

  lemma {:induction false} FirstTermMatches(lex: Lexer, ts: Terms, x: seq<byte>, w: seq<byte>, y: seq<byte>)
    requires AcceptsTerms(lex, ts, x) && w == PrintTerms(ts, x) && y == BehindTerm(ts, x)
    ensures |w| > |y| && Item(lex, w) == Some(|w| - |y|) && w[|w| - |y|..] == y
    decreases ts, 0
  {
    FirstOfTail(lex, ts, x);
    SpacedMatches(lex, ts.value, y);
    PrintSpacedIs(ts.value, y);
  }

  lemma {:induction false} ElementMatches(lex: Lexer, ts: Terms, x: seq<byte>, w: seq<byte>, y: seq<byte>, p: nat)
    requires AcceptsTerms(lex, ts, x) && y == BehindTerm(ts, x) && 0 < p <= |w| && w[p..] == y
    ensures BehindElement(lex, w, p) == Closed(|w| - |x|)
    decreases ts, 0
  {
    match ts
    case LastTerm(_) => BehindLast(lex, w, p, x);
    case MoreTerms(_, comma, rest) =>
      FirstOfTail(lex, ts, x);
      TermsMatch(lex, rest, x);
      BehindMore(lex, w, p, comma, PrintTerms(rest, x));
  }

  lemma BehindLast(lex: Lexer, w: seq<byte>, p: nat, x: seq<byte>)
    requires 0 < p <= |w| && w[p..] == [0x5d] + x
    ensures BehindElement(lex, w, p) == Closed(|w| - |x|)
  {
    assert w[p] == w[p..][0];
  }

  lemma BehindMore(lex: Lexer, w: seq<byte>, p: nat, comma: bool, r: seq<byte>)
    requires 0 < p <= |w| && r != [] && w[p..] == (if comma then [0x2c] + r else r) && (comma || (Opens(r[0]) && |r| > 1))
    ensures BehindElement(lex, w, p) == Shift(|w| - |r|, Elements(lex, r))
  {
    assert w[p] == w[p..][0];
    var k := if comma then p + 1 else p;
    assert w[k..] == r;
    NextElementBack(lex, w, p, k);
  }

  lemma FirstOfTail(lex: Lexer, ts: Terms, x: seq<byte>)
    requires AcceptsTerms(lex, ts, x)
    ensures var y := BehindTerm(ts, x); y != [] && !IsSpace(y[0])
    ensures ts.MoreTerms? && !ts.comma ==> Opens(BehindTerm(ts, x)[0]) && |BehindTerm(ts, x)| > 1
  {
    if ts.MoreTerms? && !ts.comma {
      FirstOfSpaced(lex, ts.rest.value, BehindTerm(ts.rest, x));
    }
  }

  // ------------------------------------------------------- what is matched is a printed term

  lemma {:induction false} SpaceIsBlank(s: seq<byte>)
    ensures Blank(s[..Space(s)])
  {
    if s != [] && IsSpace(s[0]) {
      SpaceIsBlank(s[1..]);
      assert s[..Space(s)] == [s[0]] + s[1..][..Space(s[1..])];
    }
  }

  lemma {:induction false} NoQuoteBefore(s: seq<byte>, i: nat, j: nat)
    requires 1 <= i <= j < |s| && j < QuoteFrom(s, i)
    ensures s[j] == QUOTE ==> s[j - 1] == BACKSLASH
    decreases |s| - i
  {
    if i < j { NoQuoteBefore(s, i + 1, j); }
  }

  lemma StringOf(lex: Lexer, s: seq<byte>, n: nat)
    requires s != [] && MatchString(lex, s) == Closed(n)
    ensures 2 <= n <= |s| && StringBody(lex, s[1..n - 1]) && s == PrintString(s[1..n - 1], s[n..])
  {
    var q, body := s[..n], s[1..n - 1];
    Enclosed(s, n, q, body);
    CharactersExactly(q, 1, body);
    forall i | 0 <= i < |body| && body[i] == 0x22
      ensures i > 0 && body[i - 1] == 0x5c
    {
      assert body[i] == s[i + 1];
      NoQuoteBefore(s, 1, i + 1);
    }
  }

  lemma Enclosed(s: seq<byte>, n: nat, q: seq<byte>, body: seq<byte>)
    requires 2 <= n <= |s| && s[0] == s[n - 1] == 0x22 && q == s[..n] && body == s[1..n - 1]
    ensures s == PrintString(body, s[n..]) && q == [0x22] + body + [0x22] && q[1..|q| - 1] == body
  {
  }

  lemma Word(lex: Lexer, word: seq<byte>, s: seq<byte>, n: nat)
    requires word in {NULL, TRUE, FALSE} && s != [] && s[0] == word[0] && MatchToken(lex, s) == Closed(n)
    ensures n == |word| <= |s| && s == word + s[n..]
  {
    assert MatchToken(lex, s) == MatchLiteral(word, s);
    assert s == s[..n] + s[n..];
  }

  lemma Later(s: seq<byte>, i: nat, j: nat)
    requires i + j <= |s|
    ensures s[i..][j..] == s[i + j..]
  {
  }

  lemma SplitAt(s: seq<byte>, i: nat, j: nat)
    requires i <= j < |s|
    ensures s[i..] == s[i..j] + ([s[j]] + s[j + 1..])
  {
  }

  /** Whatever is matched as a value in front of x is a printed term. */
  lemma {:induction false} TermOf(lex: Lexer, s: seq<byte>, n: nat, x: seq<byte>) returns (t: Term)
    requires s != [] && MatchToken(lex, s) == Closed(n) && 0 < n <= |s| && x == s[n..]
    ensures s == Print(t, x) && Accepts(lex, t, x)
    decreases |s|, 2
  {
    var c := s[0];
    if c == OPEN_BRACE {
      t := ObjectTerm(lex, s, n, x);
    } else if c == OPEN_BRACKET {
      t := ArrayTerm(lex, s, n, x);
    } else {
      t := SimpleTerm(lex, s, n, x);
    }
  }

  lemma SimpleTerm(lex: Lexer, s: seq<byte>, n: nat, x: seq<byte>) returns (t: Term)
    requires s != [] && !Opens(s[0]) && MatchToken(lex, s) == Closed(n) && 0 < n <= |s| && x == s[n..]
    ensures s == Print(t, x) && Accepts(lex, t, x)
  {
    var c := s[0];
    if c == QUOTE {
      StringOf(lex, s, n);
      t := String(s[1..n - 1]);
    } else if c == NULL[0] {
      Word(lex, NULL, s, n);
      t := Null;
    } else if c == TRUE[0] {
      Word(lex, TRUE, s, n);
      t := True;
    } else if c == FALSE[0] {
      Word(lex, FALSE, s, n);
      t := False;
    } else {
      t := Number(s[..n]);
      assert s == s[..n] + s[n..] && s[..n][0] == s[0];
      assert MatchToken(lex, s) == MatchNumber(lex, s);
    }
  }

  lemma InsideObject(lex: Lexer, s: seq<byte>, n: nat)
    requires s != [] && s[0] == OPEN_BRACE && MatchToken(lex, s) == Closed(n)
    ensures var k := 1 + Space(s[1..]);
      k < |s| && if s[k] == CLOSE_BRACE then n == k + 1 else n > 0 && Members(lex, s[1..]) == Closed(n - 1)
  {
    var k := 1 + Space(s[1..]);
    assert MatchToken(lex, s) == MatchObject(lex, s);
    if k < |s| {
      assert s[1..][k - 1..] == s[k..];
      MembersSkip(lex, s[1..]);
    }
  }

  lemma {:induction false} ObjectTerm(lex: Lexer, s: seq<byte>, n: nat, x: seq<byte>) returns (t: Term)
    requires s != [] && s[0] == OPEN_BRACE && MatchToken(lex, s) == Closed(n) && n <= |s| && x == s[n..]
    ensures s == Print(t, x) && Accepts(lex, t, x) && (t.EmptyObject? || t.Object?)
    decreases |s|, 1
  {
    InsideObject(lex, s, n);
    var k := 1 + Space(s[1..]);
    if s[k] == CLOSE_BRACE {
      t := EmptyObject(s[1..k]);
      EmptyFrom(s, n, k);
    } else {
      Later(s, 1, n - 1);
      var ps := PairsOf(lex, s[1..], n - 1, x);
      t := Object(ps);
      First(s, s[1..]);
    }
  }

  lemma EmptyFrom(s: seq<byte>, n: nat, k: nat)
    requires s != [] && k == 1 + Space(s[1..]) < |s| && n == k + 1
    ensures Blank(s[1..k]) && s == [s[0]] + (s[1..k] + ([s[k]] + s[n..]))
  {
    BlankBehind(s, 1, k);
  }

  lemma First(s: seq<byte>, u: seq<byte>)
    requires s != [] && u == s[1..]
    ensures s == [s[0]] + u
  {
  }

  lemma InsideOfArray(lex: Lexer, s: seq<byte>, n: nat)
    requires s != [] && s[0] == OPEN_BRACKET && MatchToken(lex, s) == Closed(n)
    ensures var k := 1 + Space(s[1..]);
      k < |s| && !IsSpace(s[k]) && if s[k] == CLOSE_BRACKET then n == k + 1 else n > k && Elements(lex, s[k..]) == Closed(n - k)
  {
    var k := 1 + Space(s[1..]);
    ArrayFirst(lex, s);
    if k < |s| && s[k] != CLOSE_BRACKET { InsideArray(lex, s, k); }
  }

  lemma {:induction false} ArrayTerm(lex: Lexer, s: seq<byte>, n: nat, x: seq<byte>) returns (t: Term)
    requires s != [] && s[0] == OPEN_BRACKET && MatchToken(lex, s) == Closed(n) && n <= |s| && x == s[n..]
    ensures s == Print(t, x) && Accepts(lex, t, x)
    decreases |s|, 1
  {
    InsideOfArray(lex, s, n);
    var k := 1 + Space(s[1..]);
    if s[k] == CLOSE_BRACKET {
      t := EmptyArray(s[1..k]);
      EmptyFrom(s, n, k);
    } else {
      Later(s, k, n - k);
      var ts := TermsOf(lex, s[k..], n - k, x);
      NoBlankInFront(lex, ts, x, s[k..]);
      t := Array(s[1..k], ts);
      FullFrom(s, k);
    }
  }

  lemma FullFrom(s: seq<byte>, k: nat)
    requires s != [] && k == 1 + Space(s[1..]) <= |s|
    ensures Blank(s[1..k]) && s == [s[0]] + (s[1..k] + s[k..])
  {
    BlankBehind(s, 1, k);
  }

  lemma NoBlankInFront(lex: Lexer, ts: Terms, x: seq<byte>, u: seq<byte>)
    requires AcceptsTerms(lex, ts, x) && u == PrintTerms(ts, x) && u != [] && !IsSpace(u[0])
    ensures ts.value.before == []
  {
    FirstOfSpaced(lex, ts.value, BehindTerm(ts, x));
  }

  /** An item that does not stop at the end of the data. */
  lemma {:induction false} SpacedOf(lex: Lexer, s: seq<byte>, p: nat, x: seq<byte>) returns (v: Spaced)
    requires s != [] && Item(lex, s) == Some(p) && EndsAt(s, p) && !(Opens(s[p]) && p + 1 == |s|) && x == s[p..]
    ensures s == PrintSpaced(v, x) && AcceptsSpaced(lex, v, x)
    decreases |s|, 3
  {
    var b, n := Space(s), MatchValue(lex, s).n;
    ItemEnds(lex, s, p);
    ItemIs(lex, s, Closed(n), n + Space(s[n..]));
    TokenMoves(lex, s, p, n);
    Around(s, b, n, p);
    var t := TermOf(lex, s[b..], n - b, s[n..p] + x);
    v := Spaced(s[..b], t, s[n..p]);
  }

  lemma Around(s: seq<byte>, b: nat, n: nat, p: nat)
    requires b == Space(s) <= n <= p < |s| && p == n + Space(s[n..])
    ensures s == s[..b] + s[b..] && s[b..][n - b..] == s[n..p] + s[p..] && Blank(s[..b]) && Blank(s[n..p])
  {
    SpaceIsBlank(s);
    BlankBehind(s, n, p);
    AroundIs(s, b, n, p);
  }

  lemma AroundIs(s: seq<byte>, b: nat, n: nat, p: nat)
    requires b <= n <= p <= |s|
    ensures s == s[..b] + s[b..] && s[b..][n - b..] == s[n..p] + s[p..]
  {
  }

  lemma BlankBehind(s: seq<byte>, n: nat, p: nat)
    requires n <= p <= |s| && p == n + Space(s[n..])
    ensures Blank(s[n..p])
  {
    SpaceIsBlank(s[n..]);
    assert s[n..][..p - n] == s[n..p];
  }

  lemma TokenMoves(lex: Lexer, s: seq<byte>, p: nat, n: nat)
    requires s != [] && MatchValue(lex, s) == Closed(n) && n <= p == n + Space(s[n..]) && EndsAt(s, p)
    ensures Space(s) < |s| && n > Space(s) && MatchToken(lex, s[Space(s)..]) == Closed(n - Space(s))
  {
    var b := Space(s);
    assert MatchToken(lex, s[b..]) == Closed(n - b);
    if n == b {
      assert s[n..][0] == s[n];
      NothingTaken(lex, s[b..]);
    }
  }

  /** Only strtod may take nothing. */
  lemma NothingTaken(lex: Lexer, s: seq<byte>)
    requires s != [] && MatchToken(lex, s) == Closed(0)
    ensures !Delimits(s[0])
  {
  }

  lemma {:induction false} PairsOf(lex: Lexer, u: seq<byte>, n: nat, x: seq<byte>) returns (ps: Pairs)
    requires u != [] && Members(lex, u) == Closed(n) && n <= |u| && x == u[n..]
    ensures u == PrintPairs(ps, x) && AcceptsPairs(lex, ps, x)
    decreases |u|, 4
  {
    MemberBehind(lex, u, n);
    var k := Space(u);
    var v := u[k..];
    var m, p := MatchString(lex, v).n, Key(lex, v).value;
    KeyEnds(lex, v, m, p);
    ps := PairsAtKey(lex, u, k, v, m, p, n, x, v[1..m - 1], v[m..p], v[p + 1..]);
  }

  lemma {:induction false} PairsAtKey(lex: Lexer, u: seq<byte>, k: nat, v: seq<byte>, m: nat, p: nat, n: nat, x: seq<byte>,
                                      key: seq<byte>, behind: seq<byte>, w: seq<byte>) returns (ps: Pairs)
    requires k == Space(u) < |u| && v == u[k..] && k <= n <= |u| && x == u[n..]
    requires Key(lex, v) == Some(p) && BehindKey(lex, v, p) == Closed(n - k) && m == MatchString(lex, v).n && 2 <= m <= p < |v|
    requires key == v[1..m - 1] && behind == v[m..p] && w == v[p + 1..]
    ensures u == PrintPairs(ps, x) && AcceptsPairs(lex, ps, x)
    decreases |u|, 3
  {
    KeyOf(lex, v, m, p, n - k, key, behind, w);
    ps := PairsFrom(lex, u, k, v, m, p, n, x, u[..k], key, behind, w, n - k - p - 1);
  }

  lemma {:induction false} PairsFrom(lex: Lexer, u: seq<byte>, k: nat, v: seq<byte>, m: nat, p: nat, n: nat, x: seq<byte>,
                                     before: seq<byte>, key: seq<byte>, behind: seq<byte>, w: seq<byte>, r: nat) returns (ps: Pairs)
    requires k == Space(u) && v == u[k..] && m <= p && k + p < n <= |u| && v[p] == 0x3a && x == u[n..]
    requires before == u[..k] && behind == v[m..p] && w == v[p + 1..] && v == PrintString(key, v[m..]) && r == n - k - p - 1
    requires StringBody(lex, key) && Blank(behind) && w != [] && AfterColon(lex, w) == Closed(r)
    ensures u == PrintPairs(ps, x) && AcceptsPairs(lex, ps, x)
    decreases |u|, 2
  {
    PairText(u, k, v, m, p, n, before, key, behind, w);
    ps := PairAt(lex, before, key, behind, w, r, x, u);
  }

  lemma PairText(u: seq<byte>, k: nat, v: seq<byte>, m: nat, p: nat, n: nat,
                 before: seq<byte>, key: seq<byte>, behind: seq<byte>, w: seq<byte>)
    requires k == Space(u) && v == u[k..] && m <= p && k + p < n <= |u| && v[p] == 0x3a
    requires before == u[..k] && behind == v[m..p] && w == v[p + 1..] && v == PrintString(key, v[m..])
    ensures Blank(before) && u == before + PrintString(key, behind + ([0x3a] + w)) && |w| < |u|
    ensures n - k - p - 1 <= |w| && w[n - k - p - 1..] == u[n..]
  {
    SpaceIsBlank(u);
    Halves(u, k);
    SplitAt(v, m, p);
    LaterTwice(u, k, v, p + 1, n - k - p - 1);
  }

  lemma Halves(u: seq<byte>, k: nat)
    requires k <= |u|
    ensures u == u[..k] + u[k..]
  {
  }

  lemma LaterTwice(u: seq<byte>, k: nat, v: seq<byte>, i: nat, j: nat)
    requires k + i + j <= |u| && v == u[k..]
    ensures v[i..][j..] == u[k + i + j..]
  {
  }

  /** A pair up to its colon, and the text behind it: a value, and the pairs behind a comma if there is one. */
  lemma {:induction false} PairAt(lex: Lexer, before: seq<byte>, key: seq<byte>, behind: seq<byte>, w: seq<byte>, r: nat,
                                  x: seq<byte>, u: seq<byte>) returns (ps: Pairs)
    requires Blank(before) && StringBody(lex, key) && Blank(behind)
    requires w != [] && AfterColon(lex, w) == Closed(r) && r <= |w| && x == w[r..]
    requires u == before + PrintString(key, behind + ([0x3a] + w))
    ensures u == PrintPairs(ps, x) && AcceptsPairs(lex, ps, x)
    decreases |w|, 5
  {
    HasItem(lex, w, r);
    var q := Item(lex, w).value;
    BehindValue(lex, w, r, q);
    var value := SpacedOf(lex, w, q, w[q..]);
    ps := PairEnd(lex, before, key, behind, w, q, value, r, x);
  }

  lemma {:induction false} PairEnd(lex: Lexer, before: seq<byte>, key: seq<byte>, behind: seq<byte>, w: seq<byte>, q: nat,
                                   value: Spaced, r: nat, x: seq<byte>) returns (ps: Pairs)
    requires Blank(before) && StringBody(lex, key) && Blank(behind) && q < r <= |w| && x == w[r..]
    requires w == PrintSpaced(value, w[q..]) && AcceptsSpaced(lex, value, w[q..])
    requires if w[q] == CLOSE_BRACE then r == q + 1
             else w[q] == COMMA && q + 1 < |w| && Members(lex, w[q + 1..]) == Closed(r - q - 1)
    ensures PrintPairs(ps, x) == before + PrintString(key, behind + ([0x3a] + w)) && AcceptsPairs(lex, ps, x)
    decreases |w|, 4
  {
    LastFrom(w, q + 1, q);
    if w[q] == CLOSE_BRACE {
      ps := LastPair(before, key, behind, value);
      IsPairs(lex, ps, w, w[q..], x);
    } else {
      Later(w, q + 1, r - q - 1);
      var rest := PairsOf(lex, w[q + 1..], r - q - 1, x);
      ps := MorePairs(before, key, behind, value, rest);
      IsMorePairs(lex, ps, w, q, x);
    }
  }

  lemma IsMorePairs(lex: Lexer, ps: Pairs, w: seq<byte>, q: nat, x: seq<byte>)
    requires ps.MorePairs? && Blank(ps.before) && StringBody(lex, ps.key) && Blank(ps.behind)
    requires q < |w| && w[q] == 0x2c && w[q + 1..] == PrintPairs(ps.rest, x) && AcceptsPairs(lex, ps.rest, x)
    requires w == PrintSpaced(ps.value, w[q..]) && AcceptsSpaced(lex, ps.value, w[q..])
    ensures PrintPairs(ps, x) == ps.before + PrintString(ps.key, ps.behind + ([0x3a] + w)) && AcceptsPairs(lex, ps, x)
  {
    LastFrom(w, q + 1, q);
    IsPairs(lex, ps, w, w[q..], x);
  }

  lemma IsPairs(lex: Lexer, ps: Pairs, w: seq<byte>, y: seq<byte>, x: seq<byte>)
    requires Blank(ps.before) && StringBody(lex, ps.key) && Blank(ps.behind)
    requires y == if ps.MorePairs? then [0x2c] + PrintPairs(ps.rest, x) else [0x7d] + x
    requires ps.MorePairs? ==> AcceptsPairs(lex, ps.rest, x)
    requires w == PrintSpaced(ps.value, y) && AcceptsSpaced(lex, ps.value, y)
    ensures PrintPairs(ps, x) == ps.before + PrintString(ps.key, ps.behind + ([0x3a] + w)) && AcceptsPairs(lex, ps, x)
  {
  }

  lemma HasItem(lex: Lexer, w: seq<byte>, r: nat)
    requires w != [] && AfterColon(lex, w) == Closed(r)
    ensures Item(lex, w).Some? && Item(lex, w).value <= |w| && BehindMember(lex, w, Item(lex, w).value) == Closed(r)
  {
  }

  lemma BehindValue(lex: Lexer, w: seq<byte>, r: nat, q: nat)
    requires q <= |w| && BehindMember(lex, w, q) == Closed(r)
    ensures q < r <= |w| && EndsAt(w, q) && !(Opens(w[q]) && q + 1 == |w|)
    ensures if w[q] == CLOSE_BRACE then r == q + 1
            else w[q] == COMMA && q + 1 < |w| && Members(lex, w[q + 1..]) == Closed(r - q - 1)
  {
    if q + 1 < |w| && w[q] == COMMA { BehindComma(lex, w, q); }
  }

  lemma MemberBehind(lex: Lexer, u: seq<byte>, n: nat)
    requires u != [] && Members(lex, u) == Closed(n)
    ensures var k := Space(u); k < |u| && k <= n <= |u|
    ensures var v := u[Space(u)..]; Key(lex, v).Some? && BehindKey(lex, v, Key(lex, v).value) == Closed(n - Space(u))
  {
  }

  lemma KeyEnds(lex: Lexer, v: seq<byte>, m: nat, p: nat)
    requires v != [] && Key(lex, v) == Some(p) && p <= |v| && BehindKey(lex, v, p).Closed? && m == MatchString(lex, v).n
    ensures 2 <= m <= p < |v| && MatchString(lex, v) == Closed(m) && p == m + Space(v[m..])
  {
    if MatchString(lex, v).Closed? { StringOf(lex, v, m); }
  }

  lemma KeyOf(lex: Lexer, v: seq<byte>, m: nat, p: nat, n: nat, key: seq<byte>, behind: seq<byte>, w: seq<byte>)
    requires v != [] && Key(lex, v) == Some(p) && p < |v| && BehindKey(lex, v, p) == Closed(n) && m == MatchString(lex, v).n
    requires 2 <= m <= p && key == v[1..m - 1] && behind == v[m..p] && w == v[p + 1..]
    ensures StringBody(lex, key) && v == PrintString(key, v[m..])
    ensures Blank(behind) && v[p] == 0x3a && w != [] && p < n <= |v| && AfterColon(lex, w) == Closed(n - p - 1)
  {
    KeyEnds(lex, v, m, p);
    StringOf(lex, v, m);
    BlankBehind(v, m, p);
    BehindColon(lex, v, p);
  }

  lemma {:induction false} TermsOf(lex: Lexer, u: seq<byte>, n: nat, x: seq<byte>) returns (ts: Terms)
    requires u != [] && Elements(lex, u) == Closed(n) && n <= |u| && x == u[n..]
    ensures u == PrintTerms(ts, x) && AcceptsTerms(lex, ts, x)
    decreases |u|, 4
  {
    var p := Item(lex, u).value;
    ElementsAre(lex, u, p);
    EndOfElement(lex, u, n, p);
    var value := SpacedOf(lex, u, p, u[p..]);
    if u[p] == CLOSE_BRACKET {
      LastFrom(u, n, p);
      ts := LastTerm(value);
    } else {
      ts := NextTerms(lex, u, n, p, x, value);
    }
  }

  lemma {:induction false} NextTerms(lex: Lexer, u: seq<byte>, n: nat, p: nat, x: seq<byte>, value: Spaced) returns (ts: Terms)
    requires p < |u| && (p + 1 < |u| && Opens(u[p]) ==> p > 0) && u[p] != CLOSE_BRACKET
    requires BehindElement(lex, u, p) == Closed(n) && n <= |u| && x == u[n..]
    requires u == PrintSpaced(value, u[p..]) && AcceptsSpaced(lex, value, u[p..])
    ensures u == PrintTerms(ts, x) && AcceptsTerms(lex, ts, x)
    decreases |u|, 3
  {
    var k := if u[p] == COMMA then p + 1 else p;
    NextElement(lex, u, p, k, n);
    ts := TermsAt(lex, u, p, k, n, x, value);
  }

  lemma {:induction false} TermsAt(lex: Lexer, u: seq<byte>, p: nat, k: nat, n: nat, x: seq<byte>, value: Spaced)
    returns (ts: Terms)
    requires p < |u| && k == (if u[p] == COMMA then p + 1 else p) && (u[p] == COMMA || Opens(u[p]))
    requires 0 < k < n <= |u| && Elements(lex, u[k..]) == Closed(n - k) && x == u[n..]
    requires u == PrintSpaced(value, u[p..]) && AcceptsSpaced(lex, value, u[p..])
    ensures u == PrintTerms(ts, x) && AcceptsTerms(lex, ts, x)
    decreases |u|, 2
  {
    Later(u, k, n - k);
    var rest := TermsOf(lex, u[k..], n - k, x);
    TermsFrom(lex, u, p, u[k..], value, rest, x);
    ts := MoreTerms(value, u[p] == COMMA, rest);
  }

  lemma LastFrom(u: seq<byte>, n: nat, p: nat)
    requires p < |u| && n == p + 1
    ensures u[p..] == [u[p]] + u[n..]
  {
  }

  lemma TermsFrom(lex: Lexer, u: seq<byte>, p: nat, r: seq<byte>, value: Spaced, rest: Terms, x: seq<byte>)
    requires p < |u| && r == (if u[p] == COMMA then u[p + 1..] else u[p..]) && (u[p] == COMMA || Opens(u[p]))
    requires u == PrintSpaced(value, u[p..]) && AcceptsSpaced(lex, value, u[p..])
    requires r == PrintTerms(rest, x) && AcceptsTerms(lex, rest, x)
    ensures var ts := MoreTerms(value, u[p] == COMMA, rest); u == PrintTerms(ts, x) && AcceptsTerms(lex, ts, x)
  {
    LastFrom(u, p + 1, p);
    if u[p] != COMMA { IsBracketed(lex, rest.value, r, BehindTerm(rest, x)); }
    assert BehindTerm(MoreTerms(value, u[p] == COMMA, rest), x) == u[p..];
  }

  lemma EndOfElement(lex: Lexer, u: seq<byte>, n: nat, p: nat)
    requires p <= |u| && (p + 1 < |u| && Opens(u[p]) ==> p > 0) && BehindElement(lex, u, p) == Closed(n)
    ensures p < n <= |u| && EndsAt(u, p) && !(Opens(u[p]) && p + 1 == |u|) && (u[p] == CLOSE_BRACKET ==> n == p + 1)
  {
  }

  lemma IsBracketed(lex: Lexer, v: Spaced, s: seq<byte>, x: seq<byte>)
    requires AcceptsSpaced(lex, v, x) && s == PrintSpaced(v, x) && s != [] && Opens(s[0])
    ensures Bracketed(v)
  {
    FirstOfSpaced(lex, v, x);
    assert s == Print(v.term, v.behind + x);
  }
}
