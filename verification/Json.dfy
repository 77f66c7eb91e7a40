/** The scanner of the buffering JSON parser: decode_buffered (ov_parser_json.c) on top of the
    matching of ov_json_grammar.c.

    The byte behind the buffered data is taken to be zero, so that the loops that look one byte
    ahead of the data stop there. What is not modelled is a parameter: the validation of UTF-8
    and strtod, in a Lexer, and the decoding of a text that has been matched, in a Library. */
module Json {
  import opened Options
  import opened Framing

  const QUOTE: byte := 0x22
  const BACKSLASH: byte := 0x5c
  const OPEN_BRACE: byte := 0x7b
  const CLOSE_BRACE: byte := 0x7d
  const OPEN_BRACKET: byte := 0x5b
  const CLOSE_BRACKET: byte := 0x5d
  const COMMA: byte := 0x2c
  const COLON: byte := 0x3a

  /** strtod gives the number of bytes it takes, or None if it sets errno. */
  datatype Lexer = Lexer(utf8: seq<byte> -> bool, strtod: seq<byte> -> Option<nat>)

  /** decode is what ov_json_parser_decode makes of a text. */
  datatype Library = Library(lex: Lexer, decode: seq<byte> -> Option<Value>)

  /** The end of a match: none, the data ends before the value does, or the value ends. n is how
      far the matching has moved on. */
  datatype Match = Bad | Open(n: nat) | Closed(n: nat)

  function Shift(k: nat, m: Match): Match {
    match m
    case Bad => Bad
    case Open(n) => Open(k + n)
    case Closed(n) => Closed(k + n)
  }

  predicate IsSpace(c: byte) {
    c == 0x20 || c == 0x09 || c == 0x0a || c == 0x0d
  }

  predicate Opens(c: byte) {
    c == OPEN_BRACE || c == OPEN_BRACKET
  }

  /** The bytes that may follow a value. */
  predicate Delimits(c: byte) {
    IsSpace(c) || c == COMMA || c == CLOSE_BRACE || c == CLOSE_BRACKET || Opens(c)
  }

  /** The length of the whitespace in front. */
  function Space(s: seq<byte>): (k: nat)
    ensures k <= |s| && (k < |s| ==> !IsSpace(s[k]))
  {
    if s == [] || !IsSpace(s[0]) then 0 else 1 + Space(s[1..])
  }

  /** Matching stays inside the data, and leaves at most one opening bracket if the data ends first. */
  predicate Fits(s: seq<byte>, m: Match) {
    match m
    case Bad => true
    case Open(n) => n == |s| || (n + 1 == |s| && Opens(s[n]))
    case Closed(n) => n <= |s|
  }

  // -------------------------------------------------------- strings, literals, numbers

  /** match_string looks for a quote without a backslash before it, and stops at the last byte. */
  function QuoteFrom(s: seq<byte>, i: nat): (r: nat)
    requires 1 <= i < |s|
    ensures i <= r < |s|
    decreases |s| - i
  {
    if i == |s| - 1 || (s[i] == QUOTE && s[i - 1] != BACKSLASH) then i else QuoteFrom(s, i + 1)
  }

  const ESCAPED: set<byte> := {0x22, 0x5c, 0x2f, 0x62, 0x66, 0x6e, 0x72, 0x74}
  const UNICODE: byte := 0x75

  /** The loop of ov_json_validate_string, for a text with both its quotes. */
  predicate ValidFrom(s: seq<byte>, i: nat)
    decreases |s| - i
  {
    if i + 1 >= |s| then true
    else if s[i] == BACKSLASH then
      i + 2 < |s| &&
      if s[i + 1] in ESCAPED then ValidFrom(s, i + 2)
      else s[i + 1] == UNICODE && i + 6 < |s| && ValidFrom(s, i + 6)
    else s[i] >= 0x1f && s[i] != QUOTE && ValidFrom(s, i + 1)
  }

  predicate ValidString(lex: Lexer, s: seq<byte>) {
    |s| >= 2 && lex.utf8(s) && s[0] == QUOTE && s[|s| - 1] == QUOTE && ValidFrom(s, 1)
  }

  /** match_string. */
  function MatchString(lex: Lexer, s: seq<byte>): (m: Match)
    requires s != []
    ensures Fits(s, m) && (m.Closed? ==> m.n > 0) && (m.Open? ==> m.n == |s|)
  {
    if s[0] != QUOTE then Bad
    else if |s| == 1 then Open(1)
    else
      var i := QuoteFrom(s, 1);
      if s[i] == QUOTE && !ValidString(lex, s[..i + 1]) then Bad
      else if s[i] == QUOTE && s[i - 1] != BACKSLASH then Closed(i + 1)
      else LastByte(s, 1); Open(i + 1)
  }

  lemma {:induction false} LastByte(s: seq<byte>, i: nat)
    requires 1 <= i < |s|
    ensures var r := QuoteFrom(s, i); r == |s| - 1 || (s[r] == QUOTE && s[r - 1] != BACKSLASH)
    decreases |s| - i
  {
    if i != |s| - 1 && !(s[i] == QUOTE && s[i - 1] != BACKSLASH) { LastByte(s, i + 1); }
  }

  const NULL: seq<byte> := [0x6e, 0x75, 0x6c, 0x6c]
  const TRUE: seq<byte> := [0x74, 0x72, 0x75, 0x65]
  const FALSE: seq<byte> := [0x66, 0x61, 0x6c, 0x73, 0x65]

  /** match_literal, for one of the three. */
  function MatchLiteral(word: seq<byte>, s: seq<byte>): (m: Match)
    ensures Fits(s, m)
  {
    if |s| >= |word| then (if word <= s then Closed(|word|) else Bad)
    else if s <= word then Open(|s|) else Bad
  }

  /** match_number. A number at the end of the data may go on. */
  function MatchNumber(lex: Lexer, s: seq<byte>): (m: Match)
    ensures Fits(s, m)
  {
    match lex.strtod(s)
    case None => Bad
    case Some(k) => if k < |s| then Closed(k) else Open(|s|)
  }

  // -------------------------------------------------------------------- values

  /** match_value. */
  function MatchValue(lex: Lexer, s: seq<byte>): (m: Match)
    requires s != []
    ensures Fits(s, m) && (m != Bad && |s| > 1 && Opens(s[0]) ==> m.n > 0)
    decreases |s|, 3
  {
    var k := Space(s);
    if k == |s| then Open(|s|) else Shift(k, MatchToken(lex, s[k..]))
  }

  function MatchToken(lex: Lexer, s: seq<byte>): (m: Match)
    requires s != []
    ensures Fits(s, m) && (m != Bad && |s| > 1 && Opens(s[0]) ==> m.n > 0)
    decreases |s|, 2
  {
    var c := s[0];
    if c == OPEN_BRACE then MatchObject(lex, s)
    else if c == OPEN_BRACKET then MatchArray(lex, s)
    else if c == QUOTE then MatchString(lex, s)
    else if c == NULL[0] then MatchLiteral(NULL, s)
    else if c == TRUE[0] then MatchLiteral(TRUE, s)
    else if c == FALSE[0] then MatchLiteral(FALSE, s)
    else if c == 0x2d || 0x30 <= c <= 0x39 then MatchNumber(lex, s)
    else Bad
  }

  /** match_object. */
  function MatchObject(lex: Lexer, s: seq<byte>): (m: Match)
    requires s != [] && s[0] == OPEN_BRACE
    ensures Fits(s, m) && (m != Bad && |s| > 1 ==> m.n > 0)
    decreases |s|, 1
  {
    var k := 1 + Space(s[1..]);
    if |s| == 1 then Open(0)
    else if k == |s| then Open(|s|)
    else if s[k] == CLOSE_BRACE then Closed(k + 1)
    else Shift(k, Members(lex, s[k..]))
  }

  /** The loop of match_object. */
  function Members(lex: Lexer, s: seq<byte>): (m: Match)
    requires s != []
    ensures Fits(s, m) && (m.Closed? ==> m.n > 0)
    decreases |s|, 2
  {
    var k := Space(s);
    if k == |s| then Open(|s|) else Shift(k, Member(lex, s[k..]))
  }

  function Member(lex: Lexer, s: seq<byte>): (m: Match)
    requires s != []
    ensures Fits(s, m) && (m.Closed? ==> m.n > 0)
    decreases |s|, 1
  {
    match Key(lex, s)
    case None => Bad
    case Some(p) => BehindKey(lex, s, p)
  }

  function Key(lex: Lexer, s: seq<byte>): (r: Option<nat>)
    requires s != []
    ensures r.Some? ==> r.value <= |s|
  {
    var key := MatchString(lex, s);
    if key == Bad then None else Some(key.n + Space(s[key.n..]))
  }

  function BehindKey(lex: Lexer, s: seq<byte>, p: nat): (m: Match)
    requires p <= |s|
    ensures Fits(s, m) && (m.Closed? ==> m.n > p)
    decreases |s|, 0
  {
    if p == |s| then Open(|s|)
    else if s[p] != COLON then Bad
    else if p + 1 == |s| then Open(|s|)
    else Shift(p + 1, AfterColon(lex, s[p + 1..]))
  }

  /** A value in an object or array and the whitespace behind it. */
  function Item(lex: Lexer, s: seq<byte>): (r: Option<nat>)
    requires s != []
    ensures r.Some? ==> r.value <= |s| && (r.value + 1 < |s| && Opens(s[r.value]) ==> r.value > 0)
    decreases |s|, 4
  {
    var value := MatchValue(lex, s);
    if value == Bad then None else Some(value.n + Space(s[value.n..]))
  }

  function AfterColon(lex: Lexer, s: seq<byte>): (m: Match)
    requires s != []
    ensures Fits(s, m) && (m.Closed? ==> m.n > 0)
    decreases |s|, 5
  {
    match Item(lex, s)
    case None => Bad
    case Some(p) => BehindMember(lex, s, p)
  }

  function BehindMember(lex: Lexer, s: seq<byte>, p: nat): (m: Match)
    requires p <= |s|
    ensures Fits(s, m) && (m.Closed? ==> m.n > p && EndsAt(s, p) && !(Opens(s[p]) && p + 1 == |s|))
    decreases |s|, 4
  {
    if p == |s| then Open(|s|)
    else if s[p] == COMMA then (if p + 1 == |s| then Open(|s|) else Shift(p + 1, Members(lex, s[p + 1..])))
    else if s[p] == CLOSE_BRACE then Closed(p + 1)
    else if Opens(s[p]) && p + 1 == |s| then Open(p)
    else Bad
  }

  /** match_array. */
  function MatchArray(lex: Lexer, s: seq<byte>): (m: Match)
    requires s != [] && s[0] == OPEN_BRACKET
    ensures Fits(s, m) && (m != Bad && |s| > 1 ==> m.n > 0) && (m.Closed? ==> m.n > 0 && s[m.n - 1] == CLOSE_BRACKET)
    decreases |s|, 1
  {
    var k := 1 + Space(s[1..]);
    if |s| == 1 then Open(0)
    else if k == |s| then Open(|s|)
    else if s[k] == CLOSE_BRACKET then Closed(k + 1)
    else Shift(k, Elements(lex, s[k..]))
  }

  /** The loop of match_array. An opening bracket behind an element starts the next one without a comma. */
  function Elements(lex: Lexer, s: seq<byte>): (m: Match)
    requires s != []
    ensures Fits(s, m) && (m.Closed? ==> m.n > 0 && s[m.n - 1] == CLOSE_BRACKET)
    decreases |s|, 5
  {
    match Item(lex, s)
    case None => Bad
    case Some(p) => BehindElement(lex, s, p)
  }

  function BehindElement(lex: Lexer, s: seq<byte>, p: nat): (m: Match)
    requires p <= |s| && (p + 1 < |s| && Opens(s[p]) ==> p > 0)
    ensures Fits(s, m) && (m.Closed? ==> m.n > p && s[m.n - 1] == CLOSE_BRACKET && EndsAt(s, p) && !(Opens(s[p]) && p + 1 == |s|))
    decreases |s|, 4
  {
    if p == |s| then Open(|s|)
    else if s[p] == COMMA then (if p + 1 == |s| then Open(|s|) else Shift(p + 1, Elements(lex, s[p + 1..])))
    else if s[p] == CLOSE_BRACKET then Closed(p + 1)
    else if Opens(s[p]) then (if p + 1 == |s| then Open(p) else Shift(p, Elements(lex, s[p..])))
    else Bad
  }

  // ---------------------------------------------------------------------- buffers

  /** ov_json_match: values one after the other up to the end of the data. */
  predicate AllMatch(lex: Lexer, s: seq<byte>)
    decreases |s|
  {
    s == [] ||
    var m := MatchValue(lex, s);
    m != Bad && (m.n == 0 || AllMatch(lex, s[m.n + Space(s[m.n..])..]))
  }

  /** ov_json_match_object on a text that starts with an opening brace: braces are counted wherever
      they are, up to the one that closes the first. */
  predicate Balanced(s: seq<byte>, depth: nat)
    decreases |s|
  {
    if s == [] then false
    else if |s| == 1 then s[0] == CLOSE_BRACE && depth == 0
    else if s[0] == OPEN_BRACE then Balanced(s[1..], depth + 1)
    else if s[0] == CLOSE_BRACE then depth == 0 || Balanced(s[1..], depth - 1)
    else Balanced(s[1..], depth)
  }

  /** The text up to the end of the first match looks like an object. */
  predicate LooksComplete(b: seq<byte>, k: nat, n: nat)
    requires k < n <= |b|
  {
    b[n - 1] == CLOSE_BRACE && Balanced(b[k + 1..n], 0)
  }

  /** decode_buffered. */
  function DecodeBuffered(lib: Library, b: seq<byte>): Frame {
    var k := Space(b);
    if k == |b| || b[k] == 0 then Progress
    else if b[k] != OPEN_BRACE then Reject
    else if !AllMatch(lib.lex, b) then Reject
    else
      var n := MatchValue(lib.lex, b).n;
      if n <= k || !LooksComplete(b, k, n) then Progress
      else match lib.decode(b[..n])
           case None => Reject
           case Some(v) => Complete(n, v)
  }

  function Scan(lib: Library): Scanner {
    b => DecodeBuffered(lib, b)
  }

  // ------------------------------------------------------------- laws of the library

  /** strtod takes no byte that ends a number, and what it takes depends on nothing behind one. */
  ghost predicate StopsAtDelimiter(strtod: seq<byte> -> Option<nat>) {
    && (forall s, i {:trigger strtod(s), s[i]} ::
          strtod(s).Some? && 0 <= i < |s| && i < strtod(s).value ==> !Delimits(s[i]))
    && (forall s, t {:trigger strtod(s), strtod(t)} ::
          strtod(s).Some? && EndsAt(s, strtod(s).value) && Same(s, t, strtod(s).value + 1) ==> strtod(t) == strtod(s))
  }

  predicate EndsAt(s: seq<byte>, k: nat) {
    k < |s| && Delimits(s[k])
  }

  /** The match of the first value of a buffer has come to its end. */
  predicate Ends(lex: Lexer, b: seq<byte>) {
    b != [] && MatchValue(lex, b).Closed?
  }

  // ------------------------------------------- what follows a closed value plays no part

  /** The texts agree on their first n bytes. */
  predicate Same(s: seq<byte>, t: seq<byte>, n: nat) {
    n <= |s| && n <= |t| && s[..n] == t[..n]
  }

  lemma SameBehind(s: seq<byte>, t: seq<byte>, n: nat, k: nat)
    requires Same(s, t, n) && k <= n
    ensures Same(s[k..], t[k..], n - k) && forall i :: 0 <= i < n ==> s[i] == t[i]
  {
    assert s[k..][..n - k] == s[..n][k..] && t[k..][..n - k] == t[..n][k..];
    assert forall i :: 0 <= i < n ==> s[i] == s[..n][i] && t[i] == t[..n][i];
  }

  lemma {:induction false} SpaceSame(s: seq<byte>, t: seq<byte>, n: nat)
    requires Same(s, t, n) && Space(s) < n
    ensures Space(t) == Space(s)
    decreases |s|
  {
    SameBehind(s, t, n, 1);
    if IsSpace(s[0]) { SpaceSame(s[1..], t[1..], n - 1); }
  }

  lemma {:induction false} QuoteSame(s: seq<byte>, t: seq<byte>, i: nat)
    requires 1 <= i < |s|
    requires var r := QuoteFrom(s, i); s[r] == QUOTE && s[r - 1] != BACKSLASH && Same(s, t, r + 1)
    ensures QuoteFrom(t, i) == QuoteFrom(s, i)
    decreases |s| - i
  {
    var r := QuoteFrom(s, i);
    SameBehind(s, t, r + 1, 0);
    if i < r { QuoteSame(s, t, i + 1); }
  }

  lemma StringSame(lex: Lexer, s: seq<byte>, t: seq<byte>)
    requires s != [] && MatchString(lex, s).Closed? && Same(s, t, MatchString(lex, s).n)
    ensures MatchString(lex, t) == MatchString(lex, s)
  {
    SameBehind(s, t, MatchString(lex, s).n, 0);
    QuoteSame(s, t, 1);
  }

  lemma {:induction false} ValueSame(lex: Lexer, s: seq<byte>, t: seq<byte>, n: nat)
    requires StopsAtDelimiter(lex.strtod) && s != [] && MatchValue(lex, s) == Closed(n)
    requires EndsAt(s, n) && Same(s, t, n + 1)
    ensures MatchValue(lex, t) == Closed(n)
    decreases |s|, 3
  {
    var k := Space(s);
    SpaceSame(s, t, n + 1);
    SameBehind(s, t, n + 1, k);
    TokenSame(lex, s[k..], t[k..], n - k);
  }

  lemma {:induction false} TokenSame(lex: Lexer, s: seq<byte>, t: seq<byte>, n: nat)
    requires StopsAtDelimiter(lex.strtod) && s != [] && MatchToken(lex, s) == Closed(n)
    requires EndsAt(s, n) && Same(s, t, n + 1)
    ensures MatchToken(lex, t) == Closed(n)
    decreases |s|, 2
  {
    SameBehind(s, t, n + 1, 0);
    assert Same(s, t, n);
    var c := s[0];
    if c == OPEN_BRACE {
      ObjectSame(lex, s, t, n);
    } else if c == OPEN_BRACKET {
      ArraySame(lex, s, t, n);
    } else if c == QUOTE {
      StringSame(lex, s, t);
    } else if c == NULL[0] || c == TRUE[0] || c == FALSE[0] {
      assert s[..n] <= t;
    } else {
      assert lex.strtod(s) == Some(n) && lex.strtod(t) == Some(n);
    }
  }

  /** The whitespace behind an opening bracket, when the texts agree beyond it. */
  lemma SpaceInside(s: seq<byte>, t: seq<byte>, n: nat, k: nat)
    requires s != [] && k == 1 + Space(s[1..]) < n && Same(s, t, n)
    ensures 1 + Space(t[1..]) == k && t[0] == s[0] && t[k] == s[k] && Same(s[k..], t[k..], n - k)
  {
    SameBehind(s, t, n, 1);
    SpaceSame(s[1..], t[1..], n - 1);
    SameBehind(s, t, n, k);
  }

  lemma {:induction false} ObjectSame(lex: Lexer, s: seq<byte>, t: seq<byte>, n: nat)
    requires StopsAtDelimiter(lex.strtod) && s != [] && s[0] == OPEN_BRACE && MatchObject(lex, s) == Closed(n) && Same(s, t, n)
    ensures n > 0 && t != [] && t[0] == OPEN_BRACE && MatchObject(lex, t) == Closed(n)
    decreases |s|, 1
  {
    var k := 1 + Space(s[1..]);
    SpaceInside(s, t, n, k);
    if s[k] != CLOSE_BRACE {
      MembersSame(lex, s[k..], t[k..], n - k);
    }
  }

  lemma {:induction false} MembersSame(lex: Lexer, s: seq<byte>, t: seq<byte>, n: nat)
    requires StopsAtDelimiter(lex.strtod) && s != [] && Members(lex, s) == Closed(n) && Same(s, t, n)
    ensures n > 0 && Members(lex, t) == Closed(n)
    decreases |s|, 2
  {
    var k := Space(s);
    SpaceSame(s, t, n);
    SameBehind(s, t, n, k);
    MemberSame(lex, s[k..], t[k..], n - k);
  }

  lemma {:induction false} MemberSame(lex: Lexer, s: seq<byte>, t: seq<byte>, n: nat)
    requires StopsAtDelimiter(lex.strtod) && s != [] && Member(lex, s) == Closed(n) && Same(s, t, n)
    ensures n > 0 && Member(lex, t) == Closed(n)
    decreases |s|, 1
  {
    var p := Key(lex, s).value;
    SameShorter(s, t, n, p + 1);
    KeySame(lex, s, t, p);
    BehindKeySame(lex, s, t, p, n);
  }

  lemma {:induction false} BehindKeySame(lex: Lexer, s: seq<byte>, t: seq<byte>, p: nat, n: nat)
    requires StopsAtDelimiter(lex.strtod) && p < |s| && BehindKey(lex, s, p) == Closed(n) && Same(s, t, n)
    ensures p < n && BehindKey(lex, t, p) == Closed(n)
    decreases |s|, 0
  {
    SameBehind(s, t, n, p + 1);
    AfterColonSame(lex, s[p + 1..], t[p + 1..], n - p - 1);
  }

  lemma KeySame(lex: Lexer, s: seq<byte>, t: seq<byte>, p: nat)
    requires s != [] && Key(lex, s) == Some(p) && p < |s| && Same(s, t, p + 1)
    ensures Key(lex, t) == Some(p) && s[p] == t[p]
  {
    var n := MatchString(lex, s).n;
    SameBehind(s, t, p + 1, n);
    SameShorter(s, t, p + 1, n);
    StringSame(lex, s, t);
    SpaceSame(s[n..], t[n..], p + 1 - n);
  }

  /** A value in an object or array, when more than a last opening bracket follows it. */
  lemma {:induction false} ItemSame(lex: Lexer, s: seq<byte>, t: seq<byte>, p: nat)
    requires StopsAtDelimiter(lex.strtod) && s != [] && Item(lex, s) == Some(p)
    requires EndsAt(s, p) && !(Opens(s[p]) && p + 1 == |s|) && Same(s, t, p + 1)
    ensures Item(lex, t) == Some(p) && s[p] == t[p]
    decreases |s|, 4
  {
    var n := MatchValue(lex, s).n;
    ItemEnds(lex, s, p);
    SameShorter(s, t, p + 1, n + 1);
    ValueSame(lex, s, t, n);
    SpaceBehindSame(s, t, p, n);
    ItemIs(lex, t, Closed(n), p);
  }

  lemma ItemIs(lex: Lexer, s: seq<byte>, m: Match, p: nat)
    requires s != [] && MatchValue(lex, s) == m && m != Bad && m.n <= |s| && p == m.n + Space(s[m.n..])
    ensures Item(lex, s) == Some(p)
  {
  }

  lemma SpaceBehindSame(s: seq<byte>, t: seq<byte>, p: nat, n: nat)
    requires Same(s, t, p + 1) && n <= p && n + Space(s[n..]) == p
    ensures n + Space(t[n..]) == p && s[p] == t[p]
  {
    SameBehind(s, t, p + 1, n);
    SpaceSame(s[n..], t[n..], p + 1 - n);
  }

  lemma ItemEnds(lex: Lexer, s: seq<byte>, p: nat)
    requires s != [] && Item(lex, s) == Some(p) && EndsAt(s, p) && !(Opens(s[p]) && p + 1 == |s|)
    ensures var m := MatchValue(lex, s); m.Closed? && m.n <= p && EndsAt(s, m.n)
  {
    var n := MatchValue(lex, s).n;
    if n < p { assert s[n..][0] == s[n]; }
  }

  lemma SameShorter(s: seq<byte>, t: seq<byte>, n: nat, k: nat)
    requires Same(s, t, n) && k <= n
    ensures Same(s, t, k)
  {
    assert s[..k] == s[..n][..k] && t[..k] == t[..n][..k];
  }

  lemma {:induction false} AfterColonSame(lex: Lexer, s: seq<byte>, t: seq<byte>, n: nat)
    requires StopsAtDelimiter(lex.strtod) && s != [] && AfterColon(lex, s) == Closed(n) && Same(s, t, n)
    ensures n > 0 && AfterColon(lex, t) == Closed(n)
    decreases |s|, 5
  {
    var p := Item(lex, s).value;
    SameShorter(s, t, n, p + 1);
    ItemSame(lex, s, t, p);
    BehindMemberSame(lex, s, t, p, n);
  }

  lemma {:induction false} BehindMemberSame(lex: Lexer, s: seq<byte>, t: seq<byte>, p: nat, n: nat)
    requires StopsAtDelimiter(lex.strtod) && p < |s| && BehindMember(lex, s, p) == Closed(n) && Same(s, t, n)
    ensures p < n && BehindMember(lex, t, p) == Closed(n)
    decreases |s|, 4
  {
    SameBehind(s, t, n, p);
    if s[p] == COMMA {
      SameBehind(s, t, n, p + 1);
      MembersSame(lex, s[p + 1..], t[p + 1..], n - p - 1);
    }
  }

  lemma {:induction false} ArraySame(lex: Lexer, s: seq<byte>, t: seq<byte>, n: nat)
    requires StopsAtDelimiter(lex.strtod) && s != [] && s[0] == OPEN_BRACKET && MatchArray(lex, s) == Closed(n) && Same(s, t, n)
    ensures n > 0 && t != [] && t[0] == OPEN_BRACKET && MatchArray(lex, t) == Closed(n)
    decreases |s|, 1
  {
    var k := 1 + Space(s[1..]);
    SpaceInside(s, t, n, k);
    if s[k] != CLOSE_BRACKET {
      InsideArray(lex, s, k);
      ElementsSame(lex, s[k..], t[k..], n - k);
      InsideArray(lex, t, k);
    }
  }

  lemma InsideArray(lex: Lexer, s: seq<byte>, k: nat)
    requires |s| > 1 && s[0] == OPEN_BRACKET && k == 1 + Space(s[1..]) < |s| && s[k] != CLOSE_BRACKET
    ensures MatchArray(lex, s) == Shift(k, Elements(lex, s[k..]))
  {
  }

  lemma {:induction false} ElementsSame(lex: Lexer, s: seq<byte>, t: seq<byte>, n: nat)
    requires StopsAtDelimiter(lex.strtod) && s != [] && Elements(lex, s) == Closed(n) && Same(s, t, n)
    ensures n > 0 && Elements(lex, t) == Closed(n)
    decreases |s|, 5
  {
    var p := Item(lex, s).value;
    SameShorter(s, t, n, p + 1);
    ItemSame(lex, s, t, p);
    BehindElementSame(lex, s, t, p, n);
  }

  lemma {:induction false} BehindElementSame(lex: Lexer, s: seq<byte>, t: seq<byte>, p: nat, n: nat)
    requires StopsAtDelimiter(lex.strtod) && p < |s| && (p + 1 < |s| && Opens(s[p]) ==> p > 0)
    requires BehindElement(lex, s, p) == Closed(n) && Same(s, t, n)
    ensures p < n && (p + 1 < |t| && Opens(t[p]) ==> p > 0) && BehindElement(lex, t, p) == Closed(n)
    decreases |s|, 4
  {
    SameBehind(s, t, n, p);
    if s[p] != CLOSE_BRACKET {
      var k := if s[p] == COMMA then p + 1 else p;
      NextElement(lex, s, p, k, n);
      SameBehind(s, t, n, k);
      ElementsSame(lex, s[k..], t[k..], n - k);
      NextElementBack(lex, t, p, k);
    }
  }

  /** A further element behind a comma or at an opening bracket. */
  lemma NextElement(lex: Lexer, s: seq<byte>, p: nat, k: nat, n: nat)
    requires p < |s| && (p + 1 < |s| && Opens(s[p]) ==> p > 0) && s[p] != CLOSE_BRACKET
    requires BehindElement(lex, s, p) == Closed(n) && k == if s[p] == COMMA then p + 1 else p
    ensures 0 < k < n && k < |s| && Elements(lex, s[k..]) == Closed(n - k) && (s[p] == COMMA || Opens(s[p]))
  {
  }

  lemma NextElementBack(lex: Lexer, s: seq<byte>, p: nat, k: nat)
    requires p < |s| && (s[p] == COMMA || Opens(s[p])) && k == (if s[p] == COMMA then p + 1 else p) && 0 < k && p + 1 < |s|
    ensures BehindElement(lex, s, p) == Shift(k, Elements(lex, s[k..]))
  {
  }

  // ------------------------------------------------------------------- the laws hold

  /** The matched object in front of a text is the matched object of every text that starts alike. */
  lemma FirstObjectSame(lex: Lexer, s: seq<byte>, t: seq<byte>, n: nat)
    requires StopsAtDelimiter(lex.strtod) && s != [] && MatchValue(lex, s) == Closed(n) && Same(s, t, n)
    requires Space(s) < n && s[Space(s)] == OPEN_BRACE
    ensures t != [] && MatchValue(lex, t) == Closed(n) && Space(t) == Space(s)
  {
    var k := Space(s);
    SpaceSame(s, t, n);
    SameBehind(s, t, n, k);
    ObjectSame(lex, s[k..], t[k..], n - k);
  }

  /** decode_buffered stays inside the buffer and finds nothing in an empty one. */
  lemma ScanIsLawful(lib: Library)
    ensures Lawful(Scan(lib))
  {
  }

  /** A message whose match has ended is the same message without what follows it. */
  lemma WordAlone(lib: Library, b: seq<byte>)
    requires StopsAtDelimiter(lib.lex.strtod) && DecodeBuffered(lib, b).Complete? && Ends(lib.lex, b)
    ensures var n := DecodeBuffered(lib, b).length;
      n <= |b| && DecodeBuffered(lib, b[..n]) == DecodeBuffered(lib, b) && Ends(lib.lex, b[..n])
  {
    var k, n := Space(b), MatchValue(lib.lex, b).n;
    var w := b[..n];
    assert w[..n] == w && Same(b, w, n);
    FirstObjectSame(lib.lex, b, w, n);
    assert w[k + 1..n] == b[k + 1..n];
    assert AllMatch(lib.lex, w) by {
      assert w[n..] == [] && Space([]) == 0;
      assert w[n + 0..] == [];
    }
    assert LooksComplete(w, k, n) == LooksComplete(b, k, n);
  }

  /** With more input a message whose match has ended stays first, unless what comes is no value. */
  lemma WordFirst(lib: Library, b: seq<byte>, x: seq<byte>)
    requires StopsAtDelimiter(lib.lex.strtod) && DecodeBuffered(lib, b).Complete? && Ends(lib.lex, b)
    ensures DecodeBuffered(lib, b + x) == if AllMatch(lib.lex, b + x) then DecodeBuffered(lib, b) else Reject
  {
    var k, n := Space(b), MatchValue(lib.lex, b).n;
    assert (b + x)[..n] == b[..n];
    FirstObjectSame(lib.lex, b, b + x, n);
    assert (b + x)[k + 1..n] == b[k + 1..n];
  }

  // --------------------------------------------- an open match goes on with more input

  const BLANK: seq<byte> := [0x20]

  /** The last byte is a closing brace. */
  predicate EndsWithBrace(s: seq<byte>) {
    s != [] && s[|s| - 1] == CLOSE_BRACE
  }

  lemma Behind(s: seq<byte>, k: nat)
    requires EndsWithBrace(s) && k < |s|
    ensures EndsWithBrace(s[k..]) && (s + BLANK)[k..] == s[k..] + BLANK
  {
  }

  lemma {:induction false} SpaceBlank(s: seq<byte>)
    requires EndsWithBrace(s)
    ensures Space(s) < |s| && Space(s + BLANK) == Space(s)
    decreases |s|
  {
    if IsSpace(s[0]) {
      Behind(s, 1);
      SpaceBlank(s[1..]);
    }
  }

  lemma {:induction false} QuoteOpen(s: seq<byte>, i: nat)
    requires EndsWithBrace(s) && 1 <= i < |s| && QuoteFrom(s, i) == |s| - 1
    ensures QuoteFrom(s + BLANK, i) == |s|
    decreases |s| - i
  {
    if i < |s| - 1 { QuoteOpen(s, i + 1); }
  }

  lemma StringOpen(lex: Lexer, s: seq<byte>)
    requires EndsWithBrace(s) && MatchString(lex, s).Open?
    ensures MatchString(lex, s + BLANK) == Open(|s| + 1)
  {
    QuoteOpen(s, 1);
  }

  lemma {:induction false} ValueOpen(lex: Lexer, s: seq<byte>)
    requires StopsAtDelimiter(lex.strtod) && EndsWithBrace(s) && MatchValue(lex, s) == Open(|s|)
    ensures MatchValue(lex, s + BLANK) == Open(|s| + 1)
    decreases |s|, 3
  {
    SpaceBlank(s);
    Behind(s, Space(s));
    TokenOpen(lex, s[Space(s)..]);
  }

  lemma {:induction false} TokenOpen(lex: Lexer, s: seq<byte>)
    requires StopsAtDelimiter(lex.strtod) && EndsWithBrace(s) && MatchToken(lex, s) == Open(|s|)
    ensures MatchToken(lex, s + BLANK) == Open(|s| + 1)
    decreases |s|, 2
  {
    var c := s[0];
    if c == OPEN_BRACE {
      ObjectOpen(lex, s);
    } else if c == OPEN_BRACKET {
      ArrayOpen(lex, s);
    } else if c == QUOTE {
      StringOpen(lex, s);
    } else {
      assert Delimits(s[|s| - 1]);
    }
  }

  lemma {:induction false} ObjectOpen(lex: Lexer, s: seq<byte>)
    requires StopsAtDelimiter(lex.strtod) && EndsWithBrace(s) && s[0] == OPEN_BRACE && MatchObject(lex, s) == Open(|s|)
    ensures MatchObject(lex, s + BLANK) == Open(|s| + 1)
    decreases |s|, 1
  {
    Behind(s, 1);
    SpaceBlank(s[1..]);
    var k := 1 + Space(s[1..]);
    Behind(s, k);
    MembersOpen(lex, s[k..]);
  }

  lemma {:induction false} MembersOpen(lex: Lexer, s: seq<byte>)
    requires StopsAtDelimiter(lex.strtod) && EndsWithBrace(s) && Members(lex, s) == Open(|s|)
    ensures Members(lex, s + BLANK) == Open(|s| + 1)
    decreases |s|, 2
  {
    SpaceBlank(s);
    Behind(s, Space(s));
    MemberOpen(lex, s[Space(s)..]);
  }

  lemma {:induction false} MemberOpen(lex: Lexer, s: seq<byte>)
    requires StopsAtDelimiter(lex.strtod) && EndsWithBrace(s) && Member(lex, s) == Open(|s|)
    ensures Member(lex, s + BLANK) == Open(|s| + 1)
    decreases |s|, 1
  {
    KeyOpen(lex, s);
    BehindKeyOpen(lex, s, Key(lex, s).value);
  }

  lemma {:induction false} BehindKeyOpen(lex: Lexer, s: seq<byte>, p: nat)
    requires StopsAtDelimiter(lex.strtod) && EndsWithBrace(s) && p <= |s| && BehindKey(lex, s, p) == Open(|s|)
    ensures BehindKey(lex, s + BLANK, if p == |s| then p + 1 else p) == Open(|s| + 1)
    decreases |s|, 0
  {
    if p < |s| {
      var rest := s[p + 1..];
      ColonOpen(lex, s, p, rest);
      AfterColonOpen(lex, rest);
      BehindColon(lex, s + BLANK, p);
    }
  }

  lemma ColonOpen(lex: Lexer, s: seq<byte>, p: nat, rest: seq<byte>)
    requires EndsWithBrace(s) && p < |s| && BehindKey(lex, s, p) == Open(|s|) && rest == s[p + 1..]
    ensures EndsWithBrace(rest) && s[p] == COLON && AfterColon(lex, rest) == Open(|rest|)
    ensures (s + BLANK)[p] == COLON && (s + BLANK)[p + 1..] == rest + BLANK
  {
  }

  lemma BehindColon(lex: Lexer, s: seq<byte>, p: nat)
    requires p + 1 < |s| && s[p] == COLON
    ensures BehindKey(lex, s, p) == Shift(p + 1, AfterColon(lex, s[p + 1..]))
  {
  }

  lemma KeyOpen(lex: Lexer, s: seq<byte>)
    requires EndsWithBrace(s) && Key(lex, s).Some?
    ensures var p := Key(lex, s).value;
      Key(lex, s + BLANK) == Some(if p == |s| then p + 1 else p) && (p < |s| && s[p] == COLON ==> p + 1 < |s|)
  {
    var n := MatchString(lex, s).n;
    if n == |s| {
      StringOpen(lex, s);
    } else {
      assert (s + BLANK)[..n] == s[..n];
      StringSame(lex, s, s + BLANK);
      Behind(s, n);
      SpaceBlank(s[n..]);
    }
  }

  lemma {:induction false} ItemOpen(lex: Lexer, s: seq<byte>)
    requires StopsAtDelimiter(lex.strtod) && EndsWithBrace(s) && Item(lex, s).Some?
    requires var p := Item(lex, s).value; p == |s| || !(Opens(s[p]) && p + 1 == |s|)
    requires var p := Item(lex, s).value; p == |s| || Delimits(s[p])
    ensures var p := Item(lex, s).value; Item(lex, s + BLANK) == Some(if p == |s| then p + 1 else p)
    decreases |s|, 4
  {
    var m := MatchValue(lex, s);
    var p := Item(lex, s).value;
    assert (s + BLANK)[..|s|] == s;
    if p < |s| {
      SameShorter(s, s + BLANK, |s|, p + 1);
      ItemSame(lex, s, s + BLANK, p);
    } else {
      if m.n < |s| {
        Behind(s, m.n);
        SpaceBlank(s[m.n..]);
      }
      if m.Open? {
        ValueOpen(lex, s);
        assert (s + BLANK)[|s| + 1..] == [];
      } else {
        ClosedAtEnd(lex, s);
        assert (s + BLANK)[|s|..] == BLANK && Space(BLANK) == 1;
      }
    }
  }

  /** What ends with the closing brace the data ends with is an object. */
  lemma ClosedAtEnd(lex: Lexer, s: seq<byte>)
    requires StopsAtDelimiter(lex.strtod) && EndsWithBrace(s) && MatchValue(lex, s) == Closed(|s|)
    ensures MatchValue(lex, s + BLANK) == Closed(|s|)
  {
    SpaceBlank(s);
    var k := Space(s);
    Behind(s, k);
    assert MatchToken(lex, s[k..]) == Closed(|s| - k);
    IsObject(lex, s[k..]);
    assert (s + BLANK)[..|s|] == s;
    FirstObjectSame(lex, s, s + BLANK, |s|);
  }

  lemma IsObject(lex: Lexer, s: seq<byte>)
    requires EndsWithBrace(s) && MatchToken(lex, s) == Closed(|s|)
    ensures s[0] == OPEN_BRACE
  {
  }

  lemma {:induction false} AfterColonOpen(lex: Lexer, s: seq<byte>)
    requires StopsAtDelimiter(lex.strtod) && EndsWithBrace(s) && AfterColon(lex, s) == Open(|s|)
    ensures AfterColon(lex, s + BLANK) == Open(|s| + 1)
    decreases |s|, 5
  {
    var p := Item(lex, s).value;
    assert BehindMember(lex, s, p) == Open(|s|);
    ItemOpen(lex, s);
    BehindMemberOpen(lex, s, p);
    AfterItem(lex, s + BLANK, if p == |s| then p + 1 else p);
  }

  lemma AfterItem(lex: Lexer, s: seq<byte>, p: nat)
    requires s != [] && Item(lex, s) == Some(p)
    ensures p <= |s| && AfterColon(lex, s) == BehindMember(lex, s, p)
  {
  }

  lemma {:induction false} BehindMemberOpen(lex: Lexer, s: seq<byte>, p: nat)
    requires StopsAtDelimiter(lex.strtod) && EndsWithBrace(s) && p <= |s| && BehindMember(lex, s, p) == Open(|s|)
    ensures BehindMember(lex, s + BLANK, if p == |s| then p + 1 else p) == Open(|s| + 1)
    decreases |s|, 4
  {
    if p < |s| {
      var rest := s[p + 1..];
      CommaOpen(lex, s, p, rest);
      MembersOpen(lex, rest);
      BehindComma(lex, s + BLANK, p);
    }
  }

  lemma CommaOpen(lex: Lexer, s: seq<byte>, p: nat, rest: seq<byte>)
    requires EndsWithBrace(s) && p < |s| && BehindMember(lex, s, p) == Open(|s|) && rest == s[p + 1..]
    ensures EndsWithBrace(rest) && s[p] == COMMA && Members(lex, rest) == Open(|rest|)
    ensures (s + BLANK)[p] == COMMA && (s + BLANK)[p + 1..] == rest + BLANK
  {
  }

  lemma BehindComma(lex: Lexer, s: seq<byte>, p: nat)
    requires p + 1 < |s| && s[p] == COMMA
    ensures BehindMember(lex, s, p) == Shift(p + 1, Members(lex, s[p + 1..]))
  {
  }

  lemma {:induction false} ArrayOpen(lex: Lexer, s: seq<byte>)
    requires StopsAtDelimiter(lex.strtod) && EndsWithBrace(s) && s[0] == OPEN_BRACKET && MatchArray(lex, s) == Open(|s|)
    ensures MatchArray(lex, s + BLANK) == Open(|s| + 1)
    decreases |s|, 1
  {
    Behind(s, 1);
    SpaceBlank(s[1..]);
    var k := 1 + Space(s[1..]);
    Behind(s, k);
    InsideArray(lex, s, k);
    ElementsOpen(lex, s[k..]);
    InsideArray(lex, s + BLANK, k);
  }

  lemma {:induction false} ElementsOpen(lex: Lexer, s: seq<byte>)
    requires StopsAtDelimiter(lex.strtod) && EndsWithBrace(s) && Elements(lex, s) == Open(|s|)
    ensures Elements(lex, s + BLANK) == Open(|s| + 1)
    decreases |s|, 5
  {
    var p := Item(lex, s).value;
    assert BehindElement(lex, s, p) == Open(|s|);
    ItemOpen(lex, s);
    BehindElementOpen(lex, s, p);
  }

  lemma {:induction false} BehindElementOpen(lex: Lexer, s: seq<byte>, p: nat)
    requires StopsAtDelimiter(lex.strtod) && EndsWithBrace(s) && p <= |s| && (p + 1 < |s| && Opens(s[p]) ==> p > 0)
    requires BehindElement(lex, s, p) == Open(|s|)
    ensures BehindElement(lex, s + BLANK, if p == |s| then p + 1 else p) == Open(|s| + 1)
    decreases |s|, 4
  {
    if p < |s| {
      var k := if s[p] == COMMA then p + 1 else p;
      Behind(s, p);
      Behind(s, k);
      ElementsOpen(lex, s[k..]);
    }
  }

  lemma OpenAllMatches(lex: Lexer, b: seq<byte>)
    requires b != [] && MatchValue(lex, b) == Open(|b|)
    ensures AllMatch(lex, b)
  {
    assert b[|b|..] == [] && Space([]) == 0;
    assert b[|b| + 0..] == [];
  }

  /** A buffer that is scanned complete while its match is open is incomplete with a blank behind it. */
  lemma OpenWordBlank(lib: Library, w: seq<byte>)
    requires StopsAtDelimiter(lib.lex.strtod) && DecodeBuffered(lib, w).Complete? && DecodeBuffered(lib, w).length == |w|
    requires MatchValue(lib.lex, w).Open?
    ensures DecodeBuffered(lib, w + BLANK) == Progress
  {
    OpenLooksComplete(lib, w);
    SpaceBlank(w);
    ValueOpen(lib.lex, w);
    OpenAllMatches(lib.lex, w + BLANK);
    BlankIsProgress(lib, w + BLANK, Space(w));
  }

  lemma OpenLooksComplete(lib: Library, w: seq<byte>)
    requires DecodeBuffered(lib, w).Complete? && DecodeBuffered(lib, w).length == |w| && MatchValue(lib.lex, w).Open?
    ensures EndsWithBrace(w) && MatchValue(lib.lex, w) == Open(|w|) && Space(w) < |w| && w[Space(w)] == OPEN_BRACE
  {
  }

  lemma BlankIsProgress(lib: Library, b: seq<byte>, k: nat)
    requires k == Space(b) < |b| && b[k] == OPEN_BRACE && b[|b| - 1] == BLANK[0]
    requires AllMatch(lib.lex, b) && MatchValue(lib.lex, b) == Open(|b|)
    ensures DecodeBuffered(lib, b) == Progress
  {
  }

  /** More input leaves a message the first of its buffer, or makes the buffer malformed, iff its
      match has ended. */
  lemma WordStaysFirstExactly(lib: Library, w: seq<byte>)
    requires StopsAtDelimiter(lib.lex.strtod) && DecodeBuffered(lib, w).Complete? && DecodeBuffered(lib, w).length == |w|
    ensures (forall x :: DecodeBuffered(lib, w + x) == DecodeBuffered(lib, w) || DecodeBuffered(lib, w + x) == Reject)
       <==> Ends(lib.lex, w)
  {
    if Ends(lib.lex, w) {
      forall x
        ensures DecodeBuffered(lib, w + x) == DecodeBuffered(lib, w) || DecodeBuffered(lib, w + x) == Reject
      {
        WordFirst(lib, w, x);
      }
    } else {
      OpenWordBlank(lib, w);
    }
  }

  // ------------------------------------------------------------------ steady streams

  /** Wherever a message is found in front of some part of the stream, its match has ended; and so
      on behind the message found in the whole. */
  ghost predicate Orderly(lib: Library, stream: seq<byte>)
    decreases |stream|
  {
    && (forall k :: 0 <= k <= |stream| && DecodeBuffered(lib, stream[..k]).Complete? ==> Ends(lib.lex, stream[..k]))
    && match DecodeBuffered(lib, stream)
       case Progress => true
       case Reject => NoMessageInFront(Scan(lib), stream)
       case Complete(n, _) => Orderly(lib, stream[n..])
  }

  /** An orderly stream is steady. */
  lemma {:induction false} OrderlyIsSteady(lib: Library, stream: seq<byte>)
    requires StopsAtDelimiter(lib.lex.strtod) && Orderly(lib, stream)
    ensures StaysInside(Scan(lib)) && Steady(Scan(lib), stream)
    decreases |stream|
  {
    forall k | 0 <= k <= |stream| && DecodeBuffered(lib, stream[..k]).Complete?
      ensures DecodeBuffered(lib, stream) == DecodeBuffered(lib, stream[..k]) || DecodeBuffered(lib, stream) == Reject
    {
      assert stream[..k] + stream[k..] == stream;
      WordFirst(lib, stream[..k], stream[k..]);
    }
    if DecodeBuffered(lib, stream).Complete? {
      OrderlyIsSteady(lib, stream[DecodeBuffered(lib, stream).length..]);
    }
  }

  // ------------------------------------------------------------------ a library

  /** A strtod that takes everything up to the next byte that may follow a number. */
  function UpToDelimiter(s: seq<byte>): (n: nat)
    ensures n <= |s| && forall i :: 0 <= i < n ==> !Delimits(s[i])
  {
    if s == [] || Delimits(s[0]) then 0 else 1 + UpToDelimiter(s[1..])
  }

  const SIMPLE_LEXER := Lexer(_ => true, s => Some(UpToDelimiter(s)))

  /** A library that decodes every text. */
  const SIMPLE: Library := Library(SIMPLE_LEXER, w => Some(Value(Missing, w)))

  lemma {:induction false} UpToSame(s: seq<byte>, t: seq<byte>)
    requires EndsAt(s, UpToDelimiter(s)) && Same(s, t, UpToDelimiter(s) + 1)
    ensures UpToDelimiter(t) == UpToDelimiter(s)
    decreases |s|
  {
    var n := UpToDelimiter(s);
    SameBehind(s, t, n + 1, 1);
    if !Delimits(s[0]) { UpToSame(s[1..], t[1..]); }
  }

  lemma SimpleStops()
    ensures StopsAtDelimiter(SIMPLE_LEXER.strtod)
  {
    forall s, t {:trigger SIMPLE_LEXER.strtod(s), SIMPLE_LEXER.strtod(t)} |
      EndsAt(s, UpToDelimiter(s)) && Same(s, t, UpToDelimiter(s) + 1)
      ensures SIMPLE_LEXER.strtod(t) == SIMPLE_LEXER.strtod(s)
    {
      UpToSame(s, t);
    }
  }
}
