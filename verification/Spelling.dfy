/**
 How the tokens of a quest are written, and the law that the lexer reads them back from any layout of white
 space and line comments between them.
 */
module Spelling {
  import opened Lexer

  // -- Spellings ------------------------------------------------------------------------

  predicate IsName(s: string) {
    && s != "" && IsIdentStart(s[0]) && (forall i :: 1 <= i < |s| ==> IsIdent(s[i]))
    && (forall i :: 0 <= i < |s| ==> !('A' <= s[i] <= 'Z')) && s != "true" && s != "false"
  }

  predicate Spelled(t: Token) {
    match t
    case Identifier(name) => IsName(name)
    case Str(_) => true
    case Integer(n) => 0 <= n <= INT_MAX
    case Symbol(c) => IsSymbol(c)
    case Operator(h) => h == Hash('(', NUL) || h == Hash(')', NUL)
    case _ => false
  }

  /** Backslashes, quotes and new-lines are escaped. */
  predicate Special(c: char) {
    c == '\\' || c == '"' || c == '\n'
  }

  function EscapeChar(c: char): string {
    if Special(c) then ['\\', c] else [c]
  }

  function Escape(s: string): string {
    if s == "" then "" else EscapeChar(s[0]) + Escape(s[1..])
  }

  function Decimal(n: nat): (s: string)
    ensures s != "" && IsDigit(s[0])
  {
    var digit := ['0' + (n % 10) as char];
    if n < 10 then digit else Decimal(n / 10) + digit
  }

  function Spell(t: Token): (s: string)
    requires Spelled(t)
    ensures s != ""
  {
    match t
    case Identifier(name) => name
    case Str(text) => "\"" + Escape(text) + "\""
    case Integer(n) => Decimal(n)
    case Symbol(c) => [c]
    case Operator(h) => if h == Hash('(', NUL) then "(" else ")"
  }

  lemma {:induction false} TakeWhole(f: char -> bool, a: string, b: string)
    requires (forall i :: 0 <= i < |a| ==> f(a[i])) && (b == "" || !f(b[0]))
    ensures Take(f, a + b) == a && Drop(f, a + b) == b
  {
    if a == "" {
      assert a + b == b;
    } else {
      TakeWhole(f, a[1..], b);
      assert (a + b)[1..] == a[1..] + b;
    }
  }

  lemma {:induction false} LowerKeeps(s: string)
    requires forall i :: 0 <= i < |s| ==> !('A' <= s[i] <= 'Z')
    ensures Lower(s) == s
  {
    if s != "" {
      LowerKeeps(s[1..]);
    }
  }

  lemma {:induction false} DecimalReads(n: nat)
    ensures Digits(Decimal(n)) && Value(Decimal(n)) == n
  {
    var s := Decimal(n);
    if n < 10 {
      assert s[..|s| - 1] == "";
    } else {
      DecimalReads(n / 10);
      assert s[..|s| - 1] == Decimal(n / 10);
    }
  }

  lemma CharReads(c: char, more: string)
    requires Unquote(more, false).Quoted?
    ensures var q := Unquote(more, false);
      Unquote(EscapeChar(c) + more, false) == Quoted([c] + q.content, q.rest, q.newlines + if c == '\n' then 1 else 0)
  {
    var s := EscapeChar(c) + more;
    if Special(c) {
      assert s[1..] == [c] + more && ([c] + more)[1..] == more;
    } else {
      assert s[1..] == more;
    }
  }

  lemma EscapeFirst(s: string, end: string)
    requires s != ""
    ensures Escape(s) + end == EscapeChar(s[0]) + (Escape(s[1..]) + end)
  {
  }

  lemma {:induction false} EscapeReads(s: string, rest: string)
    ensures Unquote(Escape(s) + ("\"" + rest), false) == Quoted(s, rest, NewLines(s))
  {
    var end := "\"" + rest;
    if s == "" {
      assert Escape(s) + end == end && end[1..] == rest;
    } else {
      EscapeReads(s[1..], rest);
      EscapeFirst(s, end);
      CharReads(s[0], Escape(s[1..]) + end);
      assert [s[0]] + s[1..] == s;
    }
  }

  predicate IsWord(t: Token) {
    t.Identifier? || t.Integer?
  }

  /** What may stand right after a token. */
  predicate Follows(t: Token, rest: string) {
    IsWord(t) ==> rest == "" || !IsIdent(rest[0])
  }

  function Inside(t: Token): nat {
    if t.Str? then NewLines(t.text) else 0
  }

  lemma NameReads(name: string, rest: string)
    requires IsName(name) && Follows(Identifier(name), rest)
    ensures ScanWord(name + rest) == Scan(Identifier(name), rest, 0)
  {
    var s := name + rest;
    assert s[1..] == name[1..] + rest;
    TakeWhole(IsIdent, name[1..], rest);
    assert [s[0]] + name[1..] == name;
    LowerKeeps(name);
  }

  lemma IntegerReads(n: nat, rest: string)
    requires n <= INT_MAX && Follows(Integer(n), rest)
    ensures ScanWord(Decimal(n) + rest) == Scan(Integer(n), rest, 0)
  {
    DecimalReads(n);
    TakeWhole(IsDigit, Decimal(n), rest);
  }

  lemma ParenReads(c: char, rest: string)
    requires c == '(' || c == ')'
    ensures ScanWord([c] + rest) == Scan(Operator(Hash(c, NUL)), rest, 0)
  {
    assert ([c] + rest)[1..] == rest;
  }

  lemma QuoteOpens(more: string)
    requires Unquote(more, false).Quoted?
    ensures var q := Unquote(more, false); ScanWord("\"" + more) == Scan(Str(q.content), q.rest, q.newlines)
  {
    assert ("\"" + more)[1..] == more;
  }

  lemma StrReads(text: string, rest: string)
    ensures ScanWord("\"" + Escape(text) + "\"" + rest) == Scan(Str(text), rest, NewLines(text))
  {
    var more := Escape(text) + ("\"" + rest);
    EscapeReads(text, rest);
    QuoteOpens(more);
    assert "\"" + Escape(text) + "\"" + rest == "\"" + more;
  }

  lemma SymbolReads(c: char, rest: string)
    requires IsSymbol(c)
    ensures ScanWord([c] + rest) == Scan(Symbol(c), rest, 0)
  {
    assert ([c] + rest)[1..] == rest;
  }

  /** The lexer reads a spelling back and stops behind it. */
  lemma SpellingReads(t: Token, rest: string)
    requires Spelled(t) && Follows(t, rest)
    ensures ScanWord(Spell(t) + rest) == Scan(t, rest, Inside(t)) && !IsSpace((Spell(t) + rest)[0])
  {
    match t {
      case Identifier(name) => NameReads(name, rest);
      case Str(text) => StrReads(text, rest);
      case Integer(n) => IntegerReads(n, rest);
      case Symbol(c) => SymbolReads(c, rest);
      case Operator(h) => ParenReads(Spell(t)[0], rest);
    }
  }

  // -- The tokens of a text, new-lines aside --------------------------------------------

  function Strip(ts: seq<Token>): seq<Token> {
    if ts == [] then [] else if ts[0].NewLine? then Strip(ts[1..]) else [ts[0]] + Strip(ts[1..])
  }

  function Words(s: string, pending: nat): Lexed {
    var l := LexAll(s, pending);
    if l.Lexed? then Lexed(Strip(l.tokens)) else l
  }

  lemma WordsStep(s: string, pending: nat)
    requires ScanToken(s, pending).Scan? && !ScanToken(s, pending).token.EndOfFile?
    ensures var t := ScanToken(s, pending);
      Words(s, pending) ==
        if t.token.NewLine? then Words(t.rest, t.pending) else Cons(t.token, Words(t.rest, t.pending))
  {
    var t := ScanToken(s, pending);
    var l := LexAll(t.rest, t.pending);
    if l.Lexed? {
      assert ([t.token] + l.tokens)[1..] == l.tokens;
    }
  }

  lemma {:induction false} SpaceSkips(s: string, pending: nat)
    ensures Words(s, pending) == Words(Drop(IsSpace, s), 0)
    decreases |s| + pending
  {
    var r := Drop(IsSpace, s);
    var p := pending + NewLines(Take(IsSpace, s));
    if p > 0 {
      WordsStep(s, pending);
      SpaceSkips(r, p - 1);
    } else {
      assert ScanToken(s, pending) == ScanToken(r, 0);
    }
  }

  // -- Layout ---------------------------------------------------------------------------

  datatype Gap = Space(c: char) | Comment(line: string)

  predicate IsGap(g: Gap) {
    if g.Space? then IsSpace(g.c) else '\n' !in g.line
  }

  function Blank(gs: seq<Gap>): string {
    if gs == [] then ""
    else (if gs[0].Space? then [gs[0].c] else "//" + gs[0].line + "\n") + Blank(gs[1..])
  }

  lemma {:induction false} LineEnds(line: string, s: string)
    requires '\n' !in line
    ensures AfterLine(line + "\n" + s) == s
  {
    var text := line + "\n" + s;
    assert text[|line|] == '\n';
    if line == "" {
      assert text[1..] == s;
    } else {
      assert text[0] == line[0];
      LineEnds(line[1..], s);
      assert text[1..] == line[1..] + "\n" + s;
    }
  }

  lemma CommentSkips(line: string, s: string)
    requires '\n' !in line
    ensures Words("//" + line + "\n" + s, 0) == Words(s, 0)
  {
    var text := "//" + line + "\n" + s;
    assert text[1..] == "/" + line + "\n" + s;
    LineEnds("/" + line, s);
    assert ("/" + line) + "\n" + s == text[1..];
    assert text[1..][|line| + 1] == '\n';
    assert ScanWord(text) == Scan(Operator(Hash('/', NUL)), text[1..], 0);
    assert ScanToken(text, 0) == ScanToken(s, 1);
    assert LexAll(text, 0) == LexAll(s, 1);
    SpaceSkips(s, 1);
    SpaceSkips(s, 0);
  }

  lemma {:induction false} BlankSkips(gs: seq<Gap>, s: string)
    requires forall g :: g in gs ==> IsGap(g)
    ensures Words(Blank(gs) + s, 0) == Words(s, 0)
  {
    if gs == [] {
      assert Blank(gs) + s == s;
    } else {
      BlankSkips(gs[1..], s);
      var more := Blank(gs[1..]) + s;
      assert gs[0] in gs;
      match gs[0] {
        case Space(c) =>
          assert Blank(gs) + s == [c] + more;
          assert ([c] + more)[1..] == more;
          SpaceSkips([c] + more, 0);
          SpaceSkips(more, 0);
        case Comment(line) =>
          assert Blank(gs) + s == "//" + line + "\n" + more;
          CommentSkips(line, more);
      }
    }
  }

  /** Only two words in a row need something between them. */
  predicate Fits(ts: seq<Token>, gaps: seq<seq<Gap>>) {
    && |gaps| == |ts| + 1
    && (forall i :: 0 <= i < |ts| ==> Spelled(ts[i]))
    && (forall i :: 0 <= i < |gaps| ==> forall g :: g in gaps[i] ==> IsGap(g))
    && (forall i :: 1 <= i < |ts| && IsWord(ts[i - 1]) && IsWord(ts[i]) ==> gaps[i] != [])
  }

  function Text(ts: seq<Token>, gaps: seq<seq<Gap>>): string
    requires Fits(ts, gaps)
  {
    if ts == [] then Blank(gaps[0])
    else Blank(gaps[0]) + (Spell(ts[0]) + Text(ts[1..], gaps[1..]))
  }

  lemma TextFollows(t: Token, ts: seq<Token>, gaps: seq<seq<Gap>>)
    requires Fits(ts, gaps) && (ts != [] && IsWord(t) && IsWord(ts[0]) ==> gaps[0] != [])
    ensures Follows(t, Text(ts, gaps))
  {
    if gaps[0] != [] {
      assert gaps[0][0] in gaps[0];
    } else if ts != [] {
      assert Text(ts, gaps)[0] == Spell(ts[0])[0];
    }
  }

  lemma WordFirst(t: Token, more: string)
    requires Spelled(t) && Follows(t, more)
    ensures Words(Spell(t) + more, 0) == Cons(t, Words(more, 0))
  {
    var here := Spell(t) + more;
    SpellingReads(t, more);
    assert ScanToken(here, 0) == ScanHere(here) == Scan(t, more, Inside(t));
    WordsStep(here, 0);
    SpaceSkips(more, Inside(t));
    SpaceSkips(more, 0);
  }

  lemma NothingReads()
    ensures Words("", 0) == Lexed([EndOfFile])
  {
    assert LexAll("", 0) == Lexed([EndOfFile]);
    assert Strip([EndOfFile]) == [EndOfFile];
  }

  lemma FitsTail(ts: seq<Token>, gaps: seq<seq<Gap>>)
    requires Fits(ts, gaps) && ts != []
    ensures Fits(ts[1..], gaps[1..])
    ensures ts[1..] != [] && IsWord(ts[0]) && IsWord(ts[1..][0]) ==> gaps[1..][0] != []
  {
  }

  lemma TextFirst(ts: seq<Token>, gaps: seq<seq<Gap>>)
    requires Fits(ts, gaps) && ts != []
    ensures Fits(ts[1..], gaps[1..])
    ensures Words(Text(ts, gaps), 0) == Cons(ts[0], Words(Text(ts[1..], gaps[1..]), 0))
  {
    FitsTail(ts, gaps);
    var more := Text(ts[1..], gaps[1..]);
    BlankSkips(gaps[0], Spell(ts[0]) + more);
    TextFollows(ts[0], ts[1..], gaps[1..]);
    WordFirst(ts[0], more);
  }

  /** Every layout of a token list lexes to that list. */
  lemma {:induction false} TextReads(ts: seq<Token>, gaps: seq<seq<Gap>>)
    requires Fits(ts, gaps)
    ensures Words(Text(ts, gaps), 0) == Lexed(ts + [EndOfFile])
  {
    if ts == [] {
      BlankSkips(gaps[0], "");
      assert Blank(gaps[0]) + "" == Blank(gaps[0]);
      NothingReads();
    } else {
      TextFirst(ts, gaps);
      TextReads(ts[1..], gaps[1..]);
      assert [ts[0]] + (ts[1..] + [EndOfFile]) == ts + [EndOfFile];
    }
  }
}
