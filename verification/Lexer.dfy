/**
 The lexer of the quest language, src/eoplus/lex.cpp: what each call of ReadToken returns, the tokens of a
 whole file, and the law that no new-line is lost between them.
 */
module Lexer {
  import opened Common

  datatype Token =
    | Identifier(name: string)
    | Str(text: string)
    | Integer(value: int)
    | Boolean(truth: bool)
    | Operator(hash: int)
    | Symbol(c: char)
    | NewLine
    | EndOfFile

  const INT_MAX: int := 0x7FFF_FFFF

  // -- Characters -----------------------------------------------------------------------

  predicate IsSpace(c: char) {
    c == ' ' || c == '\t' || c == '\n' || c == '\r' || c == '\U{0B}' || c == '\U{0C}'
  }

  predicate IsDigit(c: char) { '0' <= c <= '9' }

  predicate IsAlpha(c: char) { 'a' <= c <= 'z' || 'A' <= c <= 'Z' }

  predicate IsIdentStart(c: char) { IsAlpha(c) || c == '_' || c == '$' }

  predicate IsIdent(c: char) { c != '$' && (IsIdentStart(c) || IsDigit(c)) }

  predicate IsSymbol(c: char) { c in ";{}.," }

  predicate IsOp(c: char) { c in "()&|=!<>+-*/%" }

  predicate IsQuote(c: char) { c == '"' }

  const UOP_ALT: char := '\U{02}'
  const NUL: char := '\0'

  predicate CheckOp(a: char, b: char) {
    match a
    case '(' | ')' | '+' => b == NUL
    case '&' => b == NUL || b == '&'
    case '|' => b == NUL || b == '|'
    case '-' => b == NUL || b == UOP_ALT
    case '*' | '/' | '%' => b == NUL
    case '<' | '>' | '!' => b == NUL || b == '='
    case '=' => b == '='
    case _ => false
  }

  /** UOP2, one byte. */
  function Hash(a: char, b: char): int {
    (a as int - 32 + b as int * 4) % 256
  }

  /** The header's promise: no two operators share a hash. */
  lemma HashIsUnique(a: char, b: char, c: char, d: char)
    requires CheckOp(a, b) && CheckOp(c, d) && Hash(a, b) == Hash(c, d)
    ensures a == c && b == d
  {
  }

  function Lower(s: string): (r: string)
    ensures |r| == |s|
  {
    if s == "" then ""
    else [if 'A' <= s[0] <= 'Z' then s[0] - 'A' + 'a' else s[0]] + Lower(s[1..])
  }

  lemma {:induction false} LowerIs(s: string, i: nat)
    requires i < |s|
    ensures Lower(s)[i] as int == s[i] as int + if 'A' <= s[i] <= 'Z' then 32 else 0
  {
    if i > 0 {
      LowerIs(s[1..], i - 1);
    }
  }

  // -- What a call of ReadToken returns -------------------------------------------------

  function Take(f: char -> bool, s: string): (r: string)
    ensures |r| <= |s|
  {
    if s != "" && f(s[0]) then [s[0]] + Take(f, s[1..]) else ""
  }

  function Drop(f: char -> bool, s: string): (r: string)
    ensures |r| == |s| - |Take(f, s)| && (r == "" || !f(r[0]))
  {
    if s != "" && f(s[0]) then Drop(f, s[1..]) else s
  }

  function NewLines(s: string): (n: nat)
    ensures n <= |s|
  {
    if s == "" then 0 else (if s[0] == '\n' then 1 else 0) + NewLines(s[1..])
  }

  /** The number that the digits write. */
  function Value(digits: string): int {
    if digits == "" then 0
    else Value(digits[..|digits| - 1]) * 10 + (digits[|digits| - 1] as int - '0' as int)
  }

  function Word(s: string): Token {
    if s == "true" then Boolean(true) else if s == "false" then Boolean(false) else Identifier(s)
  }

  datatype Quoted = Quoted(content: string, rest: string, newlines: nat) | Unterminated

  /** The rest of a string literal; at the end of the input the literal ends too. */
  function Unquote(s: string, escape: bool): (q: Quoted)
    ensures q.Quoted? ==> |q.rest| <= |s| && q.newlines + |q.rest| <= |s|
  {
    if s == "" then Quoted("", "", 0)
    else if !escape && s[0] == '\\' then Unquote(s[1..], true)
    else if !escape && s[0] == '"' then Quoted("", s[1..], 0)
    else if !escape && s[0] == '\n' then Unterminated
    else
      var q := Unquote(s[1..], false);
      if q.Unterminated? then q
      else Quoted([s[0]] + q.content, q.rest, q.newlines + if s[0] == '\n' then 1 else 0)
  }

  /** What follows the first line of s. */
  function AfterLine(s: string): (r: string)
    requires '\n' in s
    ensures |r| < |s|
  {
    if s[0] == '\n' then s[1..] else AfterLine(s[1..])
  }

  function Peek(s: string): char {
    if s == "" then NUL else s[0]
  }

  /** The second character that ReadOperator puts in the hash; it is consumed when it is an operator character. */
  function Second(a: char, next: char): char {
    if CheckOp(a, next) then next else NUL
  }

  /**
   The result of a call: a token, the unread input and the new-line tokens still to be given out; a lexer
   error; or nothing that C++ defines: an integer that overflows, or the endless loop of a comment that the
   input ends in.
   */
  datatype Scan = Scan(token: Token, rest: string, pending: nat) | Bad | Undefined

  function ScanOp(s: string): (r: Scan)
    requires s != "" && IsOp(s[0])
    ensures r.Scan? ==> r.token.Operator? && r.pending == 0 && |r.rest| < |s|
  {
    var b := Second(s[0], Peek(s[1..]));
    if CheckOp(s[0], b) then Scan(Operator(Hash(s[0], b)), if IsOp(b) then s[1..][1..] else s[1..], 0) else Bad
  }

  predicate IsComment(op: Scan) {
    op.Scan? && op.token == Operator(Hash('/', NUL)) && op.rest != "" && op.rest[0] == '/'
  }

  /** The token that starts here, if it is not a comment. */
  function ScanWord(r: string): (t: Scan)
    requires r != ""
    ensures t.Scan? ==> !t.token.EndOfFile? && !t.token.NewLine? && t.pending + |t.rest| < |r| && r[0] != '\n'
  {
    if IsDigit(r[0]) then
      var n := Value(Take(IsDigit, r));
      if n > INT_MAX then Undefined else Scan(Integer(n), Drop(IsDigit, r), 0)
    else if IsIdentStart(r[0]) then
      Scan(Word(Lower([r[0]] + Take(IsIdent, r[1..]))), Drop(IsIdent, r[1..]), 0)
    else if IsSymbol(r[0]) then Scan(Symbol(r[0]), r[1..], 0)
    else if IsOp(r[0]) then ScanOp(r)
    else if r[0] == '"' then
      var q := Unquote(r[1..], false);
      if q.Unterminated? then Bad else Scan(Str(q.content), q.rest, q.newlines)
    else Bad
  }

  function ScanToken(s: string, pending: nat): (t: Scan)
    ensures t.Scan? && !t.token.EndOfFile? ==> t.pending + |t.rest| < pending + |s|
    ensures t.Scan? && !t.token.NewLine? ==> pending == 0
    ensures t.Scan? && t.token.EndOfFile? ==> t.rest == "" && t.pending == 0
    decreases |s|, 1
  {
    var r := Drop(IsSpace, s);
    var p := pending + NewLines(Take(IsSpace, s));
    if p > 0 then Scan(NewLine, r, p - 1)
    else if r == "" then Scan(EndOfFile, r, 0)
    else ScanHere(r)
  }

  /** The token that starts here, or what follows the comment that starts here. */
  function ScanHere(r: string): (t: Scan)
    requires r != ""
    ensures t.Scan? ==> !t.token.EndOfFile? && t.pending + |t.rest| < |r|
    decreases |r|, 0
  {
    var t := ScanWord(r);
    if !IsComment(t) then t
    else if '\n' !in t.rest then Undefined
    else ScanToken(AfterLine(t.rest), 1)
  }

  datatype Lexed = Lexed(tokens: seq<Token>) | BadText | UndefinedText

  function Cons(t: Token, l: Lexed): Lexed {
    if l.Lexed? then Lexed([t] + l.tokens) else l
  }

  function LexAll(s: string, pending: nat): Lexed
    decreases |s| + pending
  {
    match ScanToken(s, pending)
    case Bad => BadText
    case Undefined => UndefinedText
    case Scan(t, rest, p) => if t.EndOfFile? then Lexed([EndOfFile]) else Cons(t, LexAll(rest, p))
  }

  // -- Every new-line character gives one new-line token --------------------------------

  lemma {:induction false} SplitNewLines(f: char -> bool, s: string)
    ensures NewLines(Take(f, s)) + NewLines(Drop(f, s)) == NewLines(s)
    ensures !f('\n') ==> NewLines(Take(f, s)) == 0
  {
    if s != "" && f(s[0]) {
      SplitNewLines(f, s[1..]);
      assert ([s[0]] + Take(f, s[1..]))[1..] == Take(f, s[1..]);
    }
  }

  lemma {:induction false} QuoteNewLines(s: string, escape: bool)
    ensures var q := Unquote(s, escape); q.Quoted? ==> q.newlines + NewLines(q.rest) == NewLines(s)
  {
    if s != "" {
      QuoteNewLines(s[1..], !escape && s[0] == '\\');
    }
  }

  lemma {:induction false} LineNewLines(s: string)
    requires '\n' in s
    ensures NewLines(s) == 1 + NewLines(AfterLine(s))
  {
    if s[0] != '\n' {
      LineNewLines(s[1..]);
    }
  }

  function IsNewLine(t: Token): nat {
    if t.NewLine? then 1 else 0
  }

  lemma OpNewLines(s: string)
    requires s != "" && IsOp(s[0])
    ensures ScanOp(s).Scan? ==> NewLines(ScanOp(s).rest) == NewLines(s)
  {
  }

  lemma WordNewLines(r: string)
    requires r != "" && ScanWord(r).Scan?
    ensures ScanWord(r).pending + NewLines(ScanWord(r).rest) == NewLines(r)
  {
    if IsDigit(r[0]) {
      SplitNewLines(IsDigit, r);
    } else if IsIdentStart(r[0]) {
      SplitNewLines(IsIdent, r[1..]);
    } else if IsSymbol(r[0]) {
    } else if IsOp(r[0]) {
      OpNewLines(r);
    } else {
      QuoteNewLines(r[1..], false);
    }
  }

  lemma {:induction false} TokenNewLines(s: string, pending: nat)
    ensures var t := ScanToken(s, pending);
      t.Scan? ==> IsNewLine(t.token) + t.pending + NewLines(t.rest) == pending + NewLines(s)
    decreases |s|
  {
    SplitNewLines(IsSpace, s);
    var r := Drop(IsSpace, s);
    if pending + NewLines(Take(IsSpace, s)) == 0 && r != "" {
      var t := ScanWord(r);
      if t.Scan? {
        WordNewLines(r);
      }
      if IsComment(t) && '\n' in t.rest {
        LineNewLines(t.rest);
        TokenNewLines(AfterLine(t.rest), 1);
      }
    }
  }

  function CountNewLines(ts: seq<Token>): nat {
    if ts == [] then 0 else IsNewLine(ts[0]) + CountNewLines(ts[1..])
  }

  /** In every text that lexes, as many new-line tokens as new-line characters, wherever those stand. */
  lemma {:induction false} LexNewLines(s: string, pending: nat)
    requires LexAll(s, pending).Lexed?
    ensures CountNewLines(LexAll(s, pending).tokens) == pending + NewLines(s)
    decreases |s| + pending
  {
    TokenNewLines(s, pending);
    var r := ScanToken(s, pending);
    if !r.token.EndOfFile? {
      LexNewLines(r.rest, r.pending);
      var l := LexAll(r.rest, r.pending).tokens;
      assert ([r.token] + l)[1..] == l;
    }
  }

  // -- The lexer itself -----------------------------------------------------------------

  predicate Digits(s: string) {
    forall i :: 0 <= i < |s| ==> IsDigit(s[i])
  }

  lemma {:induction false} TakeHolds(s: string)
    ensures Digits(Take(IsDigit, s))
  {
    if s != "" && IsDigit(s[0]) {
      TakeHolds(s[1..]);
    }
  }

  lemma {:induction false} ValueGrows(a: string, b: string)
    requires Digits(b) && Value(a) >= 0
    ensures Value(a) <= Value(a + b)
    decreases |b|
  {
    if b == "" {
      assert a + b == a;
    } else {
      assert (a + b)[..|a + b| - 1] == a + b[..|b| - 1];
      ValueGrows(a, b[..|b| - 1]);
    }
  }

  /** One round of ReadNumber's loop: the next digit joins the number, which stays in range. */
  lemma NextDigit(seen: string, c: char, more: string)
    requires Digits(more) && IsDigit(c) && Value(seen) >= 0 && Value(seen + ([c] + more)) <= INT_MAX
    ensures Value(seen + [c]) == Value(seen) * 10 + (c as int - '0' as int)
    ensures 0 <= Value(seen + [c]) <= INT_MAX && seen + ([c] + more) == (seen + [c]) + more
  {
    assert seen + ([c] + more) == (seen + [c]) + more;
    assert (seen + [c])[..|seen + [c]| - 1] == seen;
    ValueGrows(seen + [c], more);
  }

  /** The tokens ts and then what is still to be lexed make up the whole. */
  predicate Continued(all: Lexed, ts: seq<Token>, rest: Lexed) {
    if rest.Lexed? then all == Lexed(ts + rest.tokens) else all == rest && rest.BadText?
  }

  lemma NothingRead(all: Lexed)
    requires all != UndefinedText
    ensures Continued(all, [], all)
  {
    if all.Lexed? {
      assert [] + all.tokens == all.tokens;
    }
  }

  lemma OneRead(all: Lexed, ts: seq<Token>, t: Token, rest: Lexed)
    requires Continued(all, ts, Cons(t, rest))
    ensures Continued(all, ts + [t], rest)
  {
    if rest.Lexed? {
      assert ts + ([t] + rest.tokens) == ts + [t] + rest.tokens;
    }
  }

  /** The content s with n new-lines and then what is still to be unquoted make up the whole literal. */
  predicate Unquoting(whole: Quoted, s: string, n: int, rest: Quoted) {
    if rest.Quoted? then whole.Quoted? && whole.content == s + rest.content && whole.rest == rest.rest
      && whole.newlines == n + rest.newlines
    else whole.Unterminated?
  }

  lemma NothingUnquoted(whole: Quoted)
    ensures Unquoting(whole, "", 0, whole)
  {
    if whole.Quoted? {
      assert "" + whole.content == whole.content;
    }
  }

  lemma OneUnquoted(whole: Quoted, s: string, n: int, c: char, rest: Quoted)
    requires Unquoting(whole, s, n, if rest.Unterminated? then rest
      else Quoted([c] + rest.content, rest.rest, rest.newlines + if c == '\n' then 1 else 0))
    ensures Unquoting(whole, s + [c], n + (if c == '\n' then 1 else 0), rest)
  {
    if rest.Quoted? {
      assert s + ([c] + rest.content) == s + [c] + rest.content;
    }
  }

  class Lexer {
    const text: string
    var pos: nat
    var row: int
    var col: int
    var tokenBuffer: seq<Token>

    /** row is that of the next character; only new-line tokens are buffered. */
    ghost predicate Valid()
      reads this
    {
      && pos <= |text|
      && row + NewLines(text[pos..]) == 1 + NewLines(text)
      && forall i :: 0 <= i < |tokenBuffer| ==> tokenBuffer[i] == NewLine
    }

    /** What is still to be read. */
    function Rest(): string
      requires pos <= |text|
      reads this
    {
      text[pos..]
    }

    constructor (text: string)
      ensures Valid() && Rest() == text && tokenBuffer == []
    {
      this.text, pos, row, col, tokenBuffer := text, 0, 1, 0, [];
    }

    method PeekChar() returns (ok: bool, c: char)
      requires Valid()
      ensures ok == (Rest() != "") && c == Peek(Rest())
    {
      ok, c := pos < |text|, NUL;
      if ok {
        c := text[pos];
      }
    }

    method GetChar() returns (ok: bool, c: char)
      requires Valid()
      modifies this
      ensures Valid() && ok == (old(Rest()) != "")
      ensures ok ==> c == old(Rest())[0] && Rest() == old(Rest())[1..]
      ensures ok ==> tokenBuffer == if c == '\n' then old(tokenBuffer) + [NewLine] else old(tokenBuffer)
      ensures !ok ==> Rest() == old(Rest()) && tokenBuffer == old(tokenBuffer)
      ensures col == if !ok then old(col) else if c == '\n' then 0 else old(col) + 1
    {
      ok, c := pos < |text|, NUL;
      if ok {
        c := text[pos];
        assert text[pos..][1..] == text[pos + 1..];
        pos := pos + 1;
        col := col + 1;
        if c == '\n' {
          tokenBuffer := tokenBuffer + [NewLine];
          row := row + 1;
          col := 0;
        }
      }
    }

    method GetCharIf(f: char -> bool) returns (ok: bool, c: char)
      requires Valid()
      modifies this
      ensures Valid() && ok == (old(Rest()) != "" && f(old(Rest())[0]))
      ensures ok ==> c == old(Rest())[0] && Rest() == old(Rest())[1..]
      ensures ok ==> tokenBuffer == if c == '\n' then old(tokenBuffer) + [NewLine] else old(tokenBuffer)
      ensures !ok ==> Rest() == old(Rest()) && tokenBuffer == old(tokenBuffer)
    {
      ok, c := PeekChar();
      if !ok || !f(c) {
        return false, c;
      }
      ok, c := GetChar();
    }

    method SkipSpace()
      requires Valid()
      modifies this
      ensures Valid() && Rest() == Drop(IsSpace, old(Rest()))
      ensures |tokenBuffer| == |old(tokenBuffer)| + NewLines(Take(IsSpace, old(Rest())))
    {
      ghost var start := Rest();
      SplitNewLines(IsSpace, start);
      var more, c := true, NUL;
      while more
        invariant Valid() && Drop(IsSpace, Rest()) == Drop(IsSpace, start)
        invariant |tokenBuffer| + NewLines(Rest()) == |old(tokenBuffer)| + NewLines(start)
        invariant !more ==> Rest() == "" || !IsSpace(Rest()[0])
        decreases |Rest()|, more
      {
        more, c := GetCharIf(IsSpace);
      }
    }

    /** An invalid token is returned as None. */
    method ReadNumber() returns (t: Option<Token>)
      requires Valid() && Value(Take(IsDigit, Rest())) <= INT_MAX
      modifies this
      ensures Valid() && tokenBuffer == old(tokenBuffer) && Rest() == Drop(IsDigit, old(Rest()))
      ensures t == if Rest() == old(Rest()) then None else Some(Integer(Value(Take(IsDigit, old(Rest())))))
    {
      ghost var all := Take(IsDigit, Rest());
      var ok, c := GetCharIf(IsDigit);
      if !ok {
        return None;
      }
      var number := c as int - '0' as int;
      ghost var seen := [c];
      assert Value(seen[..0]) == 0;
      while true
        invariant Valid() && tokenBuffer == old(tokenBuffer)
        invariant seen + Take(IsDigit, Rest()) == all && Drop(IsDigit, Rest()) == Drop(IsDigit, old(Rest()))
        invariant number == Value(seen) && 0 <= number <= INT_MAX
        invariant |Rest()| < |old(Rest())|
        decreases |Rest()|
      {
        ok, c := GetCharIf(IsDigit);
        if !ok {
          break;
        }
        TakeHolds(Rest());
        NextDigit(seen, c, Take(IsDigit, Rest()));
        if number > INT_MAX / 10 {
          number := INT_MAX;
        }
        number := number * 10 + (c as int - '0' as int);
        seen := seen + [c];
      }
      assert seen + "" == seen;
      t := Some(Integer(number));
    }

    method ReadString() returns (t: Option<Token>)
      requires Valid()
      modifies this
      ensures Valid()
      ensures old(Rest()) != "" && IsQuote(old(Rest())[0]) ==> var q := Unquote(old(Rest())[1..], false);
        if q.Unterminated? then t == None
        else t == Some(Str(q.content)) && Rest() == q.rest && |tokenBuffer| == |old(tokenBuffer)| + q.newlines
      ensures old(Rest()) == "" || !IsQuote(old(Rest())[0]) ==> t == None && Rest() == old(Rest())
    {
      var s, escape := "", false;
      var ok, c := GetCharIf(IsQuote);
      if !ok {
        return None;
      }
      ghost var q := Unquote(Rest(), false);
      NothingUnquoted(q);
      while true
        invariant Valid() && Unquoting(q, s, |tokenBuffer| - |old(tokenBuffer)|, Unquote(Rest(), escape))
        decreases |Rest()|
      {
        ghost var rest, n := Rest(), |tokenBuffer| - |old(tokenBuffer)|;
        ok, c := GetChar();
        if !ok {
          break;
        }
        if escape {
          OneUnquoted(q, s, n, c, Unquote(Rest(), false));
          s := s + [c];
          escape := false;
        } else if c == '\\' {
          escape := true;
        } else if c == '"' {
          break;
        } else if c == '\n' {
          return None;
        } else {
          OneUnquoted(q, s, n, c, Unquote(Rest(), false));
          s := s + [c];
        }
      }
      assert s + "" == s;
      t := Some(Str(s));
    }

    method ReadIdentifier() returns (t: Option<Token>)
      requires Valid()
      modifies this
      ensures Valid() && tokenBuffer == old(tokenBuffer)
      ensures old(Rest()) != "" && IsIdentStart(old(Rest())[0]) ==> var r := old(Rest());
        t == Some(Word(Lower([r[0]] + Take(IsIdent, r[1..])))) && Rest() == Drop(IsIdent, r[1..])
      ensures old(Rest()) == "" || !IsIdentStart(old(Rest())[0]) ==> t == None && Rest() == old(Rest())
    {
      var ok, c := GetCharIf(IsIdentStart);
      if !ok {
        return None;
      }
      var s := [c];
      ghost var all := s + Take(IsIdent, Rest());
      while true
        invariant Valid() && tokenBuffer == old(tokenBuffer)
        invariant s + Take(IsIdent, Rest()) == all && Drop(IsIdent, Rest()) == Drop(IsIdent, old(Rest())[1..])
        decreases |Rest()|
      {
        ghost var rest := Rest();
        ok, c := GetCharIf(IsIdent);
        if !ok {
          break;
        }
        assert s + Take(IsIdent, rest) == s + [c] + Take(IsIdent, Rest());
        s := s + [c];
      }
      assert s + "" == s;
      t := Some(Word(Lower(s)));
    }

    method ReadSymbol() returns (t: Option<Token>)
      requires Valid()
      modifies this
      ensures Valid() && tokenBuffer == old(tokenBuffer)
      ensures old(Rest()) != "" && IsSymbol(old(Rest())[0]) ==>
        t == Some(Symbol(old(Rest())[0])) && Rest() == old(Rest())[1..]
      ensures old(Rest()) == "" || !IsSymbol(old(Rest())[0]) ==> t == None && Rest() == old(Rest())
    {
      var ok, c := GetCharIf(IsSymbol);
      t := if ok then Some(Symbol(c)) else None;
    }

    method ReadOperator() returns (t: Option<Token>)
      requires Valid()
      modifies this
      ensures Valid() && tokenBuffer == old(tokenBuffer)
      ensures old(Rest()) != "" && IsOp(old(Rest())[0]) ==> var op := ScanOp(old(Rest()));
        if op.Scan? then t == Some(op.token) && Rest() == op.rest else t == None
      ensures old(Rest()) == "" || !IsOp(old(Rest())[0]) ==> t == None && Rest() == old(Rest())
    {
      var ok, c := GetCharIf(IsOp);
      if !ok {
        return None;
      }
      var _, cc := PeekChar();
      if CheckOp(c, cc) {
        var _, _ := GetCharIf(IsOp);
      }
      if CheckOp(c, cc) {
        t := Some(Operator(Hash(c, cc)));
      } else if CheckOp(c, NUL) {
        t := Some(Operator(Hash(c, NUL)));
      } else {
        t := None;
      }
    }

    /** The comment loop: it ends because a new-line is still to come. */
    method SkipLine(first: char)
      requires Valid() && first != '\n' && '\n' in Rest()
      modifies this
      ensures Valid() && Rest() == AfterLine(old(Rest())) && tokenBuffer == old(tokenBuffer) + [NewLine]
    {
      var c := first;
      while c != '\n'
        invariant Valid()
        invariant c != '\n' ==>
          '\n' in Rest() && AfterLine(Rest()) == AfterLine(old(Rest())) && tokenBuffer == old(tokenBuffer)
        invariant c == '\n' ==> Rest() == AfterLine(old(Rest())) && tokenBuffer == old(tokenBuffer) + [NewLine]
        decreases |Rest()|
      {
        var _, next := GetChar();
        c := next;
      }
    }

    /** The choice of reader by the first character; an invalid token is None. */
    method ReadWord(c: char) returns (t: Option<Token>)
      requires Valid() && Rest() != "" && c == Rest()[0] && tokenBuffer == [] && ScanWord(Rest()) != Undefined
      modifies this
      ensures Valid()
      ensures var w := ScanWord(old(Rest()));
        if w.Scan? then t == Some(w.token) && Rest() == w.rest && |tokenBuffer| == w.pending else t == None
    {
      t := None;
      if IsDigit(c) {
        t := ReadNumber();
      } else if IsIdentStart(c) {
        t := ReadIdentifier();
      } else if IsSymbol(c) {
        t := ReadSymbol();
      } else if IsOp(c) {
        t := ReadOperator();
      } else if c == '"' {
        t := ReadString();
      }
    }

    /** Throwing a lexer error is None. */
    method ReadToken() returns (t: Option<Token>)
      requires Valid() && ScanToken(Rest(), |tokenBuffer|) != Undefined
      modifies this
      ensures Valid()
      ensures var w := old(ScanToken(Rest(), |tokenBuffer|));
        if w.Scan? then t == Some(w.token) && Rest() == w.rest && |tokenBuffer| == w.pending else t == None
      decreases |Rest()|, 1
    {
      SkipSpace();
      if tokenBuffer != [] {
        t := Some(tokenBuffer[0]);
        tokenBuffer := tokenBuffer[1..];
        return;
      }
      var some, c := PeekChar();
      if !some {
        return Some(EndOfFile);
      }
      t := ReadHere(c);
    }

    /** The second half of ReadToken, which reads a line comment and starts again. */
    method ReadHere(c: char) returns (t: Option<Token>)
      requires Valid() && Rest() != "" && c == Rest()[0] && tokenBuffer == [] && ScanHere(Rest()) != Undefined
      modifies this
      ensures Valid()
      ensures var w := old(ScanHere(Rest()));
        if w.Scan? then t == Some(w.token) && Rest() == w.rest && |tokenBuffer| == w.pending else t == None
      decreases |Rest()|, 0
    {
      ghost var w := ScanWord(Rest());
      t := ReadWord(c);
      if t == Some(Operator(Hash('/', NUL))) {
        var more, cc := PeekChar();
        assert IsComment(w) == (more && cc == '/');
        if more && cc == '/' {
          SkipLine(c);
          t := ReadToken();
        }
      }
    }

    /** Lexer::Lex: every token up to the end of the file. */
    method Lex() returns (tokens: Option<seq<Token>>)
      requires Valid() && LexAll(Rest(), |tokenBuffer|) != UndefinedText
      modifies this
      ensures var l := old(LexAll(Rest(), |tokenBuffer|));
        if l.Lexed? then tokens == Some(l.tokens) else tokens == None
    {
      ghost var all := LexAll(Rest(), |tokenBuffer|);
      var ts: seq<Token> := [];
      NothingRead(all);
      while true
        invariant Valid() && Continued(all, ts, LexAll(Rest(), |tokenBuffer|))
        decreases |Rest()| + |tokenBuffer|
      {
        ghost var l := LexAll(Rest(), |tokenBuffer|);
        var t := ReadToken();
        if t == None {
          return None;
        }
        if t.value == EndOfFile {
          return Some(ts + [t.value]);
        }
        OneRead(all, ts, t.value, LexAll(Rest(), |tokenBuffer|));
        ts := ts + [t.value];
      }
      tokens := None;
    }
  }
}
