/**
 Each form of the quest language by itself: how its tokens are written, and what the parser builds from it, keyword
 by keyword.
 */
module QuestForms {
  import opened Common
  import opened Lexer
  import opened Spelling
  import opened QuestGrammar

  // -- How tokens are written -----------------------------------------------------------

  predicate Unescaped(s: string) {
    forall i :: 0 <= i < |s| ==> s[i] != '\\' && s[i] != '"' && s[i] != '\n'
  }

  lemma {:induction false} EscapeNone(s: string)
    requires Unescaped(s)
    ensures Escape(s) == s
  {
    if s != "" {
      EscapeNone(s[1..]);
      assert [s[0]] + s[1..] == s;
    }
  }

  lemma {:induction false} EscapeJoins(s: string, t: string)
    ensures Escape(s + t) == Escape(s) + Escape(t)
  {
    if s == "" {
      assert s + t == t;
    } else {
      assert (s + t)[1..] == s[1..] + t;
      EscapeJoins(s[1..], t);
    }
  }

  lemma EscapeOne(c: char)
    requires c == '\\' || c == '"' || c == '\n'
    ensures Escape([c]) == ['\\', c]
  {
    assert [c][1..] == "";
  }

  /** A string stands in quotes; a quote, a backslash or a new-line in it stands behind a backslash. */
  lemma StringsWritten(a: string, c: char, b: string)
    requires Unescaped(a) && Unescaped(b) && (c == '\\' || c == '"' || c == '\n')
    ensures Spell(Str(a)) == "\"" + a + "\""
    ensures Spell(Str(a + [c] + b)) == "\"" + (a + ['\\', c] + b) + "\""
  {
    EscapeNone(a);
    EscapeNone(b);
    EscapeOne(c);
    EscapeJoins(a + [c], b);
    EscapeJoins(a, [c]);
  }

  /** Names, symbols and brackets stand for themselves. */
  lemma OthersWritten(name: string)
    requires IsName(name)
    ensures Spell(Identifier(name)) == name && Spell(OPEN) == "(" && Spell(CLOSE) == ")"
    ensures Spell(Symbol('{')) == "{" && Spell(Symbol('}')) == "}" && Spell(Symbol(';')) == ";"
    ensures Spell(Symbol('.')) == "." && Spell(Symbol(',')) == ","
  {
  }

  /** Numbers are decimal: the digits before the last one write a tenth. */
  lemma NumbersWritten(n: nat)
    requires n <= INT_MAX
    ensures n < 10 ==> Spell(Integer(n)) == ["0123456789"[n]]
    ensures n >= 10 ==> Spell(Integer(n)) == Spell(Integer(n / 10)) + ["0123456789"[n % 10]]
  {
  }

  /** A word is read in lower case. */
  lemma WordReads(word: string, rest: string)
    requires word != "" && IsIdentStart(word[0]) && (forall i :: 1 <= i < |word| ==> IsIdent(word[i]))
    requires rest == "" || !IsIdent(rest[0])
    ensures ScanWord(word + rest) == Scan(Word(Lower(word)), rest, 0)
  {
    WordTaken(word, rest);
    WordScans(word + rest);
  }

  lemma WordTaken(word: string, rest: string)
    requires word != "" && (forall i :: 1 <= i < |word| ==> IsIdent(word[i])) && (rest == "" || !IsIdent(rest[0]))
    ensures var s := word + rest; [s[0]] + Take(IsIdent, s[1..]) == word && Drop(IsIdent, s[1..]) == rest
  {
    assert (word + rest)[1..] == word[1..] + rest;
    TakeWhole(IsIdent, word[1..], rest);
    assert [word[0]] + word[1..] == word;
  }

  lemma WordScans(s: string)
    requires s != "" && IsIdentStart(s[0])
    ensures ScanWord(s) == Scan(Word(Lower([s[0]] + Take(IsIdent, s[1..]))), Drop(IsIdent, s[1..]), 0)
  {
  }

  lemma WordsAre(word: string)
    ensures Word(word) ==
      if word == "true" then Boolean(true) else if word == "false" then Boolean(false) else Identifier(word)
  {
  }

  /** An operator of two characters is one token, and its hash is made of both. */
  lemma OperatorsRead(a: char, b: char, rest: string)
    requires IsOp(a) && IsOp(b) && CheckOp(a, b)
    ensures ScanWord([a, b] + rest) == Scan(Operator((a as int - 32 + b as int * 4) % 256), rest, 0)
  {
    var s := [a, b] + rest;
    assert s[1..] == [b] + rest && s[1..][1..] == rest;
    OperatorScans(s);
  }

  lemma OperatorScans(s: string)
    requires s != "" && IsOp(s[0])
    ensures ScanWord(s) == ScanOp(s)
  {
  }

  lemma OperatorsAre(a: char, b: char)
    requires IsOp(b)
    ensures CheckOp(a, b) <==>
      a == b == '&' || a == b == '|' || (b == '=' && (a == '<' || a == '>' || a == '!' || a == '='))
  {
  }

  // -- Expressions ----------------------------------------------------------------------

  /** goto is a call of setstate. */
  lemma GotoReads(target: string, k: seq<Token>)
    ensures ParseExpression([Identifier("goto"), Identifier(target)] + k)
      == Parsed(Expression([], "setstate", [Text(target)]), k)
  {
    var ts := [Identifier("goto"), Identifier(target)] + k;
    assert ts[1..][0] == Identifier(target) && ts[2..] == k;
  }

  lemma ScopeReads(name: string, scope: Scope, k: seq<Token>)
    requires (name, scope) in
      {("character", CharacterScope), ("npc", NpcScope), ("map", MapScope), ("world", WorldScope)}
    ensures ParseScopes([Identifier(name), Symbol('.')] + k) ==
      var more := ParseScopes(k); if more.Failed? then Failed else Parsed([scope] + more.value, more.rest)
  {
    var ts := [Identifier(name), Symbol('.')] + k;
    assert ts[1..][0] == Symbol('.') && ts[2..] == k;
  }

  /** A call: the scopes stand between the name and the brackets. */
  lemma CallReads(name: string, n: nat, s: string, k: seq<Token>)
    requires name != "goto"
    ensures ParseExpression([Identifier(name), OPEN, CLOSE] + k) == Parsed(Expression([], name, []), k)
    ensures ParseExpression([Identifier(name), OPEN, Integer(n), Symbol(','), Str(s), CLOSE] + k)
      == Parsed(Expression([], name, [Number(n), Text(s)]), k)
    ensures ParseExpression([Identifier(name), Identifier("npc"), Symbol('.'), OPEN, CLOSE] + k)
      == Parsed(Expression([NpcScope], name, []), k)
  {
    EmptyCall(name, k);
    FullCall(name, n, s, k);
    var ts := [OPEN, CLOSE] + k;
    ScopeReads("npc", NpcScope, ts);
    assert ([Identifier(name), Identifier("npc"), Symbol('.'), OPEN, CLOSE] + k)[1..]
      == [Identifier("npc"), Symbol('.')] + ts;
    assert [NpcScope] + [] == [NpcScope];
    assert ts[1..][0] == CLOSE && ts[1..][1..] == k;
  }

  lemma EmptyCall(name: string, k: seq<Token>)
    requires name != "goto"
    ensures ParseExpression([Identifier(name), OPEN, CLOSE] + k) == Parsed(Expression([], name, []), k)
  {
    var ts := [Identifier(name), OPEN, CLOSE] + k;
    assert ts[1..] == [OPEN, CLOSE] + k;
    assert ts[1..][1..][0] == CLOSE && ts[1..][1..][1..] == k;
  }

  lemma FullCall(name: string, n: nat, s: string, k: seq<Token>)
    requires name != "goto"
    ensures ParseExpression([Identifier(name), OPEN, Integer(n), Symbol(','), Str(s), CLOSE] + k)
      == Parsed(Expression([], name, [Number(n), Text(s)]), k)
  {
    var args := [Integer(n), Symbol(','), Str(s), CLOSE] + k;
    var last := [Str(s), CLOSE] + k;
    assert last[1..][0] == CLOSE && last[2..] == k && ParseArgs(last) == Parsed([Text(s)], k);
    assert args[1..][0] == Symbol(',') && args[2..] == last;
    assert [Number(n)] + [Text(s)] == [Number(n), Text(s)];
    var ts := [Identifier(name), OPEN, Integer(n), Symbol(','), Str(s), CLOSE] + k;
    assert ts[1..] == [OPEN] + args && ts[1..][1..] == args;
  }

  // -- Entries of a state ---------------------------------------------------------------

  /** A rule is a test and what it leads to; a goal is a rule whose index is remembered. */
  lemma RuleReads(ts: seq<Token>, test: Expression, us: seq<Token>, act: Expression, k: seq<Token>, b: Block)
    requires ParseExpression(ts) == Parsed(test, us) && ParseExpression(us) == Parsed(act, k)
    ensures var s := b.state.(rules := b.state.rules + [Rule(test, Action(Always, NO_EXPRESSION, act))]);
      && ParseEntry("rule", ts, b) == Parsed(b.(state := s), k)
      && ParseEntry("goal", ts, b) == Parsed(b.(state := s.(goalRule := |b.state.rules|)), k)
  {
  }

  /** Conditional actions test first. */
  lemma ConditionReads(ts: seq<Token>, test: Expression, us: seq<Token>, act: Expression, k: seq<Token>, b: Block)
    requires ParseExpression(ts) == Parsed(test, us) && ParseExpression(us) == Parsed(act, k)
    ensures ParseEntry("if", ts, b)
      == Parsed(b.(state := b.state.(actions := b.state.actions + [Action(If, test, act)])), k)
    ensures ParseEntry("elseif", ts, b) == ParseEntry("elif", ts, b)
      == Parsed(b.(state := b.state.(actions := b.state.actions + [Action(ElseIf, test, act)])), k)
  {
  }

  lemma ActionReads(ts: seq<Token>, act: Expression, k: seq<Token>, b: Block)
    requires ParseExpression(ts) == Parsed(act, k)
    ensures ParseEntry("action", ts, b)
      == Parsed(b.(state := b.state.(actions := b.state.actions + [Action(Always, NO_EXPRESSION, act)])), k)
    ensures ParseEntry("else", ts, b)
      == Parsed(b.(state := b.state.(actions := b.state.actions + [Action(Else, NO_EXPRESSION, act)])), k)
  {
  }

  /** A state is described once, and an unknown keyword is an error. */
  lemma DescReads(text: string, k: seq<Token>, b: Block, key: string, ts: seq<Token>)
    ensures ParseEntry("desc", [Str(text)] + k, b)
      == if b.hasDesc then Failed else Parsed(Block(b.state.(desc := text), true), k)
    ensures key !in {"rule", "goal", "if", "elseif", "elif", "action", "else", "desc"} ==>
      ParseEntry(key, ts, b).Failed?
  {
    assert ([Str(text)] + k)[1..] == k;
  }

  // -- The main block -------------------------------------------------------------------

  /** The attributes of a quest: each once, hidden and hidden_end being one attribute. */
  lemma FlagsRead(k: seq<Token>, h: Header)
    ensures ParseMainEntry("hidden", k, h) == if h.info.hidden != NotHidden then Failed
      else Parsed(h.(info := h.info.(hidden := Hidden)), k)
    ensures ParseMainEntry("hidden_end", k, h) == if h.info.hidden != NotHidden then Failed
      else Parsed(h.(info := h.info.(hidden := HiddenEnd)), k)
    ensures ParseMainEntry("disabled", k, h) == if h.info.disabled then Failed
      else Parsed(h.(info := h.info.(disabled := true)), k)
  {
  }

  lemma NameReads(text: string, k: seq<Token>, h: Header)
    ensures ParseMainEntry("questname", [Str(text)] + k, h)
      == if h.hasName then Failed else Parsed(h.(info := h.info.(name := text), hasName := true), k)
  {
    assert ([Str(text)] + k)[1..] == k;
  }

  lemma VersionReads(major: nat, minor: nat, k: seq<Token>)
    requires major < 0x1_0000 && minor < 0x1_0000
    ensures ParseVersion([Integer(major), Symbol('.'), Integer(minor)] + k) == Parsed(major * 65536 + minor, k)
  {
    var ts := [Integer(major), Symbol('.'), Integer(minor)] + k;
    assert ts[1..][0] == Symbol('.') && ts[2..][0] == Integer(minor) && ts[3..] == k;
  }

  lemma VersionOnce(ts: seq<Token>, h: Header)
    ensures var v := ParseVersion(ts);
      ParseMainEntry("version", ts, h) ==
        if h.hasVersion || v.Failed? then Failed
        else Parsed(h.(info := h.info.(version := v.value), hasVersion := true), v.rest)
  {
  }

  /** A file holds one main block, and states of different names. */
  lemma PartsRead(name: string, ts: seq<Token>, q: Quest)
    ensures ParsePart("main", [Symbol('{')] + ts, q) ==
      var info := ParseMain(ts, Header(Info("", 0, NotHidden, false), false, false));
      if q.hasInfo || info.Failed? then Failed
      else Parsed(q.(hasInfo := true, info := info.value), info.rest)
    ensures ParsePart("state", [Identifier(name), Symbol('{')] + ts, q) ==
      var b := ParseBlock(ts, Block(State("", [], [], 0), false));
      if name in q.states || b.Failed? then Failed
      else Parsed(q.(states := q.states[name := b.value.state]), b.rest)
  {
    assert ([Symbol('{')] + ts)[1..] == ts;
    var us := [Identifier(name), Symbol('{')] + ts;
    assert us[1..][0] == Symbol('{') && us[2..] == ts;
  }
}
