/**
 The quest parser, src/eoplus/parse.cpp: each method builds what the grammar says about the tokens still to
 come. Throwing a parser error is None.
 */
module Parser {
  import opened Common
  import opened Lexer
  import opened Spelling
  import opened TokenServer
  import opened QuestGrammar
  import QuestText
  import G = QuestGrammar

  /** The result and the tokens left agree with the grammar. */
  predicate Agrees<T(==)>(p: Parsed<T>, r: Option<T>, rest: seq<Token>) {
    match p
    case Failed => r == None
    case Parsed(value, left) => r == Some(value) && rest == left
  }

  /** A loop that has collected xs so far and still has to parse p builds the whole. */
  predicate Continues<T(==)>(whole: Parsed<seq<T>>, xs: seq<T>, p: Parsed<seq<T>>) {
    match p
    case Failed => whole.Failed?
    case Parsed(value, left) => whole == Parsed(xs + value, left)
  }

  lemma ContinuesNone<T>(whole: Parsed<seq<T>>)
    ensures Continues(whole, [], whole)
  {
    if whole.Parsed? {
      assert [] + whole.value == whole.value;
    }
  }

  lemma ContinuesOne<T>(whole: Parsed<seq<T>>, xs: seq<T>, x: T, more: Parsed<seq<T>>)
    requires Continues(whole, xs, if more.Failed? then Failed else Parsed([x] + more.value, more.rest))
    ensures Continues(whole, xs + [x], more)
  {
    if more.Parsed? {
      assert xs + ([x] + more.value) == xs + [x] + more.value;
    }
  }

  datatype Outcome = Handled(block: Block) | Unknown | Thrown

  class Parser {
    const tok: Server
    var quest: Quest

    constructor (tokens: seq<Token>)
      ensures fresh(tok) && tok.Valid() && tok.Rest() == Strip(tokens) && quest == NO_QUEST
    {
      tok := new Server(tokens);
      quest := NO_QUEST;
    }

    method GetTokenIf(f: Token -> bool, allow: set<Kind>) returns (t: Option<Token>)
      requires tok.Valid() && NewLineKind !in allow
      modifies tok
      ensures tok.Valid()
      ensures var r := old(tok.Rest());
        if r != [] && KindOf(r[0]) in allow && f(r[0])
        then t == Some(r[0]) && tok.Rest() == r[1..]
        else t == None && tok.Rest() == r
    {
      ghost var r := tok.Rest();
      var newlines;
      t, newlines := tok.GetToken(allow);
      if t != None && !f(t.value) {
        tok.PutBack(t.value, newlines);
        assert [r[0]] + r[1..] == r;
        t := None;
      }
    }

    method ParseVersion() returns (r: Option<int>)
      requires tok.Valid()
      modifies tok
      ensures tok.Valid() && Agrees(G.ParseVersion(old(tok.Rest())), r, tok.Rest())
    {
      ghost var ts := tok.Rest();
      var t, _ := tok.GetToken({IntegerKind});
      if t == None {
        return None;
      }
      var version := t.value.value * 0x1_0000 % 0x1_0000_0000;
      var dot := GetTokenIf(t => t == Symbol('.'), {SymbolKind});
      if dot != None {
        assert ts[1..][1..] == ts[2..];
        var minor, _ := tok.GetToken({IntegerKind});
        if minor == None {
          return None;
        }
        assert ts[2..][1..] == ts[3..];
        // the low half of version is clear, so that the source's bitwise or is a sum
        version := version + minor.value.value % 0x1_0000;
      }
      r := Some(version);
    }

    /** One round of ParseScopes' loop: a scope with its dot, the end of the scopes, or an error. */
    method NextScope() returns (more: bool, scope: Option<Scope>)
      requires tok.Valid()
      modifies tok
      ensures tok.Valid()
      ensures var ts := old(tok.Rest());
        if !StartsName(ts) || ScopeOf(ts[0].name) == None then !more && tok.Rest() == ts
        else if StartsWith(ts[1..], Symbol('.')) then more && scope == ScopeOf(ts[0].name) && tok.Rest() == ts[2..]
        else more && scope == None
    {
      ghost var ts := tok.Rest();
      var t, newlines := tok.GetToken({IdentifierKind});
      if t == None {
        return false, None;
      }
      scope := ScopeOf(t.value.name);
      if scope == None {
        tok.PutBack(t.value, newlines);
        assert [ts[0]] + ts[1..] == ts;
        return false, None;
      }
      var dot := GetTokenIf(t => t == Symbol('.'), {SymbolKind});
      assert ts[1..] != [] ==> ts[1..][1..] == ts[2..];
      more, scope := true, if dot == None then None else scope;
    }

    method ParseScopes() returns (r: Option<seq<Scope>>)
      requires tok.Valid()
      modifies tok
      ensures tok.Valid() && Agrees(G.ParseScopes(old(tok.Rest())), r, tok.Rest())
    {
      ghost var whole := G.ParseScopes(tok.Rest());
      var scopes: seq<Scope> := [];
      ContinuesNone(whole);
      while true
        invariant tok.Valid() && Continues(whole, scopes, G.ParseScopes(tok.Rest()))
        decreases |tok.Rest()|
      {
        var more, scope := NextScope();
        if !more {
          break;
        }
        if scope == None {
          return None;
        }
        ContinuesOne(whole, scopes, scope.value, G.ParseScopes(tok.Rest()));
        scopes := scopes + [scope.value];
      }
      assert scopes + [] == scopes;
      r := Some(scopes);
    }

    /** One round of the argument loop: an argument, and whether the list goes on; or an error. */
    method NextArg() returns (arg: Option<Variant>, more: bool)
      requires tok.Valid()
      modifies tok
      ensures tok.Valid()
      ensures var ts := old(tok.Rest());
        if (StartsStr(ts) || StartsInteger(ts)) && (StartsWith(ts[1..], Symbol(',')) || StartsWith(ts[1..], CLOSE))
        then arg == Some(ArgOf(ts[0])) && more == (ts[1] != CLOSE) && tok.Rest() == ts[2..]
        else arg == None
    {
      ghost var ts := tok.Rest();
      var t, _ := tok.GetToken({StringKind, IntegerKind});
      if t == None {
        return None, false;
      }
      var next := GetTokenIf(t => t == Symbol(',') || t == CLOSE, {SymbolKind, OperatorKind});
      if next == None {
        return None, false;
      }
      assert ts[1..][1..] == ts[2..];
      arg, more := Some(ArgOf(t.value)), next != Some(CLOSE);
    }

    method ParseArgs() returns (r: Option<seq<Variant>>)
      requires tok.Valid()
      modifies tok
      ensures tok.Valid() && Agrees(G.ParseArgs(old(tok.Rest())), r, tok.Rest())
    {
      ghost var whole := G.ParseArgs(tok.Rest());
      var args: seq<Variant> := [];
      ContinuesNone(whole);
      while true
        invariant tok.Valid() && Continues(whole, args, G.ParseArgs(tok.Rest()))
        decreases |tok.Rest()|
      {
        var arg, more := NextArg();
        if arg == None {
          return None;
        }
        if !more {
          return Some(args + [arg.value]);
        }
        ContinuesOne(whole, args, arg.value, G.ParseArgs(tok.Rest()));
        args := args + [arg.value];
      }
      r := None;
    }

    method ParseCall(name: string) returns (r: Option<Expression>)
      requires tok.Valid()
      modifies tok
      ensures tok.Valid() && Agrees(G.ParseCall(name, old(tok.Rest())), r, tok.Rest())
    {
      var scopes := ParseScopes();
      if scopes == None {
        return None;
      }
      var t := GetTokenIf(t => t == OPEN, {OperatorKind});
      if t == None {
        return None;
      }
      t := GetTokenIf(t => t == CLOSE, {OperatorKind});
      if t != None {
        return Some(Expression(scopes.value, name, []));
      }
      var args := ParseArgs();
      r := if args == None then None else Some(Expression(scopes.value, name, args.value));
    }

    method ParseExpression() returns (r: Option<Expression>)
      requires tok.Valid()
      modifies tok
      ensures tok.Valid() && Agrees(G.ParseExpression(old(tok.Rest())), r, tok.Rest())
    {
      ghost var ts := tok.Rest();
      var t, _ := tok.GetToken({IdentifierKind});
      if t == None {
        return Some(NO_EXPRESSION);
      }
      if t.value.name == "goto" {
        var tt, _ := tok.GetToken({IdentifierKind});
        if tt == None {
          return None;
        }
        assert ts[1..][1..] == ts[2..];
        return Some(Expression([], "setstate", [Text(tt.value.name)]));
      }
      r := ParseCall(t.value.name);
    }

    method ParseStr() returns (r: Option<string>)
      requires tok.Valid()
      modifies tok
      ensures tok.Valid()
      ensures var ts := old(tok.Rest());
        if StartsStr(ts) then r == Some(ts[0].text) && tok.Rest() == ts[1..] else r == None
    {
      var t, _ := tok.GetToken({StringKind});
      r := if t == None then None else Some(t.value.text);
    }

    method ParseAction() returns (r: Option<Action>)
      requires tok.Valid()
      modifies tok
      ensures tok.Valid() && Agrees(G.ParseAction(old(tok.Rest())), r, tok.Rest())
    {
      var e := ParseExpression();
      r := if e == None then None else Some(Action(Always, NO_EXPRESSION, e.value));
    }

    method ParseRule() returns (r: Option<Rule>)
      requires tok.Valid()
      modifies tok
      ensures tok.Valid() && Agrees(G.ParseRule(old(tok.Rest())), r, tok.Rest())
    {
      var e := ParseExpression();
      if e == None {
        return None;
      }
      var a := ParseAction();
      r := if a == None then None else Some(Rule(e.value, a.value));
    }

    /** The entries that only states have: desc and goal. */
    method HandleCustom(entry: string, b: Block) returns (o: Outcome)
      requires tok.Valid() && entry !in {"rule", "action", "if", "elseif", "elif", "else"}
      modifies tok
      ensures tok.Valid()
      ensures var p := G.ParseEntry(entry, old(tok.Rest()), b);
        if p.Failed? then !o.Handled? else o == Handled(p.value) && tok.Rest() == p.rest
      ensures o.Unknown? ==> tok.delivered == old(tok.delivered)
    {
      if entry == "desc" {
        if b.hasDesc {
          return Thrown;
        }
        var text := ParseStr();
        o := if text == None then Thrown else Handled(WithDesc(b, text.value));
      } else if entry == "goal" {
        var rule := ParseRule();
        o := if rule == None then Thrown else Handled(WithGoal(b, rule.value));
      } else {
        o := Unknown;
      }
    }

    method HandleEntry(entry: string, b: Block) returns (o: Outcome)
      requires tok.Valid()
      modifies tok
      ensures tok.Valid()
      ensures var p := G.ParseEntry(entry, old(tok.Rest()), b);
        if p.Failed? then !o.Handled? else o == Handled(p.value) && tok.Rest() == p.rest
      ensures o.Unknown? ==> tok.delivered == old(tok.delivered)
    {
      if entry == "rule" {
        var rule := ParseRule();
        o := if rule == None then Thrown else Handled(WithRule(b, rule.value));
      } else if entry == "action" {
        var action := ParseAction();
        o := if action == None then Thrown else Handled(WithAction(b, action.value));
      } else if entry == "if" {
        var rule := ParseRule();
        o := if rule == None then Thrown else Handled(WithAction(b, Conditional(If, rule.value)));
      } else if entry == "elseif" || entry == "elif" {
        var rule := ParseRule();
        o := if rule == None then Thrown else Handled(WithAction(b, Conditional(ElseIf, rule.value)));
      } else if entry == "else" {
        var action := ParseAction();
        o := if action == None then Thrown else Handled(WithAction(b, action.value.(cond := Else)));
      } else {
        o := HandleCustom(entry, b);
      }
    }

    method ParseRuleActionBlock(start: Block) returns (r: Option<Block>)
      requires tok.Valid()
      modifies tok
      ensures tok.Valid() && Agrees(G.ParseBlock(old(tok.Rest()), start), r, tok.Rest())
    {
      var b := start;
      while true
        invariant tok.Valid() && G.ParseBlock(tok.Rest(), b) == G.ParseBlock(old(tok.Rest()), start)
        decreases |tok.Rest()|
      {
        var t, newlines := tok.GetToken({IdentifierKind, SymbolKind});
        if t == None {
          break;
        }
        if t.value.Identifier? {
          var o := HandleEntry(t.value.name, b);
          if o.Thrown? {
            return None;
          }
          if o.Unknown? {
            tok.PutBack(t.value, newlines);
            break;
          }
          b := o.block;
        } else if t.value.c == '}' {
          return Some(b);
        } else if t.value.c != ';' {
          tok.PutBack(t.value, newlines);
          break;
        }
      }
      r := None;
    }

    method ParseStateBlock() returns (r: Option<(string, State)>)
      requires tok.Valid()
      modifies tok
      ensures tok.Valid() && Agrees(G.ParseState(old(tok.Rest())), r, tok.Rest())
    {
      ghost var ts := tok.Rest();
      var t, _ := tok.GetToken({IdentifierKind});
      if t == None {
        return None;
      }
      var name := t.value.name;
      var brace, _ := tok.GetToken({SymbolKind});
      if brace != Some(Symbol('{')) {
        return None;
      }
      assert ts[1..][1..] == ts[2..];
      var b := ParseRuleActionBlock(Block(NO_STATE, false));
      r := if b == None then None else Some((name, b.value.state));
    }

    /** One entry of the main block: false is a parser error. */
    method HandleMainEntry(entry: string, h: Header) returns (r: Option<Header>)
      requires tok.Valid()
      modifies tok
      ensures tok.Valid() && Agrees(G.ParseMainEntry(entry, old(tok.Rest()), h), r, tok.Rest())
    {
      r := None;
      if entry == "questname" {
        if !h.hasName {
          var name := ParseStr();
          r := if name == None then None else Some(h.(info := h.info.(name := name.value), hasName := true));
        }
      } else if entry == "version" {
        if !h.hasVersion {
          var v := ParseVersion();
          r := if v == None then None else Some(h.(info := h.info.(version := v.value), hasVersion := true));
        }
      } else if entry == "hidden" {
        if h.info.hidden == NotHidden {
          r := Some(h.(info := h.info.(hidden := Hidden)));
        }
      } else if entry == "hidden_end" {
        if h.info.hidden == NotHidden {
          r := Some(h.(info := h.info.(hidden := HiddenEnd)));
        }
      } else if entry == "disabled" {
        if !h.info.disabled {
          r := Some(h.(info := h.info.(disabled := true)));
        }
      }
    }

    method ParseMain() returns (r: Option<Info>)
      requires tok.Valid()
      modifies tok
      ensures tok.Valid() && Agrees(G.ParseMain(old(tok.Rest()), Header(NO_INFO, false, false)), r, tok.Rest())
    {
      var h := Header(NO_INFO, false, false);
      while true
        invariant tok.Valid()
        invariant G.ParseMain(tok.Rest(), h) == G.ParseMain(old(tok.Rest()), Header(NO_INFO, false, false))
        decreases |tok.Rest()|
      {
        var t, _ := tok.GetToken({IdentifierKind, SymbolKind});
        if t == None {
          break;
        }
        if t.value.Identifier? {
          var next := HandleMainEntry(t.value.name, h);
          if next == None {
            return None;
          }
          h := next.value;
        } else if t.value.c == '}' {
          return Some(h.info);
        } else {
          break;
        }
      }
      r := None;
    }

    method ParseMainBlock() returns (r: Option<Info>)
      requires tok.Valid()
      modifies tok
      ensures tok.Valid() && Agrees(G.ParseMainBlock(old(tok.Rest())), r, tok.Rest())
    {
      var t, _ := tok.GetToken({SymbolKind});
      if t != Some(Symbol('{')) {
        return None;
      }
      r := ParseMain();
    }

    /** One block of the file: false is a parser error. */
    method HandlePart(key: string) returns (ok: bool)
      requires tok.Valid()
      modifies tok, this`quest
      ensures tok.Valid()
      ensures var p := G.ParsePart(key, old(tok.Rest()), old(quest));
        if p.Failed? then !ok else ok && quest == p.value && tok.Rest() == p.rest
    {
      if key == "main" {
        if quest.hasInfo {
          return false;
        }
        var info := ParseMainBlock();
        if info == None {
          return false;
        }
        quest := quest.(hasInfo := true, info := info.value);
        ok := true;
      } else if key == "state" {
        var state := ParseStateBlock();
        if state == None || state.value.0 in quest.states {
          return false;
        }
        quest := quest.(states := quest.states[state.value.0 := state.value.1]);
        ok := true;
      } else {
        ok := false;
      }
    }

    method ParseGlobal() returns (ok: bool)
      requires tok.Valid()
      modifies tok, this`quest
      ensures tok.Valid()
      ensures var p := G.ParseGlobal(old(tok.Rest()), old(quest));
        if p.Failed? then !ok else ok && quest == p.value
    {
      while true
        invariant tok.Valid() && G.ParseGlobal(tok.Rest(), quest) == G.ParseGlobal(old(tok.Rest()), old(quest))
        decreases |tok.Rest()|
      {
        var t, _ := tok.GetToken({IdentifierKind, EndKind});
        if t == None {
          break;
        }
        if t.value.Identifier? {
          ok := HandlePart(t.value.name);
          if !ok {
            return;
          }
        } else {
          return quest.hasInfo;
        }
      }
      ok := false;
    }
  }

  /** Reading a quest file: the lexer runs over the whole text before the parser starts. */
  method LoadQuest(text: string) returns (q: Option<Quest>)
    requires LexAll(text, 0) != UndefinedText
    ensures q == QuestText.Load(text)
  {
    var lexer := new Lexer(text);
    var tokens := lexer.Lex();
    if tokens == None {
      return None;
    }
    var parser := new Parser(tokens.value);
    var ok := parser.ParseGlobal();
    q := if ok then Some(parser.quest) else None;
  }
}
