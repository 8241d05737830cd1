/**
 The grammar of the quest language as functions: what the parser of src/eoplus/parse.cpp builds from a list of
 tokens, and which tokens it leaves.
 */
module QuestGrammar {
  import opened Common
  import opened Lexer
  import opened Spelling

  // -- What is built, src/eoplus.hpp ----------------------------------------------------

  datatype Variant = Text(s: string) | Number(n: int)

  datatype Scope = CharacterScope | NpcScope | MapScope | WorldScope

  datatype Expression = Expression(scopes: seq<Scope>, name: string, args: seq<Variant>)

  datatype Condition = Always | If | Else | ElseIf

  datatype Action = Action(cond: Condition, condExpr: Expression, expr: Expression)

  datatype Rule = Rule(expr: Expression, action: Action)

  datatype Visibility = NotHidden | Hidden | HiddenEnd

  datatype Info = Info(name: string, version: int, hidden: Visibility, disabled: bool)

  datatype State = State(desc: string, rules: seq<Rule>, actions: seq<Action>, goalRule: nat)

  datatype Quest = Quest(hasInfo: bool, info: Info, states: map<string, State>)

  const NO_EXPRESSION := Expression([], "", [])
  const NO_INFO := Info("", 0, NotHidden, false)
  const NO_STATE := State("", [], [], 0)
  const NO_QUEST := Quest(false, NO_INFO, map[])

  // -- What the parser builds from tokens without new-lines -----------------------------

  datatype Parsed<T> = Parsed(value: T, rest: seq<Token>) | Failed

  const OPEN := Operator(Hash('(', NUL))
  const CLOSE := Operator(Hash(')', NUL))

  predicate StartsWith(ts: seq<Token>, t: Token) {
    ts != [] && ts[0] == t
  }

  predicate StartsName(ts: seq<Token>) {
    ts != [] && ts[0].Identifier?
  }

  predicate StartsInteger(ts: seq<Token>) {
    ts != [] && ts[0].Integer?
  }

  predicate StartsStr(ts: seq<Token>) {
    ts != [] && ts[0].Str?
  }

  /** The version number has the major part in its high half; unsigned arithmetic on 32 bits. */
  function Version(major: int, minor: int): int {
    major * 0x1_0000 % 0x1_0000_0000 + minor % 0x1_0000
  }

  function ParseVersion(ts: seq<Token>): (p: Parsed<int>)
    ensures p.Parsed? ==> |p.rest| < |ts|
  {
    if !StartsInteger(ts) then Failed
    else if !StartsWith(ts[1..], Symbol('.')) then Parsed(Version(ts[0].value, 0), ts[1..])
    else if !StartsInteger(ts[2..]) then Failed
    else Parsed(Version(ts[0].value, ts[2].value), ts[3..])
  }

  function ScopeOf(name: string): Option<Scope> {
    if name == "character" then Some(CharacterScope)
    else if name == "npc" then Some(NpcScope)
    else if name == "map" then Some(MapScope)
    else if name == "world" then Some(WorldScope)
    else None
  }

  function ParseScopes(ts: seq<Token>): (p: Parsed<seq<Scope>>)
    ensures p.Parsed? ==> |p.rest| <= |ts|
  {
    if !StartsName(ts) || ScopeOf(ts[0].name) == None then Parsed([], ts)
    else if !StartsWith(ts[1..], Symbol('.')) then Failed
    else
      var more := ParseScopes(ts[2..]);
      if more.Failed? then Failed else Parsed([ScopeOf(ts[0].name).value] + more.value, more.rest)
  }

  function ArgOf(t: Token): Variant
    requires t.Str? || t.Integer?
  {
    if t.Str? then Text(t.text) else Number(t.value)
  }

  function ParseArgs(ts: seq<Token>): (p: Parsed<seq<Variant>>)
    ensures p.Parsed? ==> |p.rest| < |ts|
  {
    if !StartsStr(ts) && !StartsInteger(ts) then Failed
    else if StartsWith(ts[1..], CLOSE) then Parsed([ArgOf(ts[0])], ts[2..])
    else if !StartsWith(ts[1..], Symbol(',')) then Failed
    else
      var more := ParseArgs(ts[2..]);
      if more.Failed? then Failed else Parsed([ArgOf(ts[0])] + more.value, more.rest)
  }

  /** The scopes stand between the name and the arguments. */
  function ParseCall(name: string, ts: seq<Token>): (p: Parsed<Expression>)
    ensures p.Parsed? ==> |p.rest| < |ts|
  {
    var scopes := ParseScopes(ts);
    if scopes.Failed? || !StartsWith(scopes.rest, OPEN) then Failed
    else
      var r := scopes.rest[1..];
      if StartsWith(r, CLOSE) then Parsed(Expression(scopes.value, name, []), r[1..])
      else
        var args := ParseArgs(r);
        if args.Failed? then Failed else Parsed(Expression(scopes.value, name, args.value), args.rest)
  }

  function ParseExpression(ts: seq<Token>): (p: Parsed<Expression>)
    ensures p.Parsed? ==> |p.rest| <= |ts|
  {
    if !StartsName(ts) then Parsed(NO_EXPRESSION, ts)
    else if ts[0].name != "goto" then ParseCall(ts[0].name, ts[1..])
    else if !StartsName(ts[1..]) then Failed
    else Parsed(Expression([], "setstate", [Text(ts[1].name)]), ts[2..])
  }

  function ParseAction(ts: seq<Token>): (p: Parsed<Action>)
    ensures p.Parsed? ==> |p.rest| <= |ts|
  {
    var e := ParseExpression(ts);
    if e.Failed? then Failed else Parsed(Action(Always, NO_EXPRESSION, e.value), e.rest)
  }

  function ParseRule(ts: seq<Token>): (p: Parsed<Rule>)
    ensures p.Parsed? ==> |p.rest| <= |ts|
  {
    var e := ParseExpression(ts);
    if e.Failed? then Failed
    else
      var a := ParseAction(e.rest);
      if a.Failed? then Failed else Parsed(Rule(e.value, a.value), a.rest)
  }

  /** A state under construction. */
  datatype Block = Block(state: State, hasDesc: bool)

  function WithRule(b: Block, r: Rule): Block {
    b.(state := b.state.(rules := b.state.rules + [r]))
  }

  function WithAction(b: Block, a: Action): Block {
    b.(state := b.state.(actions := b.state.actions + [a]))
  }

  function WithGoal(b: Block, r: Rule): Block {
    b.(state := b.state.(rules := b.state.rules + [r], goalRule := |b.state.rules|))
  }

  function WithDesc(b: Block, s: string): Block {
    Block(b.state.(desc := s), true)
  }

  function Conditional(cond: Condition, r: Rule): Action {
    Action(cond, r.expr, r.action.expr)
  }

  /** One entry of a state, its keyword already read. */
  function ParseEntry(key: string, ts: seq<Token>, b: Block): (p: Parsed<Block>)
    ensures p.Parsed? ==> |p.rest| <= |ts|
  {
    if key == "rule" || key == "goal" || key == "if" || key == "elseif" || key == "elif" then
      var r := ParseRule(ts);
      if r.Failed? then Failed
      else Parsed(
        if key == "rule" then WithRule(b, r.value)
        else if key == "goal" then WithGoal(b, r.value)
        else WithAction(b, Conditional(if key == "if" then If else ElseIf, r.value)), r.rest)
    else if key == "action" || key == "else" then
      var a := ParseAction(ts);
      if a.Failed? then Failed
      else Parsed(WithAction(b, if key == "else" then a.value.(cond := Else) else a.value), a.rest)
    else if key == "desc" then
      if b.hasDesc || !StartsStr(ts) then Failed else Parsed(WithDesc(b, ts[0].text), ts[1..])
    else Failed
  }

  function ParseBlock(ts: seq<Token>, b: Block): (p: Parsed<Block>)
    ensures p.Parsed? ==> |p.rest| < |ts|
    decreases |ts|
  {
    if StartsWith(ts, Symbol('}')) then Parsed(b, ts[1..])
    else if StartsWith(ts, Symbol(';')) then ParseBlock(ts[1..], b)
    else if !StartsName(ts) then Failed
    else
      var e := ParseEntry(ts[0].name, ts[1..], b);
      if e.Failed? then Failed else ParseBlock(e.rest, e.value)
  }

  function ParseState(ts: seq<Token>): (p: Parsed<(string, State)>)
    ensures p.Parsed? ==> |p.rest| < |ts|
  {
    if !StartsName(ts) || !StartsWith(ts[1..], Symbol('{')) then Failed
    else
      var b := ParseBlock(ts[2..], Block(NO_STATE, false));
      if b.Failed? then Failed else Parsed((ts[0].name, b.value.state), b.rest)
  }

  /** The main block under construction. */
  datatype Header = Header(info: Info, hasName: bool, hasVersion: bool)

  function ParseMainEntry(key: string, ts: seq<Token>, h: Header): (p: Parsed<Header>)
    ensures p.Parsed? ==> |p.rest| <= |ts|
  {
    if key == "questname" then
      if h.hasName || !StartsStr(ts) then Failed
      else Parsed(h.(info := h.info.(name := ts[0].text), hasName := true), ts[1..])
    else if key == "version" then
      var v := ParseVersion(ts);
      if h.hasVersion || v.Failed? then Failed
      else Parsed(h.(info := h.info.(version := v.value), hasVersion := true), v.rest)
    else if key == "hidden" || key == "hidden_end" then
      if h.info.hidden != NotHidden then Failed
      else Parsed(h.(info := h.info.(hidden := if key == "hidden" then Hidden else HiddenEnd)), ts)
    else if key == "disabled" then
      if h.info.disabled then Failed else Parsed(h.(info := h.info.(disabled := true)), ts)
    else Failed
  }

  function ParseMain(ts: seq<Token>, h: Header): (p: Parsed<Info>)
    ensures p.Parsed? ==> |p.rest| < |ts|
    decreases |ts|
  {
    if StartsWith(ts, Symbol('}')) then Parsed(h.info, ts[1..])
    else if !StartsName(ts) then Failed
    else
      var e := ParseMainEntry(ts[0].name, ts[1..], h);
      if e.Failed? then Failed else ParseMain(e.rest, e.value)
  }

  function ParseMainBlock(ts: seq<Token>): (p: Parsed<Info>)
    ensures p.Parsed? ==> |p.rest| < |ts|
  {
    if StartsWith(ts, Symbol('{')) then ParseMain(ts[1..], Header(NO_INFO, false, false)) else Failed
  }

  /** One block of the file, its keyword already read. */
  function ParsePart(key: string, ts: seq<Token>, q: Quest): (p: Parsed<Quest>)
    ensures p.Parsed? ==> |p.rest| < |ts|
  {
    if key == "main" then
      var i := ParseMainBlock(ts);
      if q.hasInfo || i.Failed? then Failed else Parsed(q.(hasInfo := true, info := i.value), i.rest)
    else if key == "state" then
      var s := ParseState(ts);
      if s.Failed? || s.value.0 in q.states then Failed
      else Parsed(q.(states := q.states[s.value.0 := s.value.1]), s.rest)
    else Failed
  }

  function ParseGlobal(ts: seq<Token>, q: Quest): (p: Parsed<Quest>)
    decreases |ts|
  {
    if StartsWith(ts, EndOfFile) then (if q.hasInfo then Parsed(q, ts[1..]) else Failed)
    else if !StartsName(ts) then Failed
    else
      var r := ParsePart(ts[0].name, ts[1..], q);
      if r.Failed? then Failed else ParseGlobal(r.rest, r.value)
  }
}
