/**
 Source forms of the quest language, what each of them means, and the law that parsing the tokens of a source
 gives its meaning; every quest has a source.
 */
module QuestSource {
  import opened Common
  import opened Lexer
  import opened Spelling
  import opened QuestGrammar

  // -- Expressions ----------------------------------------------------------------------

  datatype Expr = NoExpr | Goto(target: string) | Call(name: string, scopes: seq<Scope>, args: seq<Variant>)

  function Mean(e: Expr): Expression {
    match e
    case NoExpr => NO_EXPRESSION
    case Goto(target) => Expression([], "setstate", [Text(target)])
    case Call(name, scopes, args) => Expression(scopes, name, args)
  }

  function ScopeName(s: Scope): (name: string)
    ensures ScopeOf(name) == Some(s) && IsName(name)
  {
    match s
    case CharacterScope => "character"
    case NpcScope => "npc"
    case MapScope => "map"
    case WorldScope => "world"
  }

  function ArgToken(v: Variant): Token {
    match v case Text(s) => Str(s) case Number(n) => Integer(n)
  }

  /** Each of these functions writes its argument in front of the tokens k. */
  function ShowScopes(ss: seq<Scope>, k: seq<Token>): seq<Token> {
    if ss == [] then k else [Identifier(ScopeName(ss[0])), Symbol('.')] + ShowScopes(ss[1..], k)
  }

  function ShowArgs(args: seq<Variant>, k: seq<Token>): seq<Token> {
    if args == [] then [CLOSE] + k
    else if |args| == 1 then [ArgToken(args[0]), CLOSE] + k
    else [ArgToken(args[0]), Symbol(',')] + ShowArgs(args[1..], k)
  }

  function ShowExpr(e: Expr, k: seq<Token>): seq<Token> {
    match e
    case NoExpr => k
    case Goto(target) => [Identifier("goto"), Identifier(target)] + k
    case Call(name, scopes, args) => [Identifier(name)] + ShowScopes(scopes, [OPEN] + ShowArgs(args, k))
  }

  /** A missing expression is one only if no name follows. */
  predicate Stands(e: Expr, k: seq<Token>) {
    match e
    case NoExpr => !StartsName(k)
    case Goto(_) => true
    case Call(name, _, _) => name != "goto"
  }

  lemma {:induction false} ScopesRead(ss: seq<Scope>, k: seq<Token>)
    requires !StartsName(k)
    ensures ParseScopes(ShowScopes(ss, k)) == Parsed(ss, k)
  {
    if ss != [] {
      var more := ShowScopes(ss[1..], k);
      var ts := [Identifier(ScopeName(ss[0])), Symbol('.')] + more;
      assert ts[2..] == more;
      ScopesRead(ss[1..], k);
      assert [ss[0]] + ss[1..] == ss;
    }
  }

  lemma {:induction false} ArgsRead(args: seq<Variant>, k: seq<Token>)
    requires args != []
    ensures ParseArgs(ShowArgs(args, k)) == Parsed(args, k)
  {
    var ts := ShowArgs(args, k);
    assert ArgOf(ts[0]) == args[0];
    if |args| == 1 {
      assert ts[2..] == k && [args[0]] == args;
    } else {
      assert ts[2..] == ShowArgs(args[1..], k);
      ArgsRead(args[1..], k);
      assert [args[0]] + args[1..] == args;
    }
  }

  lemma CallReads(name: string, scopes: seq<Scope>, args: seq<Variant>, k: seq<Token>)
    ensures ParseCall(name, ShowScopes(scopes, [OPEN] + ShowArgs(args, k))) == Parsed(Expression(scopes, name, args), k)
  {
    var more := ShowArgs(args, k);
    ScopesRead(scopes, [OPEN] + more);
    assert ([OPEN] + more)[1..] == more;
    if args == [] {
      assert more[1..] == k;
    } else {
      ArgsRead(args, k);
    }
  }

  lemma ExprReads(e: Expr, k: seq<Token>)
    requires Stands(e, k)
    ensures ParseExpression(ShowExpr(e, k)) == Parsed(Mean(e), k)
  {
    match e {
      case NoExpr =>
      case Goto(target) => assert ShowExpr(e, k)[2..] == k;
      case Call(name, scopes, args) =>
        var more := ShowScopes(scopes, [OPEN] + ShowArgs(args, k));
        assert ([Identifier(name)] + more)[1..] == more;
        CallReads(name, scopes, args, k);
    }
  }

  // -- States ---------------------------------------------------------------------------

  /** key is rule, goal, if, elseif or elif for Ruled; action or else for Acted. */
  datatype Entry =
    | Semicolon
    | Ruled(key: string, test: Expr, act: Expr)
    | Acted(key: string, act: Expr)
    | Described(text: string)

  predicate IsEntry(e: Entry) {
    match e
    case Ruled(key, _, _) => key == "rule" || key == "goal" || key == "if" || key == "elseif" || key == "elif"
    case Acted(key, _) => key == "action" || key == "else"
    case _ => true
  }

  function ShowEntry(e: Entry, k: seq<Token>): seq<Token> {
    match e
    case Semicolon => [Symbol(';')] + k
    case Ruled(key, test, act) => [Identifier(key)] + ShowExpr(test, ShowExpr(act, k))
    case Acted(key, act) => [Identifier(key)] + ShowExpr(act, k)
    case Described(text) => [Identifier("desc"), Str(text)] + k
  }

  function ShowEntries(es: seq<Entry>, k: seq<Token>): seq<Token> {
    if es == [] then [Symbol('}')] + k else ShowEntry(es[0], ShowEntries(es[1..], k))
  }

  predicate EntryStands(e: Entry, k: seq<Token>) {
    match e
    case Ruled(_, test, act) => Stands(test, ShowExpr(act, k)) && Stands(act, k)
    case Acted(_, act) => Stands(act, k)
    case _ => true
  }

  predicate EntriesStand(es: seq<Entry>, k: seq<Token>) {
    es != [] ==> IsEntry(es[0]) && EntryStands(es[0], ShowEntries(es[1..], k)) && EntriesStand(es[1..], k)
  }

  /** The rule, the action and the description that an entry gives. */
  function RuleOf(e: Entry): seq<Rule> {
    if e.Ruled? && (e.key == "rule" || e.key == "goal")
    then [Rule(Mean(e.test), Action(Always, NO_EXPRESSION, Mean(e.act)))] else []
  }

  function ActionOf(e: Entry): seq<Action> {
    match e
    case Ruled(key, test, act) =>
      if key == "rule" || key == "goal" then []
      else [Action(if key == "if" then If else ElseIf, Mean(test), Mean(act))]
    case Acted(key, act) => [Action(if key == "else" then Else else Always, NO_EXPRESSION, Mean(act))]
    case _ => []
  }

  function DescOf(e: Entry): seq<string> {
    if e.Described? then [e.text] else []
  }

  predicate IsGoal(e: Entry) {
    e.Ruled? && e.key == "goal"
  }

  function RulesOf(es: seq<Entry>): seq<Rule> {
    if es == [] then [] else RuleOf(es[0]) + RulesOf(es[1..])
  }

  function ActionsOf(es: seq<Entry>): seq<Action> {
    if es == [] then [] else ActionOf(es[0]) + ActionsOf(es[1..])
  }

  function DescsOf(es: seq<Entry>): seq<string> {
    if es == [] then [] else DescOf(es[0]) + DescsOf(es[1..])
  }

  /** The index of the last goal among the rules when n rules stand before es; g without one. */
  function GoalOf(es: seq<Entry>, n: nat, g: nat): nat {
    if es == [] then g else GoalOf(es[1..], n + |RuleOf(es[0])|, if IsGoal(es[0]) then n else g)
  }

  /** What an entry, and what a list of entries, adds to a state under construction. */
  function Added(b: Block, e: Entry): Block {
    var s := b.state;
    Block(State(if e.Described? then e.text else s.desc, s.rules + RuleOf(e), s.actions + ActionOf(e),
                if IsGoal(e) then |s.rules| else s.goalRule), b.hasDesc || e.Described?)
  }

  function Extended(b: Block, es: seq<Entry>): Block {
    var s, ds := b.state, DescsOf(es);
    Block(State(if ds == [] then s.desc else ds[|ds| - 1], s.rules + RulesOf(es), s.actions + ActionsOf(es),
                GoalOf(es, |s.rules|, s.goalRule)), b.hasDesc || ds != [])
  }

  predicate OneDesc(b: Block, ds: seq<string>) {
    |ds| <= if b.hasDesc then 0 else 1
  }

  lemma RuledReads(key: string, test: Expr, act: Expr, k: seq<Token>, b: Block)
    requires IsEntry(Ruled(key, test, act)) && EntryStands(Ruled(key, test, act), k)
    ensures ParseEntry(key, ShowExpr(test, ShowExpr(act, k)), b) == Parsed(Added(b, Ruled(key, test, act)), k)
  {
    ExprReads(test, ShowExpr(act, k));
    ExprReads(act, k);
    assert b.state.rules + [] == b.state.rules && b.state.actions + [] == b.state.actions;
  }

  lemma ActedReads(key: string, act: Expr, k: seq<Token>, b: Block)
    requires IsEntry(Acted(key, act)) && EntryStands(Acted(key, act), k)
    ensures ParseEntry(key, ShowExpr(act, k), b) == Parsed(Added(b, Acted(key, act)), k)
  {
    ExprReads(act, k);
    assert b.state.rules + [] == b.state.rules;
  }

  lemma DescReads(text: string, k: seq<Token>, b: Block)
    ensures ParseEntry("desc", [Str(text)] + k, b) == if b.hasDesc then Failed else Parsed(Added(b, Described(text)), k)
  {
    assert ([Str(text)] + k)[1..] == k;
    assert b.state.rules + [] == b.state.rules && b.state.actions + [] == b.state.actions;
  }

  lemma EntryReads(e: Entry, k: seq<Token>, b: Block)
    requires IsEntry(e) && EntryStands(e, k) && !e.Semicolon?
    ensures StartsName(ShowEntry(e, k))
    ensures var ts := ShowEntry(e, k);
      ParseEntry(ts[0].name, ts[1..], b) == if b.hasDesc && e.Described? then Failed else Parsed(Added(b, e), k)
  {
    var ts := ShowEntry(e, k);
    match e {
      case Ruled(key, test, act) =>
        assert ts[1..] == ShowExpr(test, ShowExpr(act, k));
        RuledReads(key, test, act, k, b);
      case Acted(key, act) =>
        assert ts[1..] == ShowExpr(act, k);
        ActedReads(key, act, k, b);
      case Described(text) =>
        assert ts[1..] == [Str(text)] + k;
        DescReads(text, k, b);
    }
  }

  lemma LastOf(first: string, a: seq<string>, b: seq<string>)
    ensures (if a + b == [] then first else (a + b)[|a + b| - 1])
      == if b == [] then (if a == [] then first else a[|a| - 1]) else b[|b| - 1]
  {
  }

  lemma DescFirst(b: Block, es: seq<Entry>)
    requires es != [] && OneDesc(b, DescsOf(es))
    ensures OneDesc(Added(b, es[0]), DescsOf(es[1..]))
    ensures Extended(Added(b, es[0]), es[1..]).state.desc == Extended(b, es).state.desc
    ensures Extended(Added(b, es[0]), es[1..]).hasDesc == Extended(b, es).hasDesc
  {
    LastOf(b.state.desc, DescOf(es[0]), DescsOf(es[1..]));
  }

  lemma ListsFirst(b: Block, es: seq<Entry>)
    requires es != []
    ensures Added(b, es[0]).state.rules + RulesOf(es[1..]) == b.state.rules + RulesOf(es)
    ensures Added(b, es[0]).state.actions + ActionsOf(es[1..]) == b.state.actions + ActionsOf(es)
  {
    Regroup(b.state.rules, RuleOf(es[0]), RulesOf(es[1..]));
    Regroup(b.state.actions, ActionOf(es[0]), ActionsOf(es[1..]));
  }

  lemma GoalFirst(b: Block, es: seq<Entry>)
    requires es != []
    ensures var first := Added(b, es[0]).state;
      GoalOf(es[1..], |first.rules|, first.goalRule) == GoalOf(es, |b.state.rules|, b.state.goalRule)
  {
    var n, g := |b.state.rules|, b.state.goalRule;
    assert |Added(b, es[0]).state.rules| == n + |RuleOf(es[0])|;
    assert GoalOf(es, n, g) == GoalOf(es[1..], n + |RuleOf(es[0])|, if IsGoal(es[0]) then n else g);
  }

  /** Adding the first entry and then the rest. */
  lemma AddedFirst(b: Block, es: seq<Entry>)
    requires es != [] && OneDesc(b, DescsOf(es))
    ensures OneDesc(Added(b, es[0]), DescsOf(es[1..])) && Extended(Added(b, es[0]), es[1..]) == Extended(b, es)
  {
    DescFirst(b, es);
    ListsFirst(b, es);
    GoalFirst(b, es);
  }

  /** A block of entries is read exactly when it describes the state at most once. */
  lemma {:induction false} EntriesRead(es: seq<Entry>, k: seq<Token>, b: Block)
    requires EntriesStand(es, k)
    ensures ParseBlock(ShowEntries(es, k), b) == if OneDesc(b, DescsOf(es)) then Parsed(Extended(b, es), k) else Failed
  {
    var ts := ShowEntries(es, k);
    if es == [] {
      assert ts[1..] == k;
      assert b.state.rules + [] == b.state.rules && b.state.actions + [] == b.state.actions;
    } else {
      var more := ShowEntries(es[1..], k);
      var first := Added(b, es[0]);
      if OneDesc(b, DescsOf(es)) {
        AddedFirst(b, es);
      }
      if es[0].Semicolon? {
        assert ts[1..] == more;
        assert b.state.rules + [] == b.state.rules && b.state.actions + [] == b.state.actions;
        EntriesRead(es[1..], k, b);
      } else {
        EntryReads(es[0], more, b);
        EntriesRead(es[1..], k, first);
      }
    }
  }

  // -- The main block -------------------------------------------------------------------

  datatype MainEntry = Named(name: string) | Versioned(major: nat, minor: Option<nat>) | Flag(key: string)

  predicate IsMainEntry(e: MainEntry) {
    e.Flag? ==> e.key == "hidden" || e.key == "hidden_end" || e.key == "disabled"
  }

  function ShowMainEntry(e: MainEntry, k: seq<Token>): seq<Token> {
    match e
    case Named(name) => [Identifier("questname"), Str(name)] + k
    case Versioned(major, None) => [Identifier("version"), Integer(major)] + k
    case Versioned(major, Some(minor)) => [Identifier("version"), Integer(major), Symbol('.'), Integer(minor)] + k
    case Flag(key) => [Identifier(key)] + k
  }

  function ShowMain(es: seq<MainEntry>, k: seq<Token>): (r: seq<Token>)
    ensures !StartsWith(r, Symbol('.'))
  {
    if es == [] then [Symbol('}')] + k else ShowMainEntry(es[0], ShowMain(es[1..], k))
  }

  /** An attribute is given at most once, the two hidden ones together. */
  predicate Clash(h: Header, e: MainEntry) {
    match e
    case Named(_) => h.hasName
    case Versioned(_, _) => h.hasVersion
    case Flag(key) => if key == "disabled" then h.info.disabled else h.info.hidden != NotHidden
  }

  function WithEntry(h: Header, e: MainEntry): Header {
    match e
    case Named(name) => h.(info := h.info.(name := name), hasName := true)
    case Versioned(major, minor) =>
      h.(info := h.info.(version := Version(major, if minor.Some? then minor.value else 0)), hasVersion := true)
    case Flag(key) =>
      if key == "disabled" then h.(info := h.info.(disabled := true))
      else h.(info := h.info.(hidden := if key == "hidden" then Hidden else HiddenEnd))
  }

  function MainMeans(h: Header, es: seq<MainEntry>): Option<Info>
    decreases |es|
  {
    if es == [] then Some(h.info)
    else if Clash(h, es[0]) then None
    else MainMeans(WithEntry(h, es[0]), es[1..])
  }

  lemma MainEntryReads(e: MainEntry, k: seq<Token>, h: Header)
    requires IsMainEntry(e) && !StartsWith(k, Symbol('.'))
    ensures StartsName(ShowMainEntry(e, k))
    ensures var ts := ShowMainEntry(e, k);
      ParseMainEntry(ts[0].name, ts[1..], h) == if Clash(h, e) then Failed else Parsed(WithEntry(h, e), k)
  {
    var ts := ShowMainEntry(e, k);
    match e {
      case Named(name) =>
        assert ts[1..] == [Str(name)] + k && ts[1..][1..] == k;
      case Versioned(major, None) =>
        assert ts[1..] == [Integer(major)] + k && ts[1..][1..] == k;
      case Versioned(major, Some(minor)) =>
        var us := ts[1..];
        assert us == [Integer(major), Symbol('.'), Integer(minor)] + k && us[3..] == k;
        assert us[1..][0] == Symbol('.') && us[2..][0] == Integer(minor);
      case Flag(key) =>
        assert ts[1..] == k;
    }
  }

  lemma {:induction false} MainReads(es: seq<MainEntry>, k: seq<Token>, h: Header)
    requires forall i :: 0 <= i < |es| ==> IsMainEntry(es[i])
    ensures ParseMain(ShowMain(es, k), h) ==
      match MainMeans(h, es) { case None => Failed case Some(info) => Parsed(info, k) }
  {
    if es == [] {
      assert ShowMain(es, k)[1..] == k;
    } else {
      MainEntryReads(es[0], ShowMain(es[1..], k), h);
      MainReads(es[1..], k, WithEntry(h, es[0]));
    }
  }

  // -- The file -------------------------------------------------------------------------

  datatype Part = MainBlock(header: seq<MainEntry>) | StateBlock(name: string, body: seq<Entry>)

  function ShowPart(p: Part, k: seq<Token>): seq<Token> {
    match p
    case MainBlock(es) => [Identifier("main"), Symbol('{')] + ShowMain(es, k)
    case StateBlock(name, es) => [Identifier("state"), Identifier(name), Symbol('{')] + ShowEntries(es, k)
  }

  function Show(ps: seq<Part>): seq<Token> {
    if ps == [] then [EndOfFile] else ShowPart(ps[0], Show(ps[1..]))
  }

  predicate PartStands(p: Part, k: seq<Token>) {
    match p
    case MainBlock(es) => forall i :: 0 <= i < |es| ==> IsMainEntry(es[i])
    case StateBlock(_, es) => EntriesStand(es, k)
  }

  predicate SourceStands(ps: seq<Part>) {
    ps != [] ==> PartStands(ps[0], Show(ps[1..])) && SourceStands(ps[1..])
  }

  const EMPTY_BLOCK := Block(NO_STATE, false)
  const EMPTY_HEADER := Header(NO_INFO, false, false)

  /** The quest with one more block; None for a second main block, a state of a known name or a bad block. */
  function WithPart(q: Quest, p: Part): Option<Quest> {
    match p
    case MainBlock(es) =>
      var info := MainMeans(EMPTY_HEADER, es);
      if q.hasInfo || info == None then None else Some(q.(hasInfo := true, info := info.value))
    case StateBlock(name, es) =>
      if name in q.states || |DescsOf(es)| > 1 then None
      else Some(q.(states := q.states[name := Extended(EMPTY_BLOCK, es).state]))
  }

  /** What a source means: None if it is in error, which includes that it has no main block. */
  function Means(q: Quest, ps: seq<Part>): Option<Quest>
    decreases |ps|
  {
    if ps == [] then (if q.hasInfo then Some(q) else None)
    else match WithPart(q, ps[0]) { case None => None case Some(next) => Means(next, ps[1..]) }
  }

  lemma MainBlockReads(es: seq<MainEntry>, k: seq<Token>)
    requires forall i :: 0 <= i < |es| ==> IsMainEntry(es[i])
    ensures ParseMainBlock([Symbol('{')] + ShowMain(es, k)) ==
      match MainMeans(EMPTY_HEADER, es) { case None => Failed case Some(info) => Parsed(info, k) }
  {
    assert ([Symbol('{')] + ShowMain(es, k))[1..] == ShowMain(es, k);
    MainReads(es, k, EMPTY_HEADER);
  }

  lemma StateBlockReads(name: string, es: seq<Entry>, k: seq<Token>)
    requires EntriesStand(es, k)
    ensures ParseState([Identifier(name), Symbol('{')] + ShowEntries(es, k)) ==
      if |DescsOf(es)| > 1 then Failed else Parsed((name, Extended(EMPTY_BLOCK, es).state), k)
  {
    var ts := [Identifier(name), Symbol('{')] + ShowEntries(es, k);
    assert ts[2..] == ShowEntries(es, k) && ts[1..][0] == Symbol('{');
    EntriesRead(es, k, EMPTY_BLOCK);
  }

  lemma PartReads(p: Part, k: seq<Token>, q: Quest)
    requires PartStands(p, k)
    ensures StartsName(ShowPart(p, k))
    ensures var ts := ShowPart(p, k);
      ParsePart(ts[0].name, ts[1..], q) ==
        match WithPart(q, p) { case None => Failed case Some(next) => Parsed(next, k) }
  {
    var ts := ShowPart(p, k);
    match p {
      case MainBlock(es) =>
        assert ts[1..] == [Symbol('{')] + ShowMain(es, k);
        MainBlockReads(es, k);
      case StateBlock(name, es) =>
        assert ts[1..] == [Identifier(name), Symbol('{')] + ShowEntries(es, k);
        StateBlockReads(name, es, k);
    }
  }

  /** The parser builds what the source means, and fails exactly on the sources in error. */
  lemma {:induction false} SourceReads(ps: seq<Part>, q: Quest)
    requires SourceStands(ps)
    ensures ParseGlobal(Show(ps), q) ==
      match Means(q, ps) { case None => Failed case Some(quest) => Parsed(quest, []) }
  {
    if ps == [] {
      var none: seq<Token> := [];
      assert [EndOfFile][1..] == none;
    } else {
      PartReads(ps[0], Show(ps[1..]), q);
      match WithPart(q, ps[0]) {
        case None =>
        case Some(next) => SourceReads(ps[1..], next);
      }
    }
  }
}
