/**
 The text of a quest: reading any layout of the tokens of a source gives what the source means, and reading
 any layout of the canonical tokens of a quest gives the quest.
 */
module QuestText {
  import opened Common
  import opened Lexer
  import opened Spelling
  import opened QuestGrammar
  import opened QuestSource
  import opened CanonicalQuest

  /** Quest::Quest: lexing, dropping the new-lines and parsing; None for any syntax error. */
  function Load(text: string): Option<Quest> {
    var l := Words(text, 0);
    if !l.Lexed? then None
    else match ParseGlobal(l.tokens, NO_QUEST) { case Failed => None case Parsed(q, _) => Some(q) }
  }

  // -- The sources that have a spelling -------------------------------------------------

  predicate IsInt(n: int) {
    0 <= n <= INT_MAX
  }

  predicate ExprSpells(e: Expr) {
    match e
    case NoExpr => true
    case Goto(target) => IsName(target)
    case Call(name, _, args) => IsName(name) && forall i :: 0 <= i < |args| && args[i].Number? ==> IsInt(args[i].n)
  }

  predicate EntrySpells(e: Entry) {
    match e
    case Ruled(_, test, act) => ExprSpells(test) && ExprSpells(act)
    case Acted(_, act) => ExprSpells(act)
    case _ => true
  }

  predicate MainEntrySpells(e: MainEntry) {
    e.Versioned? ==> IsInt(e.major) && (e.minor.Some? ==> IsInt(e.minor.value))
  }

  predicate PartSpells(p: Part) {
    match p
    case MainBlock(es) => forall i :: 0 <= i < |es| ==> IsMainEntry(es[i]) && MainEntrySpells(es[i])
    case StateBlock(name, es) => IsName(name) && forall i :: 0 <= i < |es| ==> IsEntry(es[i]) && EntrySpells(es[i])
  }

  predicate Spells(ps: seq<Part>) {
    forall i :: 0 <= i < |ps| ==> PartSpells(ps[i])
  }

  /** Tokens that can be written, and then the end of the file. */
  predicate Writable(ts: seq<Token>) {
    ts != [] && ts[|ts| - 1] == EndOfFile && forall i :: 0 <= i < |ts| - 1 ==> Spelled(ts[i])
  }

  lemma Prepended(a: seq<Token>, k: seq<Token>)
    requires Writable(k) && forall i :: 0 <= i < |a| ==> Spelled(a[i])
    ensures Writable(a + k)
  {
  }

  lemma {:induction false} ScopesWrite(ss: seq<Scope>, k: seq<Token>)
    requires Writable(k)
    ensures Writable(ShowScopes(ss, k))
  {
    if ss != [] {
      ScopesWrite(ss[1..], k);
      Prepended([Identifier(ScopeName(ss[0])), Symbol('.')], ShowScopes(ss[1..], k));
    }
  }

  lemma {:induction false} ArgsWrite(args: seq<Variant>, k: seq<Token>)
    requires Writable(k) && forall i :: 0 <= i < |args| && args[i].Number? ==> IsInt(args[i].n)
    ensures Writable(ShowArgs(args, k))
  {
    if |args| <= 1 {
      Prepended(if args == [] then [CLOSE] else [ArgToken(args[0]), CLOSE], k);
    } else {
      ArgsWrite(args[1..], k);
      Prepended([ArgToken(args[0]), Symbol(',')], ShowArgs(args[1..], k));
    }
  }

  lemma ExprWrites(e: Expr, k: seq<Token>)
    requires Writable(k) && ExprSpells(e)
    ensures Writable(ShowExpr(e, k))
  {
    match e {
      case NoExpr =>
      case Goto(target) => Prepended([Identifier("goto"), Identifier(target)], k);
      case Call(name, scopes, args) =>
        ArgsWrite(args, k);
        Prepended([OPEN], ShowArgs(args, k));
        ScopesWrite(scopes, [OPEN] + ShowArgs(args, k));
        Prepended([Identifier(name)], ShowScopes(scopes, [OPEN] + ShowArgs(args, k)));
    }
  }

  lemma RuleWrites(key: string, test: Expr, act: Expr, k: seq<Token>)
    requires var e := Ruled(key, test, act); Writable(k) && IsEntry(e) && EntrySpells(e)
    ensures Writable(ShowEntry(Ruled(key, test, act), k))
  {
    ExprWrites(act, k);
    ExprWrites(test, ShowExpr(act, k));
    Prepended([Identifier(key)], ShowExpr(test, ShowExpr(act, k)));
  }

  lemma EntryWrites(e: Entry, k: seq<Token>)
    requires Writable(k) && IsEntry(e) && EntrySpells(e)
    ensures Writable(ShowEntry(e, k))
  {
    match e {
      case Semicolon => Prepended([Symbol(';')], k);
      case Ruled(key, test, act) => RuleWrites(key, test, act, k);
      case Acted(key, act) =>
        ExprWrites(act, k);
        Prepended([Identifier(key)], ShowExpr(act, k));
      case Described(text) => Prepended([Identifier("desc"), Str(text)], k);
    }
  }

  lemma {:induction false} EntriesWrite(es: seq<Entry>, k: seq<Token>)
    requires Writable(k) && forall i :: 0 <= i < |es| ==> IsEntry(es[i]) && EntrySpells(es[i])
    ensures Writable(ShowEntries(es, k))
  {
    if es == [] {
      Prepended([Symbol('}')], k);
    } else {
      EntriesWrite(es[1..], k);
      EntryWrites(es[0], ShowEntries(es[1..], k));
    }
  }

  lemma MainEntryWrites(e: MainEntry, k: seq<Token>)
    requires Writable(k) && IsMainEntry(e) && MainEntrySpells(e)
    ensures Writable(ShowMainEntry(e, k))
  {
    match e {
      case Named(name) => Prepended([Identifier("questname"), Str(name)], k);
      case Versioned(major, None) => Prepended([Identifier("version"), Integer(major)], k);
      case Versioned(major, Some(minor)) =>
        Prepended([Identifier("version"), Integer(major), Symbol('.'), Integer(minor)], k);
      case Flag(key) => Prepended([Identifier(key)], k);
    }
  }

  lemma {:induction false} MainWrites(es: seq<MainEntry>, k: seq<Token>)
    requires Writable(k) && forall i :: 0 <= i < |es| ==> IsMainEntry(es[i]) && MainEntrySpells(es[i])
    ensures Writable(ShowMain(es, k))
  {
    if es == [] {
      Prepended([Symbol('}')], k);
    } else {
      MainWrites(es[1..], k);
      MainEntryWrites(es[0], ShowMain(es[1..], k));
    }
  }

  lemma {:induction false} SourceWrites(ps: seq<Part>)
    requires Spells(ps)
    ensures Writable(Show(ps))
  {
    if ps != [] {
      SourceWrites(ps[1..]);
      var k := Show(ps[1..]);
      match ps[0] {
        case MainBlock(es) =>
          MainWrites(es, k);
          Prepended([Identifier("main"), Symbol('{')], ShowMain(es, k));
        case StateBlock(name, es) =>
          EntriesWrite(es, k);
          Prepended([Identifier("state"), Identifier(name), Symbol('{')], ShowEntries(es, k));
      }
    }
  }

  /** The tokens to write, and a layout of them: something blank wherever two words meet. */
  function Written(ps: seq<Part>): seq<Token> {
    var ts := Show(ps);
    if ts == [] then [] else ts[..|ts| - 1]
  }

  predicate IsLayout(ps: seq<Part>, gaps: seq<seq<Gap>>) {
    var ts := Written(ps);
    && |gaps| == |ts| + 1
    && (forall i :: 0 <= i < |gaps| ==> forall g :: g in gaps[i] ==> IsGap(g))
    && (forall i :: 1 <= i < |ts| && IsWord(ts[i - 1]) && IsWord(ts[i]) ==> gaps[i] != [])
  }

  lemma LayoutFits(ps: seq<Part>, gaps: seq<seq<Gap>>)
    requires Spells(ps) && IsLayout(ps, gaps)
    ensures Fits(Written(ps), gaps) && Written(ps) + [EndOfFile] == Show(ps)
  {
    SourceWrites(ps);
  }

  function TextOf(ps: seq<Part>, gaps: seq<seq<Gap>>): string
    requires Spells(ps) && IsLayout(ps, gaps)
  {
    LayoutFits(ps, gaps);
    Spelling.Text(Written(ps), gaps)
  }

  /** Reading any layout of any source gives what the source means, or fails if that is in error. */
  lemma SourceLoads(ps: seq<Part>, gaps: seq<seq<Gap>>)
    requires SourceStands(ps) && Spells(ps) && IsLayout(ps, gaps)
    ensures Load(TextOf(ps, gaps)) == Means(NO_QUEST, ps)
  {
    LayoutFits(ps, gaps);
    TextReads(Written(ps), gaps);
    SourceReads(ps, NO_QUEST);
  }

  // -- Every quest ----------------------------------------------------------------------

  lemma {:induction false} ActionsSpell(actions: seq<Action>)
    requires forall i :: 0 <= i < |actions| ==> IsAction(actions[i])
    ensures forall i :: 0 <= i < |ActionEntries(actions)| ==>
      IsEntry(ActionEntries(actions)[i]) && EntrySpells(ActionEntries(actions)[i])
  {
    if actions != [] {
      ActionsSpell(actions[1..]);
    }
  }

  lemma {:induction false} RulesSpell(rs: seq<Rule>, goal: int, more: seq<Entry>)
    requires forall i :: 0 <= i < |rs| ==> IsRule(rs[i])
    requires forall i :: 0 <= i < |more| ==> IsEntry(more[i]) && EntrySpells(more[i])
    ensures forall i :: 0 <= i < |RuleEntries(rs, goal, more)| ==>
      IsEntry(RuleEntries(rs, goal, more)[i]) && EntrySpells(RuleEntries(rs, goal, more)[i])
  {
    if rs != [] {
      RulesSpell(rs[1..], goal - 1, more);
    }
  }

  lemma {:induction false} StatesSpell(ss: seq<(string, State)>)
    requires forall i :: 0 <= i < |ss| ==> IsName(ss[i].0) && IsState(ss[i].1)
    ensures Spells(StateParts(ss))
  {
    if ss != [] {
      StatesSpell(ss[1..]);
      var s := ss[0].1;
      ActionsSpell(s.actions);
      RulesSpell(s.rules, s.goalRule, ActionEntries(s.actions));
    }
  }

  lemma QuestSpells(d: Definition)
    requires WellFormed(d)
    ensures Spells(SourceOf(d)) && SourceStands(SourceOf(d))
  {
    HeaderMeans(d.info);
    StatesSpell(d.states);
    StatesStand(d.states);
    assert SourceOf(d)[1..] == StateParts(d.states);
  }

  /** Lexing and parsing any layout of the canonical text of a quest gives back the quest. */
  lemma QuestLoads(d: Definition, gaps: seq<seq<Gap>>)
    requires WellFormed(d) && IsLayout(SourceOf(d), gaps)
    ensures Spells(SourceOf(d)) && Load(TextOf(SourceOf(d), gaps)) == Some(QuestOf(d))
  {
    QuestSpells(d);
    SourceLoads(SourceOf(d), gaps);
    SourceMeans(d);
  }
}
