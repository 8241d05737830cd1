/**
 The canonical source of a quest, and the law that lexing and parsing any layout of it gives the quest back.
 */
module CanonicalQuest {
  import opened Common
  import opened Lexer
  import opened Spelling
  import opened QuestGrammar
  import opened QuestSource

  /** A quest with its states in a chosen order. */
  datatype Definition = Definition(info: Info, states: seq<(string, State)>)

  function StatesOf(ss: seq<(string, State)>, m: map<string, State>): map<string, State>
    decreases |ss|
  {
    if ss == [] then m else StatesOf(ss[1..], m[ss[0].0 := ss[0].1])
  }

  function QuestOf(d: Definition): Quest {
    Quest(true, d.info, StatesOf(d.states, map[]))
  }

  // -- Well-formed quests ---------------------------------------------------------------

  predicate IsExpression(e: Expression) {
    e == NO_EXPRESSION || (
      && IsName(e.name) && e.name != "goto"
      && forall i :: 0 <= i < |e.args| && e.args[i].Number? ==> 0 <= e.args[i].n <= INT_MAX)
  }

  /** An expression is missing only together with the one after it. */
  predicate IsPair(test: Expression, act: Expression) {
    IsExpression(test) && IsExpression(act) && (test == NO_EXPRESSION ==> act == NO_EXPRESSION)
  }

  predicate IsRule(r: Rule) {
    IsPair(r.expr, r.action.expr) && r.action.cond == Always && r.action.condExpr == NO_EXPRESSION
  }

  predicate IsAction(a: Action) {
    if a.cond.If? || a.cond.ElseIf? then IsPair(a.condExpr, a.expr)
    else IsExpression(a.expr) && a.condExpr == NO_EXPRESSION
  }

  predicate IsState(s: State) {
    && (forall i :: 0 <= i < |s.rules| ==> IsRule(s.rules[i]))
    && (forall i :: 0 <= i < |s.actions| ==> IsAction(s.actions[i]))
    && (if s.rules == [] then s.goalRule == 0 else s.goalRule < |s.rules|)
  }

  predicate WellFormed(d: Definition) {
    && 0 <= d.info.version < 0x1_0000_0000
    && (forall i :: 0 <= i < |d.states| ==> IsName(d.states[i].0) && IsState(d.states[i].1))
    && (forall i, j :: 0 <= i < j < |d.states| ==> d.states[i].0 != d.states[j].0)
  }

  // -- Their sources --------------------------------------------------------------------

  function ExprFor(e: Expression): (x: Expr)
    ensures Mean(x) == e
  {
    if e == NO_EXPRESSION then NoExpr else Call(e.name, e.scopes, e.args)
  }

  function RuleEntry(r: Rule, isGoal: bool): Entry {
    Ruled(if isGoal then "goal" else "rule", ExprFor(r.expr), ExprFor(r.action.expr))
  }

  /** Every entry ends with a semicolon; the rule number goal is written as the goal. */
  function RuleEntries(rs: seq<Rule>, goal: int, more: seq<Entry>): seq<Entry> {
    if rs == [] then more else [RuleEntry(rs[0], goal == 0), Semicolon] + RuleEntries(rs[1..], goal - 1, more)
  }

  function ActionEntry(a: Action): Entry {
    match a.cond
    case Always => Acted("action", ExprFor(a.expr))
    case Else => Acted("else", ExprFor(a.expr))
    case If => Ruled("if", ExprFor(a.condExpr), ExprFor(a.expr))
    case ElseIf => Ruled("elseif", ExprFor(a.condExpr), ExprFor(a.expr))
  }

  function ActionEntries(actions: seq<Action>): seq<Entry> {
    if actions == [] then [] else [ActionEntry(actions[0]), Semicolon] + ActionEntries(actions[1..])
  }

  function StateEntries(s: State): seq<Entry> {
    [Described(s.desc)] + RuleEntries(s.rules, s.goalRule, ActionEntries(s.actions))
  }

  function Flags(info: Info): seq<MainEntry> {
    (match info.hidden case NotHidden => [] case Hidden => [Flag("hidden")] case HiddenEnd => [Flag("hidden_end")])
    + (if info.disabled then [Flag("disabled")] else [])
  }

  function HeaderEntries(info: Info): seq<MainEntry>
    requires 0 <= info.version
  {
    [Named(info.name), Versioned(info.version / 0x1_0000, Some(info.version % 0x1_0000))] + Flags(info)
  }

  function StateParts(ss: seq<(string, State)>): seq<Part> {
    if ss == [] then [] else [StateBlock(ss[0].0, StateEntries(ss[0].1))] + StateParts(ss[1..])
  }

  function SourceOf(d: Definition): seq<Part>
    requires WellFormed(d)
  {
    [MainBlock(HeaderEntries(d.info))] + StateParts(d.states)
  }

  // -- The source of a quest means the quest --------------------------------------------

  lemma ClosedEntry(e: Entry, more: seq<Entry>, n: nat, g: nat)
    ensures var es := [e, Semicolon] + more;
      && RulesOf(es) == RuleOf(e) + RulesOf(more) && ActionsOf(es) == ActionOf(e) + ActionsOf(more)
      && DescsOf(es) == DescOf(e) + DescsOf(more)
      && GoalOf(es, n, g) == GoalOf(more, n + |RuleOf(e)|, if IsGoal(e) then n else g)
  {
    var es := [e, Semicolon] + more;
    var rest := [Semicolon] + more;
    assert es[1..] == rest && rest[1..] == more;
    assert RulesOf(rest) == [] + RulesOf(more) == RulesOf(more);
    assert ActionsOf(rest) == [] + ActionsOf(more) == ActionsOf(more);
    assert DescsOf(rest) == [] + DescsOf(more) == DescsOf(more);
  }

  lemma {:induction false} ActionsMean(actions: seq<Action>, n: nat, g: nat)
    requires forall i :: 0 <= i < |actions| ==> IsAction(actions[i])
    ensures var es := ActionEntries(actions);
      ActionsOf(es) == actions && RulesOf(es) == [] && DescsOf(es) == [] && GoalOf(es, n, g) == g
  {
    if actions != [] {
      var a := ActionEntry(actions[0]);
      ActionsMean(actions[1..], n, g);
      ClosedEntry(a, ActionEntries(actions[1..]), n, g);
      assert ActionOf(a) == [actions[0]] && RuleOf(a) == [];
      assert [actions[0]] + actions[1..] == actions;
    }
  }

  lemma RuleEntryMeans(r: Rule, isGoal: bool)
    ensures |RuleOf(RuleEntry(r, isGoal))| == 1 && (IsRule(r) ==> RuleOf(RuleEntry(r, isGoal)) == [r])
    ensures ActionOf(RuleEntry(r, isGoal)) == [] && DescOf(RuleEntry(r, isGoal)) == []
    ensures IsGoal(RuleEntry(r, isGoal)) == isGoal
  {
  }

  lemma {:induction false} GoalMeans(rs: seq<Rule>, goal: int, actions: seq<Action>, n: nat, g: nat)
    requires forall i :: 0 <= i < |actions| ==> IsAction(actions[i])
    ensures GoalOf(RuleEntries(rs, goal, ActionEntries(actions)), n, g) == if 0 <= goal < |rs| then n + goal else g
  {
    if rs == [] {
      ActionsMean(actions, n, g);
    } else {
      GoalMeans(rs[1..], goal - 1, actions, n + 1, if goal == 0 then n else g);
      ClosedEntry(RuleEntry(rs[0], goal == 0), RuleEntries(rs[1..], goal - 1, ActionEntries(actions)), n, g);
      RuleEntryMeans(rs[0], goal == 0);
    }
  }

  lemma {:induction false} RulesMean(rs: seq<Rule>, goal: int, more: seq<Entry>)
    requires RulesOf(more) == [] && forall i :: 0 <= i < |rs| ==> IsRule(rs[i])
    ensures RulesOf(RuleEntries(rs, goal, more)) == rs
  {
    if rs != [] {
      RulesMean(rs[1..], goal - 1, more);
      ClosedEntry(RuleEntry(rs[0], goal == 0), RuleEntries(rs[1..], goal - 1, more), 0, 0);
      RuleEntryMeans(rs[0], goal == 0);
      assert [rs[0]] + rs[1..] == rs;
    }
  }

  lemma {:induction false} NothingElse(rs: seq<Rule>, goal: int, more: seq<Entry>)
    ensures var es := RuleEntries(rs, goal, more); DescsOf(es) == DescsOf(more) && ActionsOf(es) == ActionsOf(more)
  {
    if rs != [] {
      NothingElse(rs[1..], goal - 1, more);
      ClosedEntry(RuleEntry(rs[0], goal == 0), RuleEntries(rs[1..], goal - 1, more), 0, 0);
      RuleEntryMeans(rs[0], goal == 0);
    }
  }

  lemma DescribedFirst(text: string, es: seq<Entry>)
    requires DescsOf(es) == []
    ensures var all := [Described(text)] + es;
      && RulesOf(all) == RulesOf(es) && ActionsOf(all) == ActionsOf(es) && DescsOf(all) == [text]
      && GoalOf(all, 0, 0) == GoalOf(es, 0, 0)
  {
    assert ([Described(text)] + es)[1..] == es;
  }

  lemma StateMeans(s: State)
    requires IsState(s)
    ensures DescsOf(StateEntries(s)) == [s.desc] && Extended(EMPTY_BLOCK, StateEntries(s)).state == s
  {
    ActionsMean(s.actions, 0, 0);
    RulesMean(s.rules, s.goalRule, ActionEntries(s.actions));
    NothingElse(s.rules, s.goalRule, ActionEntries(s.actions));
    GoalMeans(s.rules, s.goalRule, s.actions, 0, 0);
    DescribedFirst(s.desc, RuleEntries(s.rules, s.goalRule, ActionEntries(s.actions)));
  }

  lemma VersionReads(v: int)
    requires 0 <= v < 0x1_0000_0000
    ensures Version(v / 0x1_0000, v % 0x1_0000) == v
  {
  }

  lemma FlagsMean(h: Header, info: Info)
    requires h.info == info.(hidden := NotHidden, disabled := false)
    ensures MainMeans(h, Flags(info)) == Some(info)
  {
    var fs := Flags(info);
    var none: seq<MainEntry> := [];
    if |fs| == 1 {
      assert fs[1..] == none;
    } else if |fs| == 2 {
      assert fs[1..] == [fs[1]] && [fs[1]][1..] == none;
      assert MainMeans(WithEntry(h, fs[0]), [fs[1]]) == Some(info);
    }
  }

  lemma HeaderMeans(info: Info)
    requires 0 <= info.version < 0x1_0000_0000
    ensures MainMeans(EMPTY_HEADER, HeaderEntries(info)) == Some(info)
    ensures forall i :: 0 <= i < |HeaderEntries(info)| ==> IsMainEntry(HeaderEntries(info)[i])
  {
    var es := HeaderEntries(info);
    VersionReads(info.version);
    var two := WithEntry(WithEntry(EMPTY_HEADER, es[0]), es[1]);
    assert es[1..][1..] == Flags(info);
    FlagsMean(two, info);
  }

  lemma {:induction false} StatesMean(ss: seq<(string, State)>, q: Quest)
    requires q.hasInfo
    requires forall i :: 0 <= i < |ss| ==> IsState(ss[i].1) && ss[i].0 !in q.states
    requires forall i, j :: 0 <= i < j < |ss| ==> ss[i].0 != ss[j].0
    ensures Means(q, StateParts(ss)) == Some(q.(states := StatesOf(ss, q.states)))
    decreases |ss|
  {
    if ss != [] {
      var p := StateBlock(ss[0].0, StateEntries(ss[0].1));
      StateMeans(ss[0].1);
      var next := q.(states := q.states[ss[0].0 := ss[0].1]);
      assert WithPart(q, p) == Some(next);
      StatesMean(ss[1..], next);
      assert StateParts(ss)[0] == p && StateParts(ss)[1..] == StateParts(ss[1..]);
    }
  }

  lemma SourceMeans(d: Definition)
    requires WellFormed(d)
    ensures Means(NO_QUEST, SourceOf(d)) == Some(QuestOf(d))
  {
    HeaderMeans(d.info);
    var next := NO_QUEST.(hasInfo := true, info := d.info);
    assert WithPart(NO_QUEST, SourceOf(d)[0]) == Some(next);
    StatesMean(d.states, next);
    assert SourceOf(d)[1..] == StateParts(d.states);
  }

  // -- The source can be parsed ---------------------------------------------------------

  lemma SemicolonEnds(e: Entry, more: seq<Entry>, k: seq<Token>)
    requires IsEntry(e) && EntryStands(e, ShowEntries([Semicolon] + more, k)) && EntriesStand(more, k)
    ensures EntriesStand([e, Semicolon] + more, k)
  {
    assert ([e, Semicolon] + more)[1..] == [Semicolon] + more;
    assert ([Semicolon] + more)[1..] == more;
  }

  lemma {:induction false} ActionsStand(actions: seq<Action>, k: seq<Token>)
    requires forall i :: 0 <= i < |actions| ==> IsAction(actions[i])
    ensures EntriesStand(ActionEntries(actions), k)
  {
    if actions != [] {
      var more := ActionEntries(actions[1..]);
      ActionsStand(actions[1..], k);
      SemicolonEnds(ActionEntry(actions[0]), more, k);
    }
  }

  lemma {:induction false} RulesStand(rs: seq<Rule>, goal: int, more: seq<Entry>, k: seq<Token>)
    requires EntriesStand(more, k) && forall i :: 0 <= i < |rs| ==> IsRule(rs[i])
    ensures EntriesStand(RuleEntries(rs, goal, more), k)
  {
    if rs != [] {
      var rest := RuleEntries(rs[1..], goal - 1, more);
      RulesStand(rs[1..], goal - 1, more, k);
      SemicolonEnds(RuleEntries(rs, goal, more)[0], rest, k);
    }
  }

  lemma {:induction false} StatesStand(ss: seq<(string, State)>)
    requires forall i :: 0 <= i < |ss| ==> IsState(ss[i].1)
    ensures SourceStands(StateParts(ss))
  {
    if ss != [] {
      StatesStand(ss[1..]);
      var s, k := ss[0].1, Show(StateParts(ss[1..]));
      ActionsStand(s.actions, k);
      RulesStand(s.rules, s.goalRule, ActionEntries(s.actions), k);
      assert StateEntries(s)[1..] == RuleEntries(s.rules, s.goalRule, ActionEntries(s.actions));
      assert StateParts(ss)[1..] == StateParts(ss[1..]);
    }
  }

  /** Parsing the canonical tokens gives the quest back. */
  lemma TokensRead(d: Definition)
    requires WellFormed(d)
    ensures ParseGlobal(Show(SourceOf(d)), NO_QUEST) == Parsed(QuestOf(d), [])
  {
    HeaderMeans(d.info);
    StatesStand(d.states);
    assert SourceOf(d)[1..] == StateParts(d.states);
    SourceMeans(d);
    SourceReads(SourceOf(d), NO_QUEST);
  }
}
