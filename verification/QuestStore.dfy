/**
 The quest list of a character, src/character.cpp lines 198 to 341: saving the active and the inactive
 quests, loading them into a world, and what survives.
 */
module QuestStore {
  import opened Common
  import opened Lexer
  import opened Spelling
  import opened QuestSave

  /** A quest in progress; the state name is the one in lower case. */
  datatype Context = Context(stateName: string, finished: bool, progress: map<string, int>)

  /** A context and the order of its progress keys. */
  datatype Running = Running(context: Context, order: seq<string>)

  /** Character_QuestState: a quest as it stands in the save, held when it cannot be resumed. */
  datatype Entry = Entry(id: Short, state: string, progress: string)

  /** The states of each quest, by its id. */
  type World = map<int, set<string>>

  predicate Final(name: string) {
    name == "end" || name == "done"
  }

  /** SetState accepts the state. */
  predicate Known(states: set<string>, state: string) {
    Lower(state) in states || Final(Lower(state))
  }

  function Finished(states: set<string>, name: string): bool {
    if name in states then name == "end" else true
  }

  predicate Loadable(world: World, e: Entry) {
    e.id in world && Known(world[e.id], e.state)
  }

  function ContextOf(world: World, e: Entry): Context
    requires Loadable(world, e)
  {
    Context(Lower(e.state), Finished(world[e.id], Lower(e.state)), ProgressOf(e.progress, map[]))
  }

  // -- The text -------------------------------------------------------------------------

  function Line(e: Entry): string {
    IntText(e.id) + "," + e.state + "," + e.progress
  }

  function Lines(es: seq<Entry>): string {
    if es == [] then "" else Line(es[0]) + ";" + Lines(es[1..])
  }

  function ParseState(id: Short, rest: string): Entry {
    if ',' !in rest then Entry(id, rest, "{}")
    else
      var p := After(',', rest);
      Entry(id, Before(',', rest), if p != "" && p[0] != '{' then "{}" else p)
  }

  function ParsePart(part: string): Option<Entry> {
    if ',' !in part then None else Some(ParseState(Wrap(ToInt(Before(',', part))), After(',', part)))
  }

  predicate CleanEntry(e: Entry) {
    && ',' !in e.state && ';' !in e.state && ';' !in e.progress
    && (e.progress == "" || e.progress[0] == '{')
  }

  lemma IntIsClean(n: int)
    ensures ',' !in IntText(n) && ';' !in IntText(n)
  {
    IntIsPlain(n);
  }

  lemma LineIsClean(e: Entry)
    requires CleanEntry(e)
    ensures ';' !in Line(e)
  {
    IntIsClean(e.id);
  }

  lemma PartReads(e: Entry)
    requires CleanEntry(e)
    ensures ParsePart(Line(e)) == Some(e)
  {
    IntIsClean(e.id);
    IntReads(e.id);
    WrapFixes(e.id);
    var rest := e.state + "," + e.progress;
    assert Line(e) == IntText(e.id) + "," + rest;
    CutFirst(',', IntText(e.id), rest);
    CutFirst(',', e.state, e.progress);
  }

  /** The formats of older saves: one has no progress, and one has a progress that is not kept. */
  lemma OldFormatsRead(id: Short, state: string, progress: string)
    requires ',' !in state
    ensures ParsePart(IntText(id) + "," + state) == Some(Entry(id, state, "{}"))
    ensures ParsePart(IntText(id) + "," + state + "," + progress)
      == Some(Entry(id, state, if progress != "" && progress[0] != '{' then "{}" else progress))
  {
    IntIsClean(id);
    IntReads(id);
    WrapFixes(id);
    CutFirst(',', IntText(id), state);
    var rest := state + "," + progress;
    assert IntText(id) + "," + state + "," + progress == IntText(id) + "," + rest;
    CutFirst(',', IntText(id), rest);
    CutFirst(',', state, progress);
  }

  // -- Loading --------------------------------------------------------------------------

  datatype Book = Book(quests: map<int, Context>, inactive: map<int, Entry>)

  function Put(world: World, b: Book, e: Entry): Book {
    if Loadable(world, e) then
      if e.id in b.quests then b else b.(quests := b.quests[e.id := ContextOf(world, e)])
    else if e.id in b.inactive then b else b.(inactive := b.inactive[e.id := e])
  }

  function PutAll(world: World, b: Book, es: seq<Entry>): Book
    decreases |es|
  {
    if es == [] then b else PutAll(world, Put(world, b, es[0]), es[1..])
  }

  function PutPart(world: World, b: Book, part: string): Book {
    match ParsePart(part) case None => b case Some(e) => Put(world, b, e)
  }

  function PutParts(world: World, b: Book, parts: seq<string>): Book
    decreases |parts|
  {
    if parts == [] then b else PutParts(world, PutPart(world, b, parts[0]), parts[1..])
  }

  /** The entries of a text are read one by one; what follows the last semicolon is nothing. */
  lemma {:induction false} LinesRead(world: World, b: Book, es: seq<Entry>)
    requires forall i :: 0 <= i < |es| ==> CleanEntry(es[i])
    ensures PutParts(world, b, Pieces(';', Lines(es))) == PutAll(world, b, es)
    decreases |es|
  {
    if es == [] {
      var none: seq<string> := [];
      assert Pieces(';', "") == [""] && [""][1..] == none;
    } else {
      PartReads(es[0]);
      LineIsClean(es[0]);
      CutFirst(';', Line(es[0]), Lines(es[1..]));
      var more := Pieces(';', Lines(es[1..]));
      assert Pieces(';', Lines(es)) == [Line(es[0])] + more;
      assert ([Line(es[0])] + more)[1..] == more;
      LinesRead(world, Put(world, b, es[0]), es[1..]);
    }
  }

  /** Of two records of a quest the first one counts. */
  lemma {:induction false} FirstStays(world: World, b: Book, parts: seq<string>)
    ensures var r := PutParts(world, b, parts);
      && (forall id :: id in b.quests ==> id in r.quests && r.quests[id] == b.quests[id])
      && (forall id :: id in b.inactive ==> id in r.inactive && r.inactive[id] == b.inactive[id])
    decreases |parts|
  {
    if parts != [] {
      FirstStays(world, PutPart(world, b, parts[0]), parts[1..]);
    }
  }

  /** Where an entry ends up. */
  ghost predicate Placed(world: World, b: Book, e: Entry) {
    if Loadable(world, e) then e.id in b.quests && e.id !in b.inactive && b.quests[e.id] == ContextOf(world, e)
    else e.id in b.inactive && e.id !in b.quests && b.inactive[e.id] == e
  }

  predicate Fresh(b: Book, id: int) {
    id !in b.quests && id !in b.inactive
  }

  function Ids(es: seq<Entry>): set<int> {
    if es == [] then {} else {es[0].id} + Ids(es[1..])
  }

  predicate Distinct(es: seq<Entry>) {
    es != [] ==> es[0].id !in Ids(es[1..]) && Distinct(es[1..])
  }

  lemma {:induction false} AllPlaced(world: World, b: Book, es: seq<Entry>)
    requires Distinct(es) && forall id :: id in Ids(es) ==> Fresh(b, id)
    ensures var r := PutAll(world, b, es);
      && (forall e :: e in es ==> Placed(world, r, e))
      && (forall id :: !Fresh(r, id) <==> !Fresh(b, id) || id in Ids(es))
      && (forall id :: id !in Ids(es) ==>
        (id in r.quests <==> id in b.quests) && (id in r.inactive <==> id in b.inactive))
      && (forall id :: id in b.quests ==> id in r.quests && r.quests[id] == b.quests[id])
      && (forall id :: id in b.inactive ==> id in r.inactive && r.inactive[id] == b.inactive[id])
    decreases |es|
  {
    if es != [] {
      var next := Put(world, b, es[0]);
      assert es[0].id in Ids(es) && Fresh(b, es[0].id);
      forall id | id in Ids(es[1..]) ensures Fresh(next, id) {
        assert id in Ids(es);
      }
      AllPlaced(world, next, es[1..]);
      assert forall e :: e in es <==> e == es[0] || e in es[1..];
    }
  }

  // -- Saving ---------------------------------------------------------------------------

  function EntryFor(id: Short, r: Running): Entry
    requires forall k :: k in r.order ==> k in r.context.progress
  {
    Entry(id, r.context.stateName, ProgressText(r.order, r.context.progress))
  }

  predicate CleanName(s: string) {
    ',' !in s && ';' !in s && Lower(s) == s
  }

  /** Keys without separators, and counters that are shorts. */
  predicate CleanProgress(m: map<string, int>) {
    forall k :: k in m ==> CleanKey(k) && -0x8000 <= m[k] < 0x8000
  }

  ghost predicate CleanRunning(r: Running) {
    CleanName(r.context.stateName) && Orders(r.order, r.context.progress) && CleanProgress(r.context.progress)
  }

  /** The active quests by id, null once reset, and the order of std::map. */
  type QuestList = seq<(Short, Option<Running>)>

  function Keys(list: QuestList): set<int> {
    if list == [] then {} else {list[0].0} + Keys(list[1..])
  }

  /** The ids are distinct, and every progress map has an order. */
  ghost predicate Listed(list: QuestList) {
    list != [] ==>
      && list[0].0 !in Keys(list[1..])
      && (list[0].1.Some? ==> Orders(list[0].1.value.order, list[0].1.value.context.progress))
      && Listed(list[1..])
  }

  ghost predicate CleanList(list: QuestList) {
    Listed(list) && forall q :: q in list && q.1.Some? ==> CleanRunning(q.1.value)
  }

  function ActiveEntries(list: QuestList): seq<Entry>
    requires Listed(list)
  {
    if list == [] then []
    else (if list[0].1.Some? then [EntryFor(list[0].0, list[0].1.value)] else []) + ActiveEntries(list[1..])
  }

  /** An id in the active list hides the inactive entry, even when its context is null. */
  function Kept(keys: set<int>, inactive: seq<Entry>): seq<Entry> {
    if inactive == [] then []
    else (if inactive[0].id in keys then [] else [inactive[0]]) + Kept(keys, inactive[1..])
  }

  function Entries(list: QuestList, inactive: seq<Entry>): seq<Entry>
    requires Listed(list)
  {
    ActiveEntries(list) + Kept(Keys(list), inactive)
  }

  function Save(list: QuestList, inactive: seq<Entry>): string
    requires Listed(list)
  {
    Lines(Entries(list, inactive))
  }

  lemma {:induction false} NoSemicolon(order: seq<string>, m: map<string, int>)
    requires forall k :: k in order ==> k in m && CleanKey(k)
    ensures ';' !in Pairs(order, m)
  {
    if order != [] {
      NoSemicolon(order[1..], m);
      IntIsClean(m[order[0]]);
    }
  }

  lemma EntryIsClean(id: Short, r: Running)
    requires CleanRunning(r)
    ensures CleanEntry(EntryFor(id, r))
  {
    NoSemicolon(r.order, r.context.progress);
  }

  lemma {:induction false} ActiveAreClean(list: QuestList)
    requires CleanList(list)
    ensures Ids(ActiveEntries(list)) <= Keys(list) && Distinct(ActiveEntries(list))
    ensures forall e :: e in ActiveEntries(list) ==> CleanEntry(e)
    ensures forall q :: q in list && q.1.Some? ==>
      CleanRunning(q.1.value) && EntryFor(q.0, q.1.value) in ActiveEntries(list)
  {
    if list != [] {
      assert list[0] in list;
      ActiveAreClean(list[1..]);
      var more := ActiveEntries(list[1..]);
      if list[0].1.Some? {
        EntryIsClean(list[0].0, list[0].1.value);
        assert ActiveEntries(list)[1..] == more;
      } else {
        assert ActiveEntries(list) == more;
      }
    }
  }

  lemma {:induction false} KeptAreClean(keys: set<int>, inactive: seq<Entry>)
    requires Distinct(inactive) && forall e :: e in inactive ==> CleanEntry(e)
    ensures Ids(Kept(keys, inactive)) == Ids(inactive) - keys && Distinct(Kept(keys, inactive))
    ensures forall e :: e in Kept(keys, inactive) ==> CleanEntry(e)
    ensures forall e :: e in Kept(keys, inactive) <==> e in inactive && e.id !in keys
  {
    if inactive != [] {
      KeptAreClean(keys, inactive[1..]);
      var more := Kept(keys, inactive[1..]);
      if inactive[0].id in keys {
        assert Kept(keys, inactive) == more;
      } else {
        assert Kept(keys, inactive)[1..] == more;
      }
    }
  }

  lemma {:induction false} Joined(a: seq<Entry>, b: seq<Entry>)
    requires Distinct(a) && Distinct(b) && Ids(a) !! Ids(b)
    ensures Distinct(a + b) && Ids(a + b) == Ids(a) + Ids(b)
  {
    if a == [] {
      assert a + b == b;
    } else {
      Joined(a[1..], b);
      assert (a + b)[1..] == a[1..] + b;
    }
  }

  const EMPTY_BOOK := Book(map[], map[])

  function Load(world: World, text: string): Book {
    PutParts(world, EMPTY_BOOK, Pieces(';', text))
  }

  predicate AllRestorable(m: map<string, int>) {
    forall k :: k in m ==> Restorable(m[k])
  }

  /** What is resumed is what was saved exactly if every counter is one that can be read back. */
  lemma ContextReads(world: World, id: Short, r: Running)
    requires CleanRunning(r) && Loadable(world, EntryFor(id, r))
    requires r.context.finished == Finished(world[id], r.context.stateName)
    ensures ContextOf(world, EntryFor(id, r)) == r.context <==> AllRestorable(r.context.progress)
  {
    ProgressExactly(r.order, r.context.progress);
  }

  /**
   Saving and then loading into any world: a quest whose state the world knows comes back with its state name
   and what its progress text gives; any other is kept as an entry; inactive entries come back unless an active id
   hides them; and there is nothing else.
   */
  lemma QuestsSurvive(world: World, list: QuestList, inactive: seq<Entry>)
    requires CleanList(list) && Distinct(inactive) && forall e :: e in inactive ==> CleanEntry(e)
    ensures var b := Load(world, Save(list, inactive));
      && (forall q :: q in list && q.1.Some? ==> CleanRunning(q.1.value) && Placed(world, b, EntryFor(q.0, q.1.value)))
      && (forall e :: e in inactive && e.id !in Keys(list) ==> Placed(world, b, e))
      && (forall id :: !Fresh(b, id) <==> id in Ids(Entries(list, inactive)))
  {
    ActiveAreClean(list);
    KeptAreClean(Keys(list), inactive);
    var es := Entries(list, inactive);
    Joined(ActiveEntries(list), Kept(Keys(list), inactive));
    forall i | 0 <= i < |es| ensures CleanEntry(es[i]) {
      assert es[i] in es;
    }
    LinesRead(world, EMPTY_BOOK, es);
    AllPlaced(world, EMPTY_BOOK, es);
  }

  // -- What was loaded can be saved again -----------------------------------------------

  lemma {:induction false} CutsWithin(c: char, s: string, d: char)
    requires d !in s
    ensures d !in Before(c, s) && d !in After(c, s)
  {
    if s != "" && s[0] != c {
      CutsWithin(c, s[1..], d);
    }
  }

  lemma {:induction false} PiecesClean(c: char, s: string)
    ensures forall p :: p in Pieces(c, s) ==> c !in p
    decreases |s|
  {
    if c in s {
      PiecesClean(c, After(c, s));
    }
  }

  lemma PartIsClean(part: string)
    requires ';' !in part && ParsePart(part).Some?
    ensures CleanEntry(ParsePart(part).value)
  {
    CutsWithin(',', part, ';');
    CutsWithin(',', After(',', part), ';');
  }

  lemma {:induction false} LowerIsClean(s: string)
    requires ',' !in s && ';' !in s
    ensures CleanName(Lower(s))
  {
    if s != "" {
      LowerIsClean(s[1..]);
      assert Lower(s)[1..] == Lower(s[1..]);
      assert s[0] in s;
    }
  }

  lemma {:induction false} ScannedIsClean(s: string, key: string, value: Short, inValue: bool, m: map<string, int>)
    requires ';' !in s && CleanKey(key) && CleanProgress(m)
    ensures CleanProgress(Scanned(s, key, value, inValue, m))
    decreases |s|
  {
    if s != "" && s[0] != '}' {
      if !inValue {
        if s[0] == '=' {
          ScannedIsClean(s[1..], key, value, true, m);
        } else {
          assert s[0] in s;
          ScannedIsClean(s[1..], key + [s[0]], value, false, m);
        }
      } else if s[0] == ',' {
        ScannedIsClean(s[1..], "", 0, false, m[key := value]);
      } else {
        ScannedIsClean(s[1..], key, Wrap(Wrap(value * 10) + Digit(s[0])), true, m);
      }
    }
  }

  /** A context that loading can leave: of a known state, with nothing in it that a save cannot hold. */
  predicate CleanContext(world: World, id: int, c: Context) {
    && -0x8000 <= id < 0x8000 && id in world && Known(world[id], c.stateName)
    && c.finished == Finished(world[id], c.stateName)
    && CleanName(c.stateName) && CleanProgress(c.progress)
  }

  predicate CleanBook(world: World, b: Book) {
    && (forall id :: id in b.quests ==> CleanContext(world, id, b.quests[id]))
    && (forall id :: id in b.inactive ==>
      b.inactive[id].id == id && CleanEntry(b.inactive[id]) && !Loadable(world, b.inactive[id]))
  }

  lemma ContextIsClean(world: World, e: Entry)
    requires CleanEntry(e) && Loadable(world, e)
    ensures CleanContext(world, e.id, ContextOf(world, e))
  {
    LowerIsClean(e.state);
    if e.progress != "" {
      ScannedIsClean(e.progress[1..], "", 0, false, map[]);
    }
  }

  lemma PutIsClean(world: World, b: Book, e: Entry)
    requires CleanBook(world, b) && CleanEntry(e)
    ensures CleanBook(world, Put(world, b, e))
  {
    if Loadable(world, e) {
      ContextIsClean(world, e);
    }
  }

  lemma {:induction false} PutPartsClean(world: World, b: Book, parts: seq<string>)
    requires CleanBook(world, b) && forall p :: p in parts ==> ';' !in p
    ensures CleanBook(world, PutParts(world, b, parts))
    decreases |parts|
  {
    if parts != [] {
      assert parts[0] in parts;
      if ParsePart(parts[0]).Some? {
        PartIsClean(parts[0]);
        PutIsClean(world, b, ParsePart(parts[0]).value);
      }
      PutPartsClean(world, PutPart(world, b, parts[0]), parts[1..]);
    }
  }

  /** From whatever text, malformed or old, no name or key with a separator in it is ever loaded. */
  lemma LoadedIsClean(world: World, text: string)
    ensures CleanBook(world, Load(world, text))
  {
    PiecesClean(';', text);
    PutPartsClean(world, EMPTY_BOOK, Pieces(';', text));
  }

  /** The lists of a character that holds a book, in whatever order. */
  ghost predicate Holds(list: QuestList, inactive: seq<Entry>, b: Book) {
    && (forall q :: q in list ==> q.1.Some? && q.0 in b.quests && q.1.value.context == b.quests[q.0])
    && Keys(list) == b.quests.Keys
    && (forall e :: e in inactive ==> e.id in b.inactive && b.inactive[e.id] == e)
    && Ids(inactive) == b.inactive.Keys
  }

  lemma {:induction false} SomeOrder(m: map<string, int>) returns (order: seq<string>)
    ensures Orders(order, m)
    decreases |m|
  {
    order := [];
    if m.Keys != {} {
      var k := Member(m.Keys);
      var rest := SomeOrder(m - {k});
      order := [k] + rest;
    }
  }

  lemma {:induction false} SomeList(quests: map<int, Context>) returns (list: QuestList)
    requires forall id :: id in quests ==> -0x8000 <= id < 0x8000
    ensures Listed(list) && Keys(list) == quests.Keys
    ensures forall q :: q in list ==> q.1.Some? && q.0 in quests && q.1.value.context == quests[q.0]
    decreases |quests|
  {
    list := [];
    if quests.Keys != {} {
      var id := Member(quests.Keys);
      var rest := SomeList(quests - {id});
      var order := SomeOrder(quests[id].progress);
      list := [(id, Some(Running(quests[id], order)))] + rest;
      assert list[1..] == rest;
    }
  }

  lemma {:induction false} SomeEntries(inactive: map<int, Entry>) returns (es: seq<Entry>)
    requires forall id :: id in inactive ==> inactive[id].id == id
    ensures Distinct(es) && Ids(es) == inactive.Keys
    ensures forall e :: e in es ==> e.id in inactive && inactive[e.id] == e
    decreases |inactive|
  {
    es := [];
    if inactive.Keys != {} {
      var id := Member(inactive.Keys);
      var rest := SomeEntries(inactive - {id});
      es := [inactive[id]] + rest;
      assert es[1..] == rest;
    }
  }

  /** What is loaded can be listed for a save. */
  lemma SomethingHolds(world: World, text: string) returns (list: QuestList, inactive: seq<Entry>)
    ensures Listed(list) && Distinct(inactive) && Holds(list, inactive, Load(world, text))
  {
    var b := Load(world, text);
    LoadedIsClean(world, text);
    forall id | id in b.quests ensures -0x8000 <= id < 0x8000 {
      assert CleanContext(world, id, b.quests[id]);
    }
    list := SomeList(b.quests);
    inactive := SomeEntries(b.inactive);
  }

  lemma {:induction false} IdsHold(es: seq<Entry>, id: int) returns (e: Entry)
    requires id in Ids(es)
    ensures e in es && e.id == id
  {
    if es[0].id == id {
      e := es[0];
    } else {
      e := IdsHold(es[1..], id);
    }
  }

  lemma {:induction false} KeysHold(list: QuestList, id: int) returns (q: (Short, Option<Running>))
    requires id in Keys(list)
    ensures q in list && q.0 == id
  {
    if list[0].0 == id {
      q := list[0];
    } else {
      q := KeysHold(list[1..], id);
    }
  }

  /** The contexts come back under their ids, each unchanged exactly if its counters can be read back. */
  lemma QuestReloads(world: World, list: QuestList, inactive: seq<Entry>, b: Book, id: int)
    requires CleanBook(world, b) && CleanList(list) && Distinct(inactive) && Holds(list, inactive, b)
    requires id in b.quests
    ensures var c := Load(world, Save(list, inactive));
      id in c.quests && id !in c.inactive && (c.quests[id] == b.quests[id] <==> AllRestorable(b.quests[id].progress))
  {
    QuestsSurvive(world, list, inactive);
    var q := KeysHold(list, id);
    var e := EntryFor(q.0, q.1.value);
    assert CleanContext(world, id, b.quests[id]);
    assert Loadable(world, e);
    ContextReads(world, q.0, q.1.value);
  }

  /** An inactive entry comes back exactly if no active quest has its id. */
  lemma EntryReloads(world: World, list: QuestList, inactive: seq<Entry>, b: Book, id: int)
    requires CleanBook(world, b) && CleanList(list) && Distinct(inactive) && Holds(list, inactive, b)
    requires id in b.inactive
    ensures var c := Load(world, Save(list, inactive));
      if id in b.quests then id !in c.inactive
      else id !in c.quests && id in c.inactive && c.inactive[id] == b.inactive[id]
  {
    if id in b.quests {
      QuestReloads(world, list, inactive, b, id);
    } else {
      QuestsSurvive(world, list, inactive);
      var e := IdsHold(inactive, id);
    }
  }

  lemma {:induction false} IdsAppend(a: seq<Entry>, b: seq<Entry>)
    ensures Ids(a + b) == Ids(a) + Ids(b)
  {
    if a == [] {
      assert a + b == b;
    } else {
      assert (a + b)[1..] == a[1..] + b;
      IdsAppend(a[1..], b);
    }
  }

  lemma NothingElse(world: World, list: QuestList, inactive: seq<Entry>, b: Book, id: int)
    requires CleanBook(world, b) && CleanList(list) && Distinct(inactive) && Holds(list, inactive, b)
    requires Fresh(b, id)
    ensures Fresh(Load(world, Save(list, inactive)), id)
  {
    QuestsSurvive(world, list, inactive);
    ActiveAreClean(list);
    KeptAreClean(Keys(list), inactive);
    IdsAppend(ActiveEntries(list), Kept(Keys(list), inactive));
  }

  lemma HeldIsClean(world: World, list: QuestList, inactive: seq<Entry>, b: Book)
    requires CleanBook(world, b) && Listed(list) && Holds(list, inactive, b)
    ensures CleanList(list) && forall e :: e in inactive ==> CleanEntry(e)
  {
    forall q | q in list && q.1.Some? ensures CleanRunning(q.1.value) {
      ListedOrders(list, q);
    }
  }

  lemma {:induction false} ListedOrders(list: QuestList, q: (Short, Option<Running>))
    requires Listed(list) && q in list && q.1.Some?
    ensures Orders(q.1.value.order, q.1.value.context.progress)
  {
    if q != list[0] {
      ListedOrders(list[1..], q);
    }
  }

  /**
   What any text loads survives being saved and loaded again exactly if no quest is both active and inactive, and
   every counter is one that can be read back.
   */
  lemma ReloadedExactly(world: World, text: string, list: QuestList, inactive: seq<Entry>)
    requires Listed(list) && Distinct(inactive) && Holds(list, inactive, Load(world, text))
    ensures var b := Load(world, text);
      Load(world, Save(list, inactive)) == b <==>
        b.quests.Keys !! b.inactive.Keys && forall id :: id in b.quests ==> AllRestorable(b.quests[id].progress)
  {
    var b, c := Load(world, text), Load(world, Save(list, inactive));
    LoadedIsClean(world, text);
    HeldIsClean(world, list, inactive, b);
    forall id | id in b.quests
      ensures id in c.quests && id !in c.inactive
      ensures c.quests[id] == b.quests[id] <==> AllRestorable(b.quests[id].progress)
    {
      QuestReloads(world, list, inactive, b, id);
    }
    forall id | id in b.inactive && id !in b.quests
      ensures id !in c.quests && id in c.inactive && c.inactive[id] == b.inactive[id]
    {
      EntryReloads(world, list, inactive, b, id);
    }
    forall id | Fresh(b, id) ensures Fresh(c, id) {
      NothingElse(world, list, inactive, b, id);
    }
    SameBook(b, c);
  }

  lemma SameBook(b: Book, c: Book)
    requires forall id :: id in b.quests ==> id in c.quests && id !in c.inactive
    requires forall id :: id in b.inactive && id !in b.quests ==>
      id !in c.quests && id in c.inactive && c.inactive[id] == b.inactive[id]
    requires forall id :: Fresh(b, id) ==> Fresh(c, id)
    ensures c == b <==> b.quests.Keys !! b.inactive.Keys && forall id :: id in b.quests ==> c.quests[id] == b.quests[id]
  {
    assert c.quests.Keys == b.quests.Keys by {
      forall id ensures id in c.quests <==> id in b.quests {
        assert Fresh(b, id) ==> Fresh(c, id);
      }
    }
    if b.quests.Keys !! b.inactive.Keys {
      forall id ensures id in c.inactive <==> id in b.inactive {
        assert Fresh(b, id) ==> Fresh(c, id);
      }
      assert c.inactive.Keys == b.inactive.Keys;
      assert forall id :: id in b.inactive ==> id !in b.quests && c.inactive[id] == b.inactive[id];
      assert c.inactive == b.inactive;
    }
    if c == b {
      forall id | id in b.quests ensures id !in b.inactive {
      }
    }
    if forall id :: id in b.quests ==> c.quests[id] == b.quests[id] {
      assert c.quests == b.quests;
    }
  }

  // -- The code -------------------------------------------------------------------------

  /** BeginState keeps the day and the count of a daily quest. */
  predicate IsDaily(key: string) {
    key == "d" || key == "c"
  }

  lemma Regroup5<T>(s: seq<T>, a: seq<T>, b: seq<T>, c: seq<T>, d: seq<T>, e: seq<T>)
    ensures s + (a + b + c + d + e) == s + a + b + c + d + e
  {
    Regroup(s, a, b);
    Regroup(s, a + b, c);
    Regroup(s, a + b + c, d);
    Regroup(s, a + b + c + d, e);
  }

  lemma PairsStep(order: seq<string>, i: nat, m: map<string, int>)
    requires i < |order| && forall k :: k in order ==> k in m
    ensures Pairs(order[i..], m) ==
      order[i] + "=" + IntText(m[order[i]]) + (if i != |order| - 1 then "," else "") + Pairs(order[i + 1..], m)
  {
    assert order[i..][1..] == order[i + 1..];
  }

  lemma PairsAppend(s: string, order: seq<string>, i: nat, m: map<string, int>)
    requires i < |order| && forall k :: k in order ==> k in m
    ensures var more := s + order[i] + "=" + IntText(m[order[i]]);
      s + Pairs(order[i..], m) == (if i != |order| - 1 then more + "," else more) + Pairs(order[i + 1..], m)
  {
    PairsStep(order, i, m);
    var comma := if i != |order| - 1 then "," else "";
    Regroup5(s, order[i], "=", IntText(m[order[i]]), comma, Pairs(order[i + 1..], m));
    var more := s + order[i] + "=" + IntText(m[order[i]]);
    assert more + "" == more;
  }

  class QuestContext {
    var stateName: string
    var finished: bool
    var progress: map<string, int>

    constructor ()
      ensures stateName == "" && !finished && progress == map[]
    {
      stateName, finished, progress := "", false, map[];
    }

    method BeginState()
      modifies this`progress
      ensures progress == map k | k in old(progress) && IsDaily(k) :: old(progress)[k]
    {
      var keys := progress.Keys;
      while keys != {}
        invariant keys <= progress.Keys
        invariant progress == map k | k in old(progress) && (k in keys || IsDaily(k)) :: old(progress)[k]
        decreases |keys|
      {
        var key :| key in keys;
        keys := keys - {key};
        if !IsDaily(key) {
          progress := progress - {key};
        }
      }
    }

    /** SetState without actions; false is the unknown-state error. */
    method SetState(states: set<string>, state: string) returns (ok: bool)
      modifies this
      ensures stateName == Lower(state)
      ensures ok <==> stateName in states || stateName == "end" || stateName == "done"
      ensures ok ==> (finished <==> stateName == "end" || stateName !in states)
      ensures progress ==
        if stateName in states then map k | k in old(progress) && IsDaily(k) :: old(progress)[k] else old(progress)
    {
      var id := Lower(state);
      stateName := id;
      if id == "end" || id == "done" {
        finished := true;
      }
      if id !in states {
        return id == "end" || id == "done";
      }
      finished := id == "end";
      BeginState();
      ok := true;
    }

    method SerializeProgress(order: seq<string>) returns (s: string)
      requires Orders(order, progress)
      ensures s == ProgressText(order, progress)
    {
      s := "{";
      for i := 0 to |order|
        invariant s + Pairs(order[i..], progress) == "{" + Pairs(order, progress)
      {
        PairsAppend(s, order, i, progress);
        s := s + order[i];
        s := s + "=";
        s := s + IntText(progress[order[i]]);
        if i != |order| - 1 {
          s := s + ",";
        }
      }
      s := s + "}";
    }

    method UnserializeProgress(s: string)
      modifies this`progress
      ensures progress == ProgressOf(s, old(progress))
    {
      if s == "" || s[0] != '{' {
        return;
      }
      var it, key, value, state := 1, "", 0, 0;
      while it < |s| && s[it] != '}'
        invariant 1 <= it <= |s| && (state == 0 || state == 1)
        invariant Scanned(s[it..], key, value, state == 1, progress) == ProgressOf(s, old(progress))
      {
        assert s[it..][1..] == s[it + 1..];
        if state == 0 {
          if s[it] == '=' {
            state := 1;
          } else {
            key := key + [s[it]];
          }
        } else if state == 1 {
          if s[it] == ',' {
            progress := progress[key := value];
            key, value, state := "", 0, 0;
          } else {
            value := Wrap(value * 10);
            value := Wrap(value + Digit(s[it]));
          }
        }
        it := it + 1;
      }
      if state == 1 {
        progress := progress[key := value];
      }
    }
  }

  /** What the second search finds in the part after the first comma. */
  lemma SecondCut(part: string, from: nat, second: nat)
    requires from <= second <= |part| && ',' !in part[from..second] && (second < |part| ==> part[second] == ',')
    ensures second == |part| ==> ',' !in part[from..]
    ensures second < |part| ==>
      && ',' in part[from..]
      && Before(',', part[from..]) == part[from..second] && After(',', part[from..]) == part[second + 1..]
  {
    var rest := part[from..];
    if second < |part| {
      assert rest[..second - from] == part[from..second] && rest[second - from + 1..] == part[second + 1..];
      CutAt(',', rest, second - from);
    } else {
      assert rest == part[from..second];
    }
  }

  class Character {
    var quests: map<int, Context>
    var questsInactive: map<int, Entry>

    function Held(): Book
      reads this
    {
      Book(quests, questsInactive)
    }

    method Deactivate(e: Entry)
      modifies this`questsInactive
      ensures questsInactive ==
        if e.id in old(questsInactive) then old(questsInactive) else old(questsInactive)[e.id := e]
    {
      if e.id !in questsInactive {
        questsInactive := questsInactive[e.id := e];
      }
    }

    /** The state and the progress of one part of the save; the old formats have no progress to keep. */
    method Divide(part: string, comma: nat) returns (e: Entry)
      requires comma < |part| && part[comma] == ',' && ',' !in part[..comma]
      ensures ParsePart(part) == Some(e)
    {
      CutAt(',', part, comma);
      var id := Wrap(ToInt(part[..comma]));
      var second := Find(',', part, comma + 1);
      SecondCut(part, comma + 1, second);
      if second < |part| {
        var progress := part[second + 1..];
        if progress != "" && progress[0] != '{' {
          progress := "{}";
        }
        e := Entry(id, part[comma + 1..second], progress);
      } else {
        e := Entry(id, part[comma + 1..], "{}");
      }
    }

    method Resume(world: World, e: Entry)
      modifies this
      ensures Held() == Put(world, old(Held()), e)
    {
      if e.id !in world {
        Deactivate(e);
        return;
      }
      var context := new QuestContext();
      var ok := context.SetState(world[e.id], e.state);
      if !ok {
        Deactivate(e);
        return;
      }
      assert context.progress == map[];
      context.UnserializeProgress(e.progress);
      if e.id !in quests {
        quests := quests[e.id := Context(context.stateName, context.finished, context.progress)];
      }
    }

    method QuestUnserialize(world: World, serialized: string)
      modifies this
      ensures Held() == PutParts(world, old(Held()), Pieces(';', serialized))
    {
      var parts := Explode(';', serialized);
      for i := 0 to |parts|
        invariant PutParts(world, Held(), parts[i..]) == PutParts(world, old(Held()), parts)
      {
        assert parts[i..][1..] == parts[i + 1..];
        var comma := Find(',', parts[i], 0);
        if comma < |parts[i]| {
          var e := Divide(parts[i], comma);
          Resume(world, e);
        }
      }
    }
  }

  lemma AppendsLine(s: string, e: Entry, more: seq<Entry>)
    ensures (s + Line(e) + ";") + Lines(more) == s + Lines([e] + more)
  {
    assert ([e] + more)[1..] == more;
    assert (s + Line(e) + ";") + Lines(more) == s + (Line(e) + ";" + Lines(more));
  }

  method AppendEntry(s: string, id: Short, state: string, progress: string) returns (r: string)
    ensures r == s + Line(Entry(id, state, progress)) + ";"
  {
    r := s + IntText(id);
    r := r + ",";
    r := r + state;
    r := r + ",";
    r := r + progress;
    r := r + ";";
  }

  method SerializeActive(list: QuestList) returns (serialized: string)
    requires Listed(list)
    ensures serialized == Lines(ActiveEntries(list))
  {
    serialized := "";
    for i := 0 to |list|
      invariant Listed(list[i..])
      invariant serialized + Lines(ActiveEntries(list[i..])) == Lines(ActiveEntries(list))
    {
      ghost var more := ActiveEntries(list[i + 1..]);
      assert list[i..][1..] == list[i + 1..];
      if list[i].1.Some? {
        var run := list[i].1.value;
        var context := new QuestContext();
        context.progress := run.context.progress;
        var progress := context.SerializeProgress(run.order);
        AppendsLine(serialized, EntryFor(list[i].0, run), more);
        serialized := AppendEntry(serialized, list[i].0, run.context.stateName, progress);
      } else {
        assert ActiveEntries(list[i..]) == more;
      }
    }
    assert serialized + "" == serialized;
  }

  lemma LinesFirst(e: Entry, es: seq<Entry>, b: seq<Entry>)
    requires es != [] && es[0] == e
    ensures Lines(es + b) == Line(e) + ";" + Lines(es[1..] + b)
  {
    assert (es + b)[1..] == es[1..] + b;
  }

  lemma {:induction false} LinesAppend(a: seq<Entry>, b: seq<Entry>)
    ensures Lines(a + b) == Lines(a) + Lines(b)
  {
    if a == [] {
      assert a + b == b;
    } else {
      LinesAppend(a[1..], b);
      LinesFirst(a[0], a, b);
      Regroup(Line(a[0]) + ";", Lines(a[1..]), Lines(b));
    }
  }

  method QuestSerialize(list: QuestList, inactive: seq<Entry>) returns (serialized: string)
    requires Listed(list)
    ensures serialized == Save(list, inactive)
  {
    serialized := SerializeActive(list);
    LinesAppend(ActiveEntries(list), Kept(Keys(list), inactive));
    for i := 0 to |inactive|
      invariant serialized + Lines(Kept(Keys(list), inactive[i..])) == Save(list, inactive)
    {
      var state := inactive[i];
      ghost var more := Kept(Keys(list), inactive[i + 1..]);
      assert inactive[i..][1..] == inactive[i + 1..];
      if state.id in Keys(list) {
        assert Kept(Keys(list), inactive[i..]) == more;
        continue;
      }
      AppendsLine(serialized, state, more);
      serialized := AppendEntry(serialized, state.id, state.state, state.progress);
    }
    assert serialized + "" == serialized;
  }
}
