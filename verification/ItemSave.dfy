/**
 The saved inventory and spell lists of src/character.cpp, and the numbers that src/map.cpp gives to dropped
 items. Items need an amount of at least 1 to be loaded, spells a level of at least 0. The numbers of the text
 are checked as they are read, and only then narrowed to the fields.
 */
module ItemSave {
  import opened Common
  import opened Lexer
  import opened QuestSave

  datatype Kind = Items | Spells

  /** Character_Item or Character_Spell; the amount of a spell is its level. */
  datatype Record = Record(id: int, amount: int)

  /** The record fits the fields of its struct: the id is a short, a level an unsigned char. */
  predicate Fits(r: Record, kind: Kind) {
    -0x8000 <= r.id < 0x8000 && (kind.Spells? ==> 0 <= r.amount < 0x100)
  }

  /** What assigning the numbers that were read to the fields leaves of them. */
  function Narrow(r: Record, kind: Kind): (n: Record)
    ensures Fits(n, kind) && (Fits(r, kind) ==> n == r)
  {
    Record(Wrap(r.id), if kind.Spells? then r.amount % 0x100 else r.amount)
  }

  function Line(r: Record): string {
    IntText(r.id) + "," + IntText(r.amount)
  }

  function Lines(list: seq<Record>): string {
    if list == [] then "" else Line(list[0]) + ";" + Lines(list[1..])
  }

  function Least(kind: Kind): int {
    if kind.Items? then 1 else 0
  }

  predicate Accepted(r: Record, kind: Kind) {
    1 <= r.id <= 65535 && r.amount >= Least(kind)
  }

  function Kept(list: seq<Record>, kind: Kind): (r: seq<Record>)
    ensures |r| <= |list| && forall i :: 0 <= i < |r| ==> Accepted(r[i], kind)
  {
    if list == [] then [] else (if Accepted(list[0], kind) then [list[0]] else []) + Kept(list[1..], kind)
  }

  /** The numbers of one part of a save. */
  function Numbers(part: string): Record {
    Record(ToInt(Before(',', part)), ToInt(After(',', part)))
  }

  predicate Loads(part: string, kind: Kind) {
    ',' in part && Accepted(Numbers(part), kind)
  }

  /** The records of one part: one, or none when it is malformed or out of range. */
  function ReadPart(part: string, kind: Kind): seq<Record> {
    if Loads(part, kind) then [Narrow(Numbers(part), kind)] else []
  }

  /** The ranges, and what is left of the numbers in the fields. */
  lemma PartReadsExactly(part: string, kind: Kind)
    requires ',' in part
    ensures var n, amount := ToInt(Before(',', part)), ToInt(After(',', part));
      ReadPart(part, kind) ==
        if n < 1 || n > 65535 || amount < (if kind.Items? then 1 else 0) then []
        else [Record(if n < 32768 then n else n - 65536, if kind.Items? then amount else amount % 256)]
  {
    var n := ToInt(Before(',', part));
    WrapShifts(n, -1);
  }

  function ReadParts(parts: seq<string>, kind: Kind): seq<Record> {
    if parts == [] then [] else ReadPart(parts[0], kind) + ReadParts(parts[1..], kind)
  }

  lemma LineIsPlain(r: Record)
    ensures ',' !in IntText(r.id) && ';' !in Line(r)
  {
    IntIsPlain(r.id);
    IntIsPlain(r.amount);
  }

  lemma LineReads(r: Record)
    ensures ',' in Line(r) && Numbers(Line(r)) == r
  {
    LineIsPlain(r);
    IntReads(r.id);
    IntReads(r.amount);
    CutFirst(',', IntText(r.id), IntText(r.amount));
  }

  lemma LineLoads(r: Record, kind: Kind)
    requires Fits(r, kind)
    ensures ReadPart(Line(r), kind) == if Accepted(r, kind) then [r] else []
  {
    LineReads(r);
  }

  lemma PartsNext(part: string, more: seq<string>, kind: Kind)
    ensures ReadParts([part] + more, kind) == ReadPart(part, kind) + ReadParts(more, kind)
  {
    assert ([part] + more)[1..] == more;
  }

  predicate AllFit(list: seq<Record>, kind: Kind) {
    forall i :: 0 <= i < |list| ==> Fits(list[i], kind)
  }

  /** Loading what was saved gives the records that are in range, in order. */
  lemma {:induction false} LinesRead(list: seq<Record>, kind: Kind)
    requires AllFit(list, kind)
    ensures ReadParts(Pieces(';', Lines(list)), kind) == Kept(list, kind)
  {
    if list == [] {
      assert Pieces(';', "") == [""];
      assert ReadParts([""], kind) == [] + [];
    } else {
      LineLoads(list[0], kind);
      LineIsPlain(list[0]);
      CutFirst(';', Line(list[0]), Lines(list[1..]));
      PartsNext(Line(list[0]), Pieces(';', Lines(list[1..])), kind);
      LinesRead(list[1..], kind);
    }
  }

  lemma {:induction false} KeptExactly(list: seq<Record>, kind: Kind)
    ensures Kept(list, kind) == list <==> forall i :: 0 <= i < |list| ==> Accepted(list[i], kind)
  {
    if list != [] {
      KeptExactly(list[1..], kind);
      assert list == [list[0]] + list[1..];
    }
  }

  /** A list comes back unchanged exactly when every record is in range. */
  lemma SavedExactly(list: seq<Record>, kind: Kind)
    requires AllFit(list, kind)
    ensures ReadParts(Pieces(';', Lines(list)), kind) == list
      <==> forall i :: 0 <= i < |list| ==> list[i].id >= 1 && (kind.Items? ==> list[i].amount >= 1)
  {
    LinesRead(list, kind);
    KeptExactly(list, kind);
  }

  // -- What is loaded and saved again ---------------------------------------------------

  /** Every record that the parts give is in range, so that the next load takes it again. */
  predicate AllAccepted(list: seq<Record>, kind: Kind) {
    forall i :: 0 <= i < |list| ==> Accepted(list[i], kind)
  }

  /** An id above the largest short is taken, but turns negative. */
  predicate Narrowed(part: string, kind: Kind) {
    Loads(part, kind) && Numbers(part).id > 0x7fff
  }

  lemma PartExactly(part: string, kind: Kind)
    ensures AllFit(ReadPart(part, kind), kind)
    ensures AllAccepted(ReadPart(part, kind), kind) <==> !Narrowed(part, kind)
  {
    if Loads(part, kind) {
      var n := Numbers(part);
      assert ReadPart(part, kind)[0] == Narrow(n, kind);
      WrapShifts(n.id, -1);
      assert Accepted(Narrow(n, kind), kind) <==> n.id <= 0x7fff;
    }
  }

  lemma JoinedFit(a: seq<Record>, b: seq<Record>, kind: Kind)
    ensures AllFit(a + b, kind) <==> AllFit(a, kind) && AllFit(b, kind)
    ensures AllAccepted(a + b, kind) <==> AllAccepted(a, kind) && AllAccepted(b, kind)
  {
    assert forall i :: 0 <= i < |a| ==> (a + b)[i] == a[i];
    assert forall i :: 0 <= i < |b| ==> (a + b)[|a| + i] == b[i];
  }

  lemma {:induction false} LoadedExactly(parts: seq<string>, kind: Kind)
    ensures AllFit(ReadParts(parts, kind), kind)
    ensures AllAccepted(ReadParts(parts, kind), kind) <==> forall p :: p in parts ==> !Narrowed(p, kind)
  {
    if parts != [] {
      LoadedExactly(parts[1..], kind);
      JoinedFit(ReadPart(parts[0], kind), ReadParts(parts[1..], kind), kind);
      PartExactly(parts[0], kind);
      assert forall p :: p in parts <==> p == parts[0] || p in parts[1..];
    }
  }

  /** What any text loads survives being saved and loaded again exactly when no id of it is above 32767. */
  lemma ReloadedExactly(s: string, kind: Kind)
    ensures var list := ReadParts(Pieces(';', s), kind);
      ReadParts(Pieces(';', Lines(list)), kind) == list <==> forall p :: p in Pieces(';', s) ==> !Narrowed(p, kind)
  {
    var list := ReadParts(Pieces(';', s), kind);
    LoadedExactly(Pieces(';', s), kind);
    SavedExactly(list, kind);
  }

  lemma LinesStep(s: string, list: seq<Record>, i: nat)
    requires i < |list|
    ensures s + Lines(list[i..]) == (s + (Line(list[i]) + ";")) + Lines(list[i + 1..])
  {
    assert list[i..][1..] == list[i + 1..];
    Regroup(s, Line(list[i]) + ";", Lines(list[i + 1..]));
  }

  method AppendRecord(s: string, record: Record) returns (r: string)
    ensures r == s + (Line(record) + ";")
  {
    r := s + IntText(record.id);
    r := r + ",";
    r := r + IntText(record.amount);
    r := r + ";";
  }

  /** ItemSerialize and SpellSerialize. */
  method Serialize(list: seq<Record>) returns (s: string)
    ensures s == Lines(list)
  {
    s := "";
    assert list[0..] == list;
    for i := 0 to |list|
      invariant s + Lines(list[i..]) == Lines(list)
    {
      LinesStep(s, list, i);
      s := AppendRecord(s, list[i]);
    }
    assert s + "" == s;
  }

  /** ItemUnserialize and SpellUnserialize. */
  method Unserialize(s: string, kind: Kind) returns (list: seq<Record>)
    ensures list == ReadParts(Pieces(';', s), kind) && AllFit(list, kind)
  {
    list := [];
    var parts := Explode(';', s);
    for i := 0 to |parts|
      invariant list + ReadParts(parts[i..], kind) == ReadParts(parts, kind)
    {
      assert parts[i..][1..] == parts[i + 1..];
      Regroup(list, ReadPart(parts[i], kind), ReadParts(parts[i + 1..], kind));
      var comma := Find(',', parts[i], 0);
      if comma == |parts[i]| {
        assert ReadPart(parts[i], kind) == [] && list + [] == list;
        continue;
      }
      CutAt(',', parts[i], comma);
      var r := Record(ToInt(parts[i][..comma]), ToInt(parts[i][comma + 1..]));
      if r.id < 1 || r.id > 65535 || r.amount < Least(kind) {
        assert list + [] == list;
        continue;
      }
      list := list + [Narrow(r, kind)];
    }
    assert list + [] == list;
    LoadedExactly(parts, kind);
  }

  // -- Map::GenerateItemID --------------------------------------------------------------

  /** The numbers in use from n on. */
  function From(uids: set<int>, n: int): set<int> {
    set u | u in uids && u >= n
  }

  /** The least positive number that no item has. The search starts again whenever it meets the number. */
  method GenerateItemId(uids: seq<int>) returns (id: int)
    ensures id >= 1 && id !in uids && forall n :: 1 <= n < id ==> n in uids
  {
    id := 1;
    ghost var used := set u | u in uids;
    var i := 0;
    while i < |uids|
      invariant 0 <= i <= |uids| && id >= 1
      invariant forall n :: 1 <= n < id ==> n in uids
      invariant forall j :: 0 <= j < i ==> uids[j] != id
      decreases |From(used, id)|, |uids| - i
    {
      if uids[i] == id {
        assert From(used, id) == From(used, id + 1) + {id};
        id := uids[i] + 1;
        i := 0;
      } else {
        i := i + 1;
      }
    }
  }
}
