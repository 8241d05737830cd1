/**
 Who sees whom: both Map::Walk overloads of src/map.cpp, which tell clients only about what comes
 into view or leaves it, against the distance test of src/util.hpp.
 */
module Visibility {
  import opened Bytes

  datatype Direction = Down | Left | Up | Right

  type Coord = (int, int)

  function Abs(n: int): nat {
    if n < 0 then -n else n
  }

  /** util::path_length */
  function Distance(a: Coord, b: Coord): nat {
    Abs(a.0 - b.0) + Abs(a.1 - b.1)
  }

  predicate Sees(a: Coord, b: Coord, seeDistance: int) {
    Distance(a, b) <= seeDistance
  }

  /** The place a step in a direction comes from. */
  function Before(p: Coord, d: Direction): Coord {
    match d
    case Up => (p.0, p.1 + 1)
    case Down => (p.0, p.1 - 1)
    case Left => (p.0 + 1, p.1)
    case Right => (p.0 - 1, p.1)
  }

  /** The place a step in a direction leads to. */
  function Ahead(p: Coord, d: Direction): (q: Coord)
    ensures Before(q, d) == p
  {
    match d
    case Up => (p.0, p.1 - 1)
    case Down => (p.0, p.1 + 1)
    case Left => (p.0 - 1, p.1)
    case Right => (p.0 + 1, p.1)
  }

  /** Where a path of single steps leads. */
  function Along(p: Coord, path: seq<Direction>): Coord
    decreases |path|
  {
    if path == [] then p else Along(Ahead(p, path[0]), path[1..])
  }

  /** A step in some direction towards another place. */
  function Towards(a: Coord, b: Coord): (d: Direction)
    requires a != b
    ensures Distance(Ahead(a, d), b) == Distance(a, b) - 1
  {
    if a.0 < b.0 then Right else if a.0 > b.0 then Left else if a.1 < b.1 then Down else Up
  }

  /** No path of single steps is shorter than the distance. */
  lemma {:induction false} NoShorterPath(p: Coord, path: seq<Direction>)
    ensures |path| >= Distance(p, Along(p, path))
    decreases |path|
  {
    if path != [] {
      NoShorterPath(Ahead(p, path[0]), path[1..]);
    }
  }

  /** And one is as long: the distance is the least number of single steps. */
  lemma {:induction false} ShortestPath(a: Coord, b: Coord) returns (path: seq<Direction>)
    ensures Along(a, path) == b && |path| == Distance(a, b)
    decreases Distance(a, b)
  {
    path := [];
    if a != b {
      var d := Towards(a, b);
      var rest := ShortestPath(Ahead(a, d), b);
      path := [d] + rest;
      assert path[1..] == rest;
    }
  }

  // -- The two edges -------------------------------------------------------------------

  function NewCoord(p: Coord, d: Direction, see: int, i: int): Coord {
    match d
    case Up => (p.0 + i, p.1 - see + Abs(i))
    case Down => (p.0 + i, p.1 + see - Abs(i))
    case Left => (p.0 - see + Abs(i), p.1 + i)
    case Right => (p.0 + see - Abs(i), p.1 + i)
  }

  function OldCoord(p: Coord, d: Direction, see: int, i: int): Coord {
    match d
    case Up => (p.0 + i, p.1 + see + 1 - Abs(i))
    case Down => (p.0 + i, p.1 - see - 1 + Abs(i))
    case Left => (p.0 + see + 1 - Abs(i), p.1 + i)
    case Right => (p.0 - see - 1 + Abs(i), p.1 + i)
  }

  /** Where along an edge a coordinate would be. */
  function Offset(p: Coord, d: Direction, q: Coord): int {
    if d.Up? || d.Down? then q.0 - p.0 else q.1 - p.1
  }

  predicate Distinct<T(==)>(s: seq<T>) {
    forall i, j :: 0 <= i < j < |s| ==> s[i] != s[j]
  }

  /** The edges list, each once, exactly the places that came into range and those that left it. */
  ghost predicate Edges(newcoords: seq<Coord>, oldcoords: seq<Coord>, p: Coord, d: Direction, see: int) {
    && |newcoords| == |oldcoords|
    && Distinct(newcoords) && Distinct(oldcoords)
    && (forall q: Coord :: q in newcoords <==> Sees(p, q, see) && !Sees(Before(p, d), q, see))
    && (forall q: Coord :: q in oldcoords <==> !Sees(p, q, see) && Sees(Before(p, d), q, see))
  }

  method ViewEdges(p: Coord, d: Direction, see: int) returns (newcoords: seq<Coord>, oldcoords: seq<Coord>)
    ensures Edges(newcoords, oldcoords, p, d, see)
  {
    newcoords, oldcoords := [], [];
    var i := -see;
    while i <= see
      invariant -see <= i && (see >= 0 ==> i <= see + 1) && |newcoords| == |oldcoords|
      invariant |newcoords| == if see >= 0 then i + see else 0
      invariant forall k :: 0 <= k < |newcoords| ==> newcoords[k] == NewCoord(p, d, see, k - see)
      invariant forall k :: 0 <= k < |oldcoords| ==> oldcoords[k] == OldCoord(p, d, see, k - see)
    {
      var newx, newy, oldx, oldy;
      match d {
        case Up =>
          newy := p.1 - see + Abs(i);
          newx := p.0 + i;
          oldy := p.1 + see + 1 - Abs(i);
          oldx := p.0 + i;
        case Right =>
          newx := p.0 + see - Abs(i);
          newy := p.1 + i;
          oldx := p.0 - see - 1 + Abs(i);
          oldy := p.1 + i;
        case Down =>
          newy := p.1 + see - Abs(i);
          newx := p.0 + i;
          oldy := p.1 - see - 1 + Abs(i);
          oldx := p.0 + i;
        case Left =>
          newx := p.0 - see + Abs(i);
          newy := p.1 + i;
          oldx := p.0 + see + 1 - Abs(i);
          oldy := p.1 + i;
      }
      newcoords := newcoords + [(newx, newy)];
      oldcoords := oldcoords + [(oldx, oldy)];
      i := i + 1;
    }
    EdgesHold(newcoords, oldcoords, p, d, see);
  }

  /** One place: it is on an edge exactly when it changes sides, and then at one index. */
  lemma EdgeAt(p: Coord, d: Direction, see: int, q: Coord)
    ensures var i := Offset(p, d, q);
      && (-see <= i <= see && NewCoord(p, d, see, i) == q <==> Sees(p, q, see) && !Sees(Before(p, d), q, see))
      && (-see <= i <= see && OldCoord(p, d, see, i) == q <==> !Sees(p, q, see) && Sees(Before(p, d), q, see))
  {
  }

  lemma EdgesHold(newcoords: seq<Coord>, oldcoords: seq<Coord>, p: Coord, d: Direction, see: int)
    requires |newcoords| == |oldcoords| == if see >= 0 then 2 * see + 1 else 0
    requires forall k :: 0 <= k < |newcoords| ==> newcoords[k] == NewCoord(p, d, see, k - see)
    requires forall k :: 0 <= k < |oldcoords| ==> oldcoords[k] == OldCoord(p, d, see, k - see)
    ensures Edges(newcoords, oldcoords, p, d, see)
  {
    forall k | 0 <= k < |newcoords|
      ensures Offset(p, d, newcoords[k]) == k - see && Offset(p, d, oldcoords[k]) == k - see
    {
    }
    forall q: Coord
      ensures q in newcoords <==> Sees(p, q, see) && !Sees(Before(p, d), q, see)
      ensures q in oldcoords <==> !Sees(p, q, see) && Sees(Before(p, d), q, see)
    {
      EdgeAt(p, d, see, q);
      var k := Offset(p, d, q) + see;
      assert 0 <= k < |newcoords| ==> newcoords[k] == NewCoord(p, d, see, k - see);
      assert 0 <= k < |oldcoords| ==> oldcoords[k] == OldCoord(p, d, see, k - see);
    }
  }

  // -- Walking -------------------------------------------------------------------------

  type Place = (Byte, Byte)

  datatype Npc = Npc(at: Place, alive: bool)

  function NpcPlaces(npcs: seq<Npc>): seq<Place> {
    seq(|npcs|, n requires 0 <= n < |npcs| => npcs[n].at)
  }

  function NpcsAlive(npcs: seq<Npc>): seq<bool> {
    seq(|npcs|, n requires 0 <= n < |npcs| => npcs[n].alive)
  }

  function AsCoord(p: Place): Coord {
    (p.0, p.1)
  }

  datatype WalkResult = WalkFail | WalkOK | WalkWarped

  /** What the map says about the target tile. */
  datatype Tile = Passable | Blocked | Warps

  /** The target of a step in unsigned bytes. Down is guarded by the wrong coordinate, as in the source. */
  method Target(at: Place, d: Direction) returns (ok: bool, target: Place)
    ensures ok ==> AsCoord(target) == Ahead(AsCoord(at), d) || (d.Down? && at.1 == 255)
    ensures !ok <==> (d.Up? && at.1 == 0) || (d.Left? && at.0 == 0) || (d.Right? && at.0 == 255)
    ensures d.Down? && at.1 == 255 ==> ok && target == (at.0, 0)
  {
    var x, y := at.0, at.1;
    ok := true;
    match d {
      case Up =>
        y := (y - 1) % 256;
        ok := !(y > at.1);
      case Right =>
        x := (x + 1) % 256;
        ok := !(x < at.0);
      case Down =>
        y := (y + 1) % 256;
        ok := !(x < at.0);
      case Left =>
        x := (x - 1) % 256;
        ok := !(x > at.0);
    }
    target := (x, y);
  }

  /** How often a place matches the old and the new edge; an edge lists a place once. */
  method Matches(q: Coord, newcoords: seq<Coord>, oldcoords: seq<Coord>) returns (news: nat, olds: nat)
    requires |newcoords| == |oldcoords| && Distinct(newcoords) && Distinct(oldcoords)
    requires !(q in newcoords && q in oldcoords)
    ensures news == (if q in newcoords then 1 else 0) && olds == (if q in oldcoords then 1 else 0)
  {
    news, olds := 0, 0;
    for i := 0 to |oldcoords|
      invariant olds == if q in oldcoords[..i] then 1 else 0
      invariant news == if q in newcoords[..i] then 1 else 0
    {
      assert oldcoords[..i + 1] == oldcoords[..i] + [oldcoords[i]];
      assert newcoords[..i + 1] == newcoords[..i] + [newcoords[i]];
      if q == oldcoords[i] {
        olds := olds + 1;
      } else if q == newcoords[i] {
        news := news + 1;
      }
    }
    assert oldcoords[..|oldcoords|] == oldcoords && newcoords[..|newcoords|] == newcoords;
  }

  /** Those on an edge, each once, in order; skip is left out. */
  method Classify(places: seq<Place>, here: seq<bool>, skip: int, newcoords: seq<Coord>, oldcoords: seq<Coord>)
    returns (news: seq<nat>, olds: seq<nat>)
    requires |here| == |places|
    requires |newcoords| == |oldcoords| && Distinct(newcoords) && Distinct(oldcoords)
    requires forall q :: !(q in newcoords && q in oldcoords)
    ensures Distinct(news) && Distinct(olds)
    ensures forall k: nat :: k in news <==> OnEdge(places, here, skip, newcoords, k)
    ensures forall k: nat :: k in olds <==> OnEdge(places, here, skip, oldcoords, k)
  {
    news, olds := [], [];
    for c := 0 to |places|
      invariant Distinct(news) && Distinct(olds)
      invariant forall i :: 0 <= i < |news| ==> news[i] < c
      invariant forall i :: 0 <= i < |olds| ==> olds[i] < c
      invariant forall k: nat :: k in news <==> k < c && OnEdge(places, here, skip, newcoords, k)
      invariant forall k: nat :: k in olds <==> k < c && OnEdge(places, here, skip, oldcoords, k)
    {
      if c != skip && here[c] {
        var n, o := Matches(AsCoord(places[c]), newcoords, oldcoords);
        if o > 0 {
          olds := olds + [c];
        }
        if n > 0 {
          news := news + [c];
        }
      }
    }
  }

  predicate OnEdge(places: seq<Place>, here: seq<bool>, skip: int, edge: seq<Coord>, k: nat)
    requires |here| == |places|
  {
    k < |places| && k != skip && here[k] && AsCoord(places[k]) in edge
  }

  /** What a client has been told is around. */
  datatype View = View(characters: set<nat>, npcs: set<nat>)

  /** A client at me knows exactly the other characters within sight; self is its own number. */
  ghost predicate KnowsCharacters(v: View, self: nat, me: Place, characters: seq<Place>, see: int) {
    forall o: nat ::
      o in v.characters <==> o < |characters| && o != self && Sees(AsCoord(me), AsCoord(characters[o]), see)
  }

  /** A client at me knows exactly the live NPCs within sight. */
  ghost predicate KnowsNpcs(v: View, me: Place, npcs: seq<Npc>, see: int) {
    forall n: nat ::
      n in v.npcs <==> n < |npcs| && npcs[n].alive && Sees(AsCoord(me), AsCoord(npcs[n].at), see)
  }

  /** The view of one client after an NPC has walked from one place to the next. */
  lemma NpcWalked(v: View, w: View, me: Place, npcs: seq<Npc>, from: nat, target: Place, d: Direction, see: int)
    requires from < |npcs| && npcs[from].alive && Before(AsCoord(target), d) == AsCoord(npcs[from].at)
    requires KnowsNpcs(v, me, npcs, see)
    requires forall n: nat :: n != from ==> (n in w.npcs <==> n in v.npcs)
    requires var now := Sees(AsCoord(target), AsCoord(me), see);
      var before := Sees(AsCoord(npcs[from].at), AsCoord(me), see);
      from in w.npcs <==> (if !now && before then false else if now && !before then true else from in v.npcs)
    ensures KnowsNpcs(w, me, npcs[from := Npc(target, true)], see)
  {
  }

  /** The view of another client after a character has walked. */
  lemma OtherWalked(v: View, w: View, self: nat, characters: seq<Place>, from: nat, target: Place, d: Direction,
                    see: int)
    requires self < |characters| && from < |characters| && self != from
    requires Before(AsCoord(target), d) == AsCoord(characters[from])
    requires KnowsCharacters(v, self, characters[self], characters, see)
    requires forall o: nat :: o != from ==> (o in w.characters <==> o in v.characters)
    requires var now := Sees(AsCoord(target), AsCoord(characters[self]), see);
      var before := Sees(AsCoord(characters[from]), AsCoord(characters[self]), see);
      from in w.characters <==>
        (if !now && before then false else if now && !before then true else from in v.characters)
    ensures KnowsCharacters(w, self, characters[self], characters[from := target], see)
  {
  }

  /** One thing in the walker's own view, which changes only where the thing changes sides. */
  predicate Turned(was: bool, place: Place, target: Place, d: Direction, see: int) {
    var now := Sees(AsCoord(target), AsCoord(place), see);
    var before := Sees(Before(AsCoord(target), d), AsCoord(place), see);
    if !now && before then false else if now && !before then true else was
  }

  /** The walker's own view after the walk. */
  lemma SelfWalked(v: View, w: View, characters: seq<Place>, npcs: seq<Npc>, from: nat, target: Place, d: Direction,
                   see: int)
    requires from < |characters| && Before(AsCoord(target), d) == AsCoord(characters[from])
    requires KnowsCharacters(v, from, characters[from], characters, see) && KnowsNpcs(v, characters[from], npcs, see)
    requires forall o: nat ::
      o in w.characters <==> o < |characters| && o != from && Turned(o in v.characters, characters[o], target, d, see)
    requires forall n: nat ::
      n in w.npcs <==> n < |npcs| && npcs[n].alive && Turned(n in v.npcs, npcs[n].at, target, d, see)
    ensures KnowsCharacters(w, from, target, characters[from := target], see) && KnowsNpcs(w, target, npcs, see)
  {
  }

  function Told(was: set<nat>, whom: set<nat>, appears: bool): set<nat> {
    if appears then was + whom else was - whom
  }

  /** About whom client c is told when the walker from and those in a list are told about each other. */
  function TellSet(c: nat, from: nat, list: seq<nat>): set<nat> {
    if c == from then (set k | k in list) else if c in list then {from} else {}
  }

  class Map {
    const width: Byte
    const height: Byte
    const seeDistance: int
    var characters: seq<Place>
    var npcs: seq<Npc>
    var known: seq<View>

    predicate InBounds(p: Place) {
      p.0 < width && p.1 < height
    }

    /** The same of coordinates that are not bytes. */
    predicate OnMap(c: Coord) {
      0 <= c.0 < width && 0 <= c.1 < height
    }

    /** Every client knows exactly the others and the live NPCs within sight. */
    ghost predicate Valid()
      reads this
    {
      && |known| == |characters|
      && (forall c :: 0 <= c < |characters| ==> InBounds(characters[c]))
      && (forall n :: 0 <= n < |npcs| ==> InBounds(npcs[n].at))
      && (forall c :: 0 <= c < |characters| ==> Knows(c))
    }

    ghost predicate Knows(c: nat)
      requires c < |characters| == |known|
      reads this
    {
      && KnowsCharacters(known[c], c, characters[c], characters, seeDistance)
      && KnowsNpcs(known[c], characters[c], npcs, seeDistance)
    }

    method WalkNpc(from: nat, d: Direction, tile: Tile) returns (r: WalkResult)
      requires Valid() && from < |npcs| && npcs[from].alive
      modifies this
      ensures Valid() && characters == old(characters) && |npcs| == |old(npcs)|
      ensures r == if OnMap(Ahead(AsCoord(old(npcs)[from].at), d)) && tile.Passable? then WalkOK else WalkFail
      ensures r.WalkOK? ==>
        npcs == old(npcs)[from := npcs[from]] && npcs[from].alive
        && AsCoord(npcs[from].at) == Ahead(AsCoord(old(npcs)[from].at), d)
      ensures !r.WalkOK? ==> npcs == old(npcs) && known == old(known)
    {
      var ok, target := Target(npcs[from].at, d);
      if !ok {
        return WalkFail;
      }
      if !InBounds(target) || !tile.Passable? {
        return WalkFail;
      }
      npcs := npcs[from := Npc(target, true)];
      var newcoords, oldcoords := ViewEdges(AsCoord(target), d, seeDistance);
      var news, olds := Classify(characters, seq(|characters|, _ => true), -1, newcoords, oldcoords);
      TellNpc(news, from, true);
      TellNpc(olds, from, false);
      r := WalkOK;
      forall c | 0 <= c < |characters| ensures Knows(c) {
        assert old(Knows(c));
        NpcWalked(old(known)[c], known[c], characters[c], old(npcs), from, target, d, seeDistance);
      }
    }

    /** The clients in a list are told that an NPC has appeared or left. */
    method TellNpc(list: seq<nat>, npc: nat, appears: bool)
      requires |known| == |characters| && forall k: nat :: k in list ==> k < |characters|
      modifies `known
      ensures |known| == |characters|
      ensures forall c: nat :: c < |known| ==> known[c].characters == old(known)[c].characters
      ensures forall c: nat, n: nat :: c < |known| ==>
        (n in known[c].npcs <==> if n == npc && c in list then appears else n in old(known)[c].npcs)
    {
      for i := 0 to |list|
        invariant |known| == |characters|
        invariant forall c: nat :: c < |known| ==> known[c].characters == old(known)[c].characters
        invariant forall c: nat, n: nat :: c < |known| ==>
          (n in known[c].npcs <==> if n == npc && c in list[..i] then appears else n in old(known)[c].npcs)
      {
        var c := list[i];
        assert c in list && list[..i + 1] == list[..i] + [c];
        known := known[c := known[c].(npcs := if appears then known[c].npcs + {npc} else known[c].npcs - {npc})];
      }
      assert list[..|list|] == list;
    }

    /** Character walks. A warp takes the walker off this part of the map and is not followed further. */
    method WalkCharacter(from: nat, d: Direction, tile: Tile) returns (r: WalkResult)
      requires Valid() && from < |characters|
      modifies this
      ensures Valid() && npcs == old(npcs) && |characters| == |old(characters)|
      ensures r == if !OnMap(Ahead(AsCoord(old(characters)[from]), d)) || tile.Blocked? then WalkFail
        else if tile.Warps? then WalkWarped else WalkOK
      ensures r.WalkOK? ==>
        characters == old(characters)[from := characters[from]]
        && AsCoord(characters[from]) == Ahead(AsCoord(old(characters)[from]), d)
      ensures !r.WalkOK? ==> characters == old(characters) && known == old(known)
    {
      var ok, target := Target(characters[from], d);
      if !ok {
        return WalkFail;
      }
      if !InBounds(target) || tile.Blocked? {
        return WalkFail;
      }
      if tile.Warps? {
        return WalkWarped;
      }
      characters := characters[from := target];
      var newcoords, oldcoords := ViewEdges(AsCoord(target), d, seeDistance);
      var newchars, oldchars :=
        Classify(characters, seq(|characters|, _ => true), from, newcoords, oldcoords);
      var newnpcs, oldnpcs :=
        Classify(NpcPlaces(npcs), NpcsAlive(npcs), -1, newcoords, oldcoords);
      TellBoth(oldchars, from, false);
      TellBoth(newchars, from, true);
      TellWalker(newnpcs, from, true);
      TellWalker(oldnpcs, from, false);
      r := WalkOK;
      forall c | 0 <= c < |characters| ensures Knows(c) {
        assert old(Knows(c));
        var v, w, see := old(known)[c], known[c], seeDistance;
        if c != from {
          OtherWalked(v, w, c, old(characters), from, target, d, see);
        } else {
          assert old(Knows(from));
          forall o: nat | o < |characters| && o != from
            ensures o in w.characters <==> Turned(o in v.characters, old(characters)[o], target, d, see)
          {
          }
          SelfWalked(v, w, old(characters), npcs, from, target, d, see);
        }
      }
    }

    /** The walker and those in a list are told that the other has appeared or left. */
    method TellBoth(list: seq<nat>, from: nat, appears: bool)
      requires |known| == |characters| && from < |characters| && from !in list
      requires forall k: nat :: k in list ==> k < |characters|
      modifies `known
      ensures |known| == |characters|
      ensures forall c: nat :: c < |known| ==> known[c].npcs == old(known)[c].npcs
      ensures forall c: nat :: c < |known| ==>
        known[c].characters == Told(old(known)[c].characters, TellSet(c, from, list), appears)
    {
      for i := 0 to |list|
        invariant |known| == |characters|
        invariant forall c: nat :: c < |known| ==> known[c].npcs == old(known)[c].npcs
        invariant forall c: nat :: c < |known| ==>
          known[c].characters == Told(old(known)[c].characters, TellSet(c, from, list[..i]), appears)
      {
        var c := list[i];
        assert c in list && list[..i + 1] == list[..i] + [c];
        known := known[c := known[c].(characters := Told(known[c].characters, {from}, appears))];
        known := known[from := known[from].(characters := Told(known[from].characters, {c}, appears))];
      }
      assert list[..|list|] == list;
    }

    /** The walker is told that NPCs have appeared or left. */
    method TellWalker(list: seq<nat>, from: nat, appears: bool)
      requires |known| == |characters| && from < |characters|
      modifies `known
      ensures |known| == |characters|
      ensures forall c: nat :: c < |known| ==> known[c].characters == old(known)[c].characters
      ensures forall c: nat :: c < |known| && c != from ==> known[c].npcs == old(known)[c].npcs
      ensures forall n: nat :: n in known[from].npcs <==> if n in list then appears else n in old(known)[from].npcs
    {
      for i := 0 to |list|
        invariant |known| == |characters|
        invariant forall c: nat :: c < |known| ==> known[c].characters == old(known)[c].characters
        invariant forall c: nat :: c < |known| && c != from ==> known[c].npcs == old(known)[c].npcs
        invariant forall n: nat ::
          n in known[from].npcs <==> if n in list[..i] then appears else n in old(known)[from].npcs
      {
        var n, vf := list[i], known[from].npcs;
        assert list[..i + 1] == list[..i] + [n];
        known := known[from := known[from].(npcs := if appears then vf + {n} else vf - {n})];
      }
      assert list[..|list|] == list;
    }
  }

  function Apart(a: Place, b: Place): int {
    (if a.0 < b.0 then b.0 - a.0 else a.0 - b.0) + (if a.1 < b.1 then b.1 - a.1 else a.1 - b.1)
  }

  /** What a client knows, in coordinates: those whose two differences add up to no more than the see distance. */
  lemma KnownExactly(m: Map, c: nat, other: nat, npc: nat)
    requires m.Valid() && c < |m.characters|
    ensures other in m.known[c].characters <==>
      other < |m.characters| && other != c && Apart(m.characters[c], m.characters[other]) <= m.seeDistance
    ensures npc in m.known[c].npcs <==>
      npc < |m.npcs| && m.npcs[npc].alive && Apart(m.characters[c], m.npcs[npc].at) <= m.seeDistance
  {
    assert m.Knows(c);
  }

  // -- Runs ----------------------------------------------------------------------------

  datatype Walk = CharacterWalk(from: nat, d: Direction, tile: Tile) | NpcWalk(from: nat, d: Direction, tile: Tile)

  /** Where all are. */
  datatype Crowd = Crowd(characters: seq<Place>, npcs: seq<Npc>)

  /** Where somebody stands after a step that the map may refuse. */
  function Stepped(m: Map, at: Place, d: Direction, tile: Tile): Place {
    var q := Ahead(AsCoord(at), d);
    if m.OnMap(q) && tile.Passable? then (q.0, q.1) else at
  }

  function Walked(m: Map, c: Crowd, w: Walk): Crowd {
    match w
    case CharacterWalk(from, d, tile) =>
      if from >= |c.characters| then c
      else c.(characters := c.characters[from := Stepped(m, c.characters[from], d, tile)])
    case NpcWalk(from, d, tile) =>
      if from >= |c.npcs| || !c.npcs[from].alive then c
      else c.(npcs := c.npcs[from := Npc(Stepped(m, c.npcs[from].at, d, tile), true)])
  }

  function AllWalked(m: Map, c: Crowd, walks: seq<Walk>): Crowd {
    if walks == [] then c else Walked(m, AllWalked(m, c, walks[..|walks| - 1]), walks[|walks| - 1])
  }

  /** One walk of a run. */
  method Take(m: Map, w: Walk)
    requires m.Valid()
    modifies m
    ensures m.Valid() && Crowd(m.characters, m.npcs) == Walked(m, Crowd(old(m.characters), old(m.npcs)), w)
  {
    match w {
      case CharacterWalk(from, d, tile) =>
        if from < |m.characters| {
          var r := m.WalkCharacter(from, d, tile);
        }
      case NpcWalk(from, d, tile) =>
        if from < |m.npcs| && m.npcs[from].alive {
          var r := m.WalkNpc(from, d, tile);
        }
    }
  }

  /** Over any run of walks every client keeps knowing exactly what is within its sight of where the walks lead. */
  method Run(m: Map, walks: seq<Walk>)
    requires m.Valid()
    modifies m
    ensures m.Valid() && Crowd(m.characters, m.npcs) == AllWalked(m, Crowd(old(m.characters), old(m.npcs)), walks)
  {
    for i := 0 to |walks|
      invariant m.Valid()
      invariant Crowd(m.characters, m.npcs) == AllWalked(m, Crowd(old(m.characters), old(m.npcs)), walks[..i])
    {
      assert walks[..i + 1][..i] == walks[..i];
      Take(m, walks[i]);
    }
    assert walks[..|walks|] == walks;
  }
}
