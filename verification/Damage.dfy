/**
 The damage lists of NPCs and the back links of their attackers: NPC::Damage and what Killed, Die and the
 destructor do to the lists in src/npc.cpp, Character::Logout and Map::Unload.
 */
module Damage {
  datatype Opponent = Opponent(attacker: nat, damage: int)

  /** A destroyed NPC is kept as a record that does not exist, so that its number is not used again. */
  datatype Npc = Npc(present: bool, alive: bool, hp: int, totalDamage: int, list: seq<Opponent>)

  /** unregister is the character's list of NPCs that it has damaged. */
  datatype Character = Character(online: bool, unregister: seq<nat>)

  // -- Lists ----------------------------------------------------------------------------

  function Sum(list: seq<Opponent>): int {
    if list == [] then 0 else list[0].damage + Sum(list[1..])
  }

  function Listed(list: seq<Opponent>, c: nat): nat {
    if list == [] then 0 else (if list[0].attacker == c then 1 else 0) + Listed(list[1..], c)
  }

  function Count(l: seq<nat>, n: nat): nat {
    if l == [] then 0 else (if l[0] == n then 1 else 0) + Count(l[1..], n)
  }

  /** std::remove and erase. */
  function Without(l: seq<nat>, n: nat): seq<nat> {
    if l == [] then [] else (if l[0] == n then [] else [l[0]]) + Without(l[1..], n)
  }

  /** A hit is added to the entries of the attacker, if it adds anything. */
  function Hit(list: seq<Opponent>, c: nat, amount: int): seq<Opponent> {
    if list == [] then []
    else
      [if list[0].attacker == c && amount > 0 then list[0].(damage := list[0].damage + amount) else list[0]]
      + Hit(list[1..], c, amount)
  }

  /** The list without the first entry of c. */
  function Dropped(list: seq<Opponent>, c: nat): seq<Opponent> {
    if list == [] then [] else if list[0].attacker == c then list[1..] else [list[0]] + Dropped(list[1..], c)
  }

  function DamageBy(list: seq<Opponent>, c: nat): int {
    if list == [] then 0 else if list[0].attacker == c then list[0].damage else DamageBy(list[1..], c)
  }

  lemma {:induction false} CountPush(l: seq<nat>, m: nat, n: nat)
    ensures Count(l + [m], n) == Count(l, n) + if m == n then 1 else 0
  {
    if l != [] {
      assert (l + [m])[1..] == l[1..] + [m];
      CountPush(l[1..], m, n);
    }
  }

  lemma {:induction false} CountWithout(l: seq<nat>, m: nat, n: nat)
    ensures Count(Without(l, m), n) == if m == n then 0 else Count(l, n)
  {
    if l != [] {
      CountWithout(l[1..], m, n);
      var first := if l[0] == m then [] else [l[0]];
      assert first == [] ==> first + Without(l[1..], m) == Without(l[1..], m);
      assert first != [] ==> (first + Without(l[1..], m))[1..] == Without(l[1..], m);
    }
  }

  lemma {:induction false} HitCounts(list: seq<Opponent>, c: nat, amount: int, d: nat)
    ensures Listed(Hit(list, c, amount), d) == Listed(list, d)
    ensures Sum(Hit(list, c, amount)) == Sum(list) + if amount > 0 then amount * Listed(list, c) else 0
  {
    if list != [] {
      HitCounts(list[1..], c, amount, d);
      assert Hit(list, c, amount)[1..] == Hit(list[1..], c, amount);
    }
  }

  lemma {:induction false} JoinCounts(list: seq<Opponent>, o: Opponent, d: nat)
    ensures Listed(list + [o], d) == Listed(list, d) + if o.attacker == d then 1 else 0
    ensures Sum(list + [o]) == Sum(list) + o.damage
  {
    if list != [] {
      assert (list + [o])[1..] == list[1..] + [o];
      JoinCounts(list[1..], o, d);
    }
  }

  lemma {:induction false} DropCounts(list: seq<Opponent>, c: nat, d: nat)
    ensures Listed(Dropped(list, c), d) == Listed(list, d) - if c == d && Listed(list, c) > 0 then 1 else 0
    ensures Sum(Dropped(list, c)) == Sum(list) - DamageBy(list, c)
  {
    if list != [] && list[0].attacker != c {
      DropCounts(list[1..], c, d);
      assert Dropped(list, c)[1..] == Dropped(list[1..], c);
    }
  }

  lemma {:induction false} Attacks(list: seq<Opponent>, c: nat)
    ensures Listed(list, c) > 0 <==> exists o :: o in list && o.attacker == c
  {
    if list != [] {
      Attacks(list[1..], c);
      if list[0].attacker == c {
        assert list[0] in list;
      }
      assert forall o :: o in list <==> o == list[0] || o in list[1..];
    }
  }

  lemma {:induction false} HitNone(list: seq<Opponent>, c: nat, amount: int)
    requires Listed(list, c) == 0
    ensures Hit(list, c, amount) == list
  {
    if list != [] {
      HitNone(list[1..], c, amount);
    }
  }

  // -- One hit --------------------------------------------------------------------------

  datatype Strike = Strike(c: nat, amount: int, mortal: bool)

  /** The part of the damage that counts; mortal NPCs are the passive and the aggressive ones. */
  function Limit(npc: Npc, s: Strike): int {
    if npc.hp < s.amount then npc.hp else s.amount
  }

  function Struck(npc: Npc, s: Strike): Npc {
    var limit := Limit(npc, s);
    npc.(hp := if s.mortal then npc.hp - limit else 0,
         totalDamage := if limit > 0 then npc.totalDamage + limit else npc.totalDamage,
         list := if Listed(npc.list, s.c) > 0 then Hit(npc.list, s.c, limit) else npc.list + [Opponent(s.c, limit)])
  }

  predicate Balanced(npc: Npc) {
    npc.totalDamage == Sum(npc.list)
  }

  /** A hit keeps the total equal to the sum exactly when it is not a negative one of a new attacker. */
  lemma HitExactly(npc: Npc, s: Strike)
    requires Balanced(npc) && Listed(npc.list, s.c) <= 1
    ensures Balanced(Struck(npc, s)) <==> Limit(npc, s) >= 0 || Listed(npc.list, s.c) == 1
  {
    HitCounts(npc.list, s.c, Limit(npc, s), s.c);
    JoinCounts(npc.list, Opponent(s.c, Limit(npc, s)), s.c);
  }

  lemma {:induction false} HitBy(list: seq<Opponent>, c: nat, amount: int, d: nat)
    ensures DamageBy(Hit(list, c, amount), d) ==
      DamageBy(list, d) + if d == c && amount > 0 && Listed(list, c) > 0 then amount else 0
  {
    if list != [] {
      HitBy(list[1..], c, amount, d);
      assert Hit(list, c, amount)[1..] == Hit(list[1..], c, amount);
    }
  }

  lemma {:induction false} JoinBy(list: seq<Opponent>, o: Opponent, d: nat)
    ensures DamageBy(list + [o], d) ==
      if Listed(list, d) > 0 then DamageBy(list, d) else if o.attacker == d then o.damage else 0
  {
    if list != [] {
      assert (list + [o])[1..] == list[1..] + [o];
      JoinBy(list[1..], o, d);
    }
  }

  lemma {:induction false} NoDamageBy(list: seq<Opponent>, c: nat)
    requires Listed(list, c) == 0
    ensures DamageBy(list, c) == 0
  {
    if list != [] {
      NoDamageBy(list[1..], c);
    }
  }

  /** A hit kills a mortal NPC exactly if it is for all of its hp, and always kills another. */
  lemma KillsExactly(npc: Npc, s: Strike)
    ensures Struck(npc, s).hp <= 0 <==> !s.mortal || s.amount >= npc.hp
  {
  }

  /** What a mortal NPC loses is booked: in its total, and in the entry of the attacker alone. */
  lemma HitBooks(npc: Npc, s: Strike, d: nat)
    requires s.mortal && npc.hp >= 0 && s.amount >= 0
    ensures var lost := npc.hp - Struck(npc, s).hp;
      && lost == (if s.amount < npc.hp then s.amount else npc.hp)
      && Struck(npc, s).totalDamage == npc.totalDamage + lost
      && DamageBy(Struck(npc, s).list, d) == DamageBy(npc.list, d) + if d == s.c then lost else 0
  {
    var limit := Limit(npc, s);
    HitBy(npc.list, s.c, limit, d);
    JoinBy(npc.list, Opponent(s.c, limit), d);
    if Listed(npc.list, d) == 0 {
      NoDamageBy(npc.list, d);
    }
  }

  lemma {:induction false} WithoutAbsent(l: seq<nat>, n: nat)
    requires Count(l, n) == 0
    ensures Without(l, n) == l
  {
    if l != [] {
      WithoutAbsent(l[1..], n);
    }
  }

  lemma {:induction false} WithoutWithin(l: seq<nat>, n: nat)
    ensures forall x :: x in Without(l, n) ==> x in l
    ensures forall m: nat :: Count(Without(l, n), m) == if m == n then 0 else Count(l, m)
  {
    if l != [] {
      WithoutWithin(l[1..], n);
    }
    forall m: nat ensures Count(Without(l, n), m) == if m == n then 0 else Count(l, m) {
      CountWithout(l, n, m);
    }
  }

  // -- All NPCs and characters ----------------------------------------------------------

  /** The attackers of an NPC are distinct and online; an NPC that is gone has none. */
  ghost predicate Tidy(npc: Npc, characters: seq<Character>) {
    && npc.hp >= 0 && (!npc.present ==> npc.list == [])
    && (forall c: nat :: Listed(npc.list, c) <= 1)
    && (forall o :: o in npc.list ==> o.attacker < |characters| && characters[o.attacker].online)
  }

  /** A character's links are NPCs that have it in their list, each once. */
  ghost predicate Linked(c: nat, l: seq<nat>, npcs: seq<Npc>) {
    && (forall n :: 0 <= n < |npcs| ==> Count(l, n) == Listed(npcs[n].list, c))
    && (forall x :: x in l ==> x < |npcs|)
  }

  method AddHit(list: seq<Opponent>, c: nat, amount: int) returns (r: seq<Opponent>, found: bool)
    ensures r == Hit(list, c, amount) && found == (Listed(list, c) > 0)
  {
    r, found := [], false;
    for i := 0 to |list|
      invariant r + Hit(list[i..], c, amount) == Hit(list, c, amount)
      invariant (found || Listed(list[i..], c) > 0) == (Listed(list, c) > 0)
    {
      assert list[i..][1..] == list[i + 1..];
      var o := list[i];
      if o.attacker == c {
        found := true;
        if o.damage + amount > o.damage {
          o := o.(damage := o.damage + amount);
        }
      }
      assert r + ([o] + Hit(list[i + 1..], c, amount)) == r + [o] + Hit(list[i + 1..], c, amount);
      r := r + [o];
    }
  }

  method DropFirst(list: seq<Opponent>, c: nat) returns (r: seq<Opponent>, damage: int)
    ensures r == Dropped(list, c) && damage == DamageBy(list, c)
  {
    r, damage := list, 0;
    for i := 0 to |list|
      invariant Dropped(list, c) == list[..i] + Dropped(list[i..], c)
      invariant DamageBy(list, c) == DamageBy(list[i..], c) && r == list && damage == 0
    {
      assert list[i..][1..] == list[i + 1..];
      if list[i].attacker == c {
        return list[..i] + list[i + 1..], list[i].damage;
      }
      assert list[..i] + ([list[i]] + Dropped(list[i + 1..], c)) == list[..i + 1] + Dropped(list[i + 1..], c);
    }
    assert list[..|list|] + [] == list;
  }

  ghost predicate AllLinked(npcs: seq<Npc>, characters: seq<Character>) {
    && (forall n :: 0 <= n < |npcs| ==> Tidy(npcs[n], characters))
    && (forall c :: 0 <= c < |characters| ==> Linked(c, characters[c].unregister, npcs))
  }

  /** The NPC after it died, and after character c left. */
  function Dead(npc: Npc): Npc {
    npc.(alive := false, list := [], totalDamage := 0)
  }

  /** Those of the children that are alive die, one after another. */
  function AllDead(npcs: seq<Npc>, children: seq<nat>): (r: seq<Npc>)
    requires forall i :: 0 <= i < |children| ==> children[i] < |npcs|
    ensures |r| == |npcs|
  {
    if children == [] then npcs
    else
      var dead := AllDead(npcs, children[..|children| - 1]);
      var n := children[|children| - 1];
      if dead[n].alive then dead[n := Dead(dead[n])] else dead
  }

  lemma {:induction false} AllDeadAt(npcs: seq<Npc>, children: seq<nat>, n: nat)
    requires n < |npcs| && forall i :: 0 <= i < |children| ==> children[i] < |npcs|
    ensures AllDead(npcs, children)[n] == if n in children && npcs[n].alive then Dead(npcs[n]) else npcs[n]
  {
    if children != [] {
      var last := |children| - 1;
      AllDeadAt(npcs, children[..last], n);
      AllDeadAt(npcs, children[..last], children[last]);
      assert children == children[..last] + [children[last]];
    }
  }

  lemma OthersOrDead(npcs: seq<Npc>, children: seq<nat>)
    requires forall i :: 0 <= i < |children| ==> children[i] < |npcs|
    ensures var dead := AllDead(npcs, children);
      forall m :: 0 <= m < |dead| ==> dead[m] == npcs[m] || (npcs[m].alive && !dead[m].alive)
  {
    var dead := AllDead(npcs, children);
    forall m | 0 <= m < |dead| ensures dead[m] == npcs[m] || (npcs[m].alive && !dead[m].alive) {
      AllDeadAt(npcs, children, m);
    }
  }

  lemma AllDeadBalance(npcs: seq<Npc>, children: seq<nat>)
    requires forall i :: 0 <= i < |children| ==> children[i] < |npcs|
    requires forall m :: 0 <= m < |npcs| ==> Balanced(npcs[m])
    ensures var dead := AllDead(npcs, children); forall m :: 0 <= m < |dead| ==> Balanced(dead[m])
  {
    var dead := AllDead(npcs, children);
    forall m | 0 <= m < |dead| ensures Balanced(dead[m]) {
      AllDeadAt(npcs, children, m);
    }
  }

  function Left(npc: Npc, c: nat): Npc {
    if Listed(npc.list, c) > 0
    then npc.(list := Dropped(npc.list, c), totalDamage := npc.totalDamage - DamageBy(npc.list, c)) else npc
  }

  /** The links after a hit: a new attacker gets one. */
  function LinkedTo(characters: seq<Character>, c: nat, n: nat, npc: Npc): seq<Character>
    requires c < |characters|
  {
    if Listed(npc.list, c) > 0 then characters
    else characters[c := characters[c].(unregister := characters[c].unregister + [n])]
  }

  lemma {:induction false} HitWithin(list: seq<Opponent>, c: nat, amount: int)
    ensures forall o :: o in Hit(list, c, amount) ==> exists p :: p in list && p.attacker == o.attacker
  {
    if list != [] {
      HitWithin(list[1..], c, amount);
      forall o | o in Hit(list, c, amount) ensures exists p :: p in list && p.attacker == o.attacker {
        if o in Hit(list[1..], c, amount) {
          var p :| p in list[1..] && p.attacker == o.attacker;
          assert p in list;
        } else {
          assert list[0] in list;
        }
      }
    }
  }

  lemma StrikeTidy(npc: Npc, s: Strike, characters: seq<Character>)
    requires Tidy(npc, characters) && npc.present && s.c < |characters| && characters[s.c].online
    ensures Tidy(Struck(npc, s), characters)
    ensures forall d: nat :: Listed(Struck(npc, s).list, d) == if d == s.c then 1 else Listed(npc.list, d)
  {
    var limit := Limit(npc, s);
    forall d: nat ensures Listed(Struck(npc, s).list, d) == if d == s.c then 1 else Listed(npc.list, d) {
      HitCounts(npc.list, s.c, limit, d);
      JoinCounts(npc.list, Opponent(s.c, limit), d);
    }
    HitWithin(npc.list, s.c, limit);
  }

  lemma StrikeLinks(n: nat, s: Strike, npcs: seq<Npc>, characters: seq<Character>)
    requires AllLinked(npcs, characters) && n < |npcs| && npcs[n].present
    requires s.c < |characters| && characters[s.c].online
    ensures AllLinked(npcs[n := Struck(npcs[n], s)], LinkedTo(characters, s.c, n, npcs[n]))
  {
    var after, linked := npcs[n := Struck(npcs[n], s)], LinkedTo(characters, s.c, n, npcs[n]);
    StrikeTidy(npcs[n], s, characters);
    forall c | 0 <= c < |linked| ensures Linked(c, linked[c].unregister, after) {
      forall m | 0 <= m < |after| ensures Count(linked[c].unregister, m) == Listed(after[m].list, c) {
        CountPush(characters[c].unregister, n, m);
      }
    }
  }

  lemma {:induction false} CountSplit(l: seq<nat>, i: nat, n: nat)
    requires i <= |l|
    ensures Count(l, n) == Count(l[..i], n) + Count(l[i..], n)
  {
    if i > 0 {
      CountSplit(l[1..], i - 1, n);
      assert l[..i][1..] == l[1..][..i - 1] && l[1..][i - 1..] == l[i..];
    } else {
      assert l[i..] == l;
    }
  }

  lemma OnceOnly(l: seq<nat>, i: nat)
    requires i < |l| && Count(l, l[i]) <= 1
    ensures l[i] !in l[..i]
  {
    CountSplit(l, i, l[i]);
    NotCounted(l[..i], l[i]);
  }

  lemma {:induction false} DropWithin(list: seq<Opponent>, c: nat)
    ensures forall o :: o in Dropped(list, c) ==> o in list
    ensures Listed(list, c) <= 1 ==> forall o :: o in Dropped(list, c) ==> o.attacker != c
  {
    if list != [] {
      DropWithin(list[1..], c);
      forall o | o in list[1..] && list[0].attacker == c && Listed(list, c) <= 1 ensures o.attacker != c {
        Attacks(list[1..], c);
      }
    }
  }

  lemma LeaveTidy(npc: Npc, c: nat, characters: seq<Character>)
    requires Tidy(npc, characters) && c < |characters|
    ensures Tidy(Left(npc, c), characters[c := Character(false, [])])
    ensures Balanced(npc) ==> Balanced(Left(npc, c))
    ensures forall d: nat :: Listed(Left(npc, c).list, d) == if d == c then 0 else Listed(npc.list, d)
  {
    forall d: nat ensures Listed(Left(npc, c).list, d) == if d == c then 0 else Listed(npc.list, d) {
      DropCounts(npc.list, c, d);
    }
    assert Listed(npc.list, c) <= 1;
    DropCounts(npc.list, c, c);
    DropWithin(npc.list, c);
    Attacks(npc.list, c);
  }

  datatype Op =
    | DamageOp(n: nat, s: Strike, children: seq<nat>, temporary: bool)
    | DieOp(n: nat)
    | DestroyOp(n: nat)
    | LogoutOp(c: nat)
    | UnloadOp(ns: seq<nat>)

  /** Both callers of Damage pass an amount that is at least 0. */
  predicate Clamped(op: Op) {
    op.DamageOp? ==> op.s.amount >= 0
  }

  /** In the state that the links describe, the attackers and the back links are the same relation. */
  lemma LinksAgree(npcs: seq<Npc>, characters: seq<Character>, c: nat, n: nat)
    requires AllLinked(npcs, characters) && c < |characters| && n < |npcs|
    ensures (exists o :: o in npcs[n].list && o.attacker == c) <==> n in characters[c].unregister
    ensures Count(characters[c].unregister, n) <= 1 && Listed(npcs[n].list, c) <= 1
  {
    assert Tidy(npcs[n], characters) && Linked(c, characters[c].unregister, npcs);
    Attacks(npcs[n].list, c);
    NotCounted(characters[c].unregister, n);
  }

  /**
   An NPC that is alive and present at the end was so before and has not gained hp; and if nobody has logged out,
   its hp and its total damage together are what they were.
   */
  predicate Outlives(was: Npc, now: Npc, logout: bool) {
    now.alive && now.present ==>
      was.alive && was.present && now.hp <= was.hp && (!logout ==> now.hp + now.totalDamage == was.hp + was.totalDamage)
  }

  class Field {
    var npcs: seq<Npc>
    var characters: seq<Character>

    ghost predicate Links()
      reads this
    {
      AllLinked(npcs, characters)
    }

    ghost predicate Sums()
      reads this
    {
      forall n :: 0 <= n < |npcs| ==> Balanced(npcs[n])
    }

    constructor (npcs: seq<Npc>, characters: seq<Character>)
      requires forall n :: 0 <= n < |npcs| ==> npcs[n].hp >= 0 && npcs[n].list == [] && npcs[n].totalDamage == 0
      requires forall c :: 0 <= c < |characters| ==> characters[c].unregister == []
      ensures Links() && Sums() && this.npcs == npcs && this.characters == characters
    {
      this.npcs, this.characters := npcs, characters;
    }

    /** Taking the NPC out of every attacker's links and emptying its list. */
    method Clear(n: nat)
      requires Links() && n < |npcs|
      modifies this
      ensures Links() && |characters| == |old(characters)|
      ensures npcs == old(npcs)[n := old(npcs)[n].(list := [], totalDamage := 0)]
      ensures forall c :: 0 <= c < |characters| ==>
        characters[c] == old(characters)[c].(unregister := Without(old(characters)[c].unregister, n))
    {
      var list := npcs[n].list;
      ghost var was := characters;
      for i := 0 to |list|
        invariant npcs == old(npcs) && |characters| == |was|
        invariant forall c :: 0 <= c < |was| ==>
          characters[c] == was[c] || characters[c] == was[c].(unregister := Without(was[c].unregister, n))
        invariant forall j :: 0 <= j < i ==>
          characters[list[j].attacker].unregister == Without(was[list[j].attacker].unregister, n)
      {
        var c := list[i].attacker;
        assert list[i] in list;
        ghost var l := was[c].unregister;
        WithoutWithin(l, n);
        WithoutAbsent(Without(l, n), n);
        characters := characters[c := characters[c].(unregister := Without(characters[c].unregister, n))];
      }
      npcs := npcs[n := npcs[n].(list := [], totalDamage := 0)];
      forall c | 0 <= c < |was|
        ensures characters[c] == was[c].(unregister := Without(was[c].unregister, n))
        ensures Linked(c, characters[c].unregister, npcs)
      {
        Attacks(list, c);
        if Listed(list, c) == 0 {
          WithoutAbsent(was[c].unregister, n);
        }
        WithoutWithin(was[c].unregister, n);
      }
    }

    method Die(n: nat)
      requires Links() && n < |npcs|
      modifies this
      ensures Links() && |npcs| == |old(npcs)| && |characters| == |old(characters)|
      ensures npcs == if old(npcs)[n].alive then old(npcs)[n := Dead(old(npcs)[n])] else old(npcs)
      ensures forall c :: 0 <= c < |characters| ==> characters[c].online == old(characters)[c].online
    {
      if !npcs[n].alive {
        return;
      }
      npcs := npcs[n := npcs[n].(alive := false)];
      Clear(n);
    }

    /** The destructor. No link to the NPC is left. */
    method Destroy(n: nat)
      requires Links() && n < |npcs|
      modifies this
      ensures Links() && |characters| == |old(characters)|
      ensures npcs == old(npcs)[n := old(npcs)[n].(present := false, list := [], totalDamage := 0)]
      ensures forall c :: 0 <= c < |characters| ==> n !in characters[c].unregister
      ensures forall c :: 0 <= c < |characters| ==> characters[c].online == old(characters)[c].online
    {
      Clear(n);
      npcs := npcs[n := npcs[n].(present := false)];
      forall c | 0 <= c < |characters| ensures n !in characters[c].unregister {
        CountWithout(old(characters)[c].unregister, n, n);
        NotCounted(characters[c].unregister, n);
      }
    }

    /** The boss's living children die with it. */
    method DieAll(children: seq<nat>)
      requires Links() && forall i :: 0 <= i < |children| ==> children[i] < |npcs|
      modifies this
      ensures Links() && npcs == AllDead(old(npcs), children) && |characters| == |old(characters)|
      ensures forall c :: 0 <= c < |characters| ==> characters[c].online == old(characters)[c].online
    {
      for i := 0 to |children|
        invariant Links() && npcs == AllDead(old(npcs), children[..i]) && |characters| == |old(characters)|
        invariant forall c :: 0 <= c < |characters| ==> characters[c].online == old(characters)[c].online
      {
        assert children[..i + 1][..i] == children[..i];
        Die(children[i]);
      }
      assert children[..|children|] == children;
    }

    /** What Killed does to the lists, for the boss's living children and for a temporary NPC too. */
    method Killed(n: nat, children: seq<nat>, temporary: bool)
      requires Links() && n < |npcs| && forall i :: 0 <= i < |children| ==> children[i] < |npcs|
      modifies this
      ensures Links() && |npcs| == |old(npcs)| && |characters| == |old(characters)|
      ensures var dead := AllDead(old(npcs)[n := Dead(old(npcs)[n])], children);
        npcs == if temporary then dead[n := dead[n].(present := false)] else dead
      ensures npcs[n].list == [] && npcs[n].totalDamage == 0
      ensures forall c :: 0 <= c < |characters| ==> characters[c].online == old(characters)[c].online
    {
      npcs := npcs[n := npcs[n].(alive := false)];
      Clear(n);
      assert npcs == old(npcs)[n := Dead(old(npcs)[n])];
      AllDeadAt(npcs, children, n);
      DieAll(children);
      if temporary {
        Destroy(n);
      }
    }

    /** The part of Damage that comes before the answer: the hit is booked. */
    method Book(n: nat, s: Strike)
      requires Links() && n < |npcs| && npcs[n].present
      requires s.c < |characters| && characters[s.c].online
      modifies this
      ensures Links() && npcs == old(npcs)[n := Struck(old(npcs)[n], s)]
      ensures characters == LinkedTo(old(characters), s.c, n, old(npcs)[n])
    {
      var npc := npcs[n];
      var limit := if npc.hp < s.amount then npc.hp else s.amount;
      var hp := if s.mortal then npc.hp - limit else 0;
      var total := npc.totalDamage;
      if total + limit > total {
        total := total + limit;
      }
      var list, found := AddHit(npc.list, s.c, limit);
      if !found {
        HitNone(npc.list, s.c, limit);
        list := list + [Opponent(s.c, limit)];
      }
      npc := npc.(hp := hp, totalDamage := total, list := list);
      assert npc == Struck(npcs[n], s);
      StrikeLinks(n, s, npcs, characters);
      if !found {
        characters := characters[s.c := characters[s.c].(unregister := characters[s.c].unregister + [n])];
      }
      npcs := npcs[n := npc];
    }

    /** A hit of an online character on a present NPC. */
    method Damage(n: nat, s: Strike, children: seq<nat>, temporary: bool) returns (killed: bool)
      requires Links() && Sums() && n < |npcs| && npcs[n].present
      requires s.c < |characters| && characters[s.c].online
      requires forall i :: 0 <= i < |children| ==> children[i] < |npcs|
      modifies this
      ensures Links() && |npcs| == |old(npcs)| && |characters| == |old(characters)|
      ensures killed <==> !s.mortal || s.amount >= old(npcs)[n].hp
      ensures !killed ==> npcs == old(npcs)[n := Struck(old(npcs)[n], s)]
      ensures killed ==> !npcs[n].alive && npcs[n].list == [] && npcs[n].totalDamage == 0
      ensures killed ==> forall m :: 0 <= m < |npcs| && m != n ==> npcs[m] == old(npcs)[m] || !npcs[m].alive
      ensures Sums() <==> killed || Limit(old(npcs)[n], s) >= 0 || Listed(old(npcs)[n].list, s.c) == 1
      ensures forall c :: 0 <= c < |characters| ==> characters[c].online == old(characters)[c].online
    {
      assert Tidy(npcs[n], characters);
      HitExactly(npcs[n], s);
      KillsExactly(npcs[n], s);
      Book(n, s);
      killed := npcs[n].hp <= 0;
      if killed {
        AllDeadBalance(npcs[n := Dead(npcs[n])], children);
        OthersOrDead(npcs[n := Dead(npcs[n])], children);
        Killed(n, children, temporary);
      }
    }

    /** The destructive Logout: the character leaves every list that it is in. */
    method Logout(c: nat)
      requires Links() && Sums() && c < |characters|
      modifies this
      ensures Links() && Sums() && characters == old(characters)[c := Character(false, [])]
      ensures |npcs| == |old(npcs)|
      ensures forall n :: 0 <= n < |npcs| ==> npcs[n] == Left(old(npcs)[n], c) && Listed(npcs[n].list, c) == 0
    {
      ghost var was := npcs;
      var l := characters[c].unregister;
      for i := 0 to |l|
        invariant characters == old(characters) && |npcs| == |was|
        invariant forall n :: 0 <= n < |npcs| ==> npcs[n] == if n in l[..i] then Left(was[n], c) else was[n]
      {
        var n := l[i];
        assert n in l;
        NotCounted(l, n);
        OnceOnly(l, i);
        var list, damage := DropFirst(npcs[n].list, c);
        npcs := npcs[n := npcs[n].(list := list, totalDamage := npcs[n].totalDamage - damage)];
        assert l[..i + 1] == l[..i] + [n];
      }
      assert l[..|l|] == l;
      characters := characters[c := Character(false, [])];
      forall n | 0 <= n < |npcs|
        ensures npcs[n] == Left(was[n], c) && Tidy(npcs[n], characters) && Balanced(npcs[n])
        ensures forall d: nat :: Listed(npcs[n].list, d) == if d == c then 0 else Listed(was[n].list, d)
      {
        NotCounted(l, n);
        LeaveTidy(was[n], c, old(characters));
      }
    }

    /** Map::Unload destroys the NPCs of a map. */
    method Unload(ns: seq<nat>)
      requires Links() && Sums() && forall i :: 0 <= i < |ns| ==> ns[i] < |npcs|
      modifies this
      ensures Links() && Sums() && |npcs| == |old(npcs)| && |characters| == |old(characters)|
      ensures forall i :: 0 <= i < |ns| ==> !npcs[ns[i]].present
      ensures forall c, i :: 0 <= c < |characters| && 0 <= i < |ns| ==> ns[i] !in characters[c].unregister
      ensures forall n :: 0 <= n < |npcs| && n !in ns ==> npcs[n] == old(npcs)[n]
    {
      for i := 0 to |ns|
        invariant Links() && Sums() && |npcs| == |old(npcs)| && |characters| == |old(characters)|
        invariant forall j :: 0 <= j < i ==> !npcs[ns[j]].present
        invariant forall n :: 0 <= n < |npcs| && n !in ns[..i] ==> npcs[n] == old(npcs)[n]
      {
        Destroy(ns[i]);
      }
      assert ns[..|ns|] == ns;
      forall c, i | 0 <= c < |characters| && 0 <= i < |ns| ensures ns[i] !in characters[c].unregister {
        assert Linked(c, characters[c].unregister, npcs) && Tidy(npcs[ns[i]], characters);
        NotCounted(characters[c].unregister, ns[i]);
      }
    }

    /** The operation speaks of NPCs and characters that there are. */
    predicate Possible(op: Op)
      reads this
    {
      match op
      case DamageOp(n, s, children, _) =>
        && n < |npcs| && npcs[n].present && s.c < |characters| && characters[s.c].online
        && (forall i :: 0 <= i < |children| ==> children[i] < |npcs|)
      case DieOp(n) => n < |npcs|
      case DestroyOp(n) => n < |npcs|
      case LogoutOp(c) => c < |characters|
      case UnloadOp(ns) => forall i :: 0 <= i < |ns| ==> ns[i] < |npcs|
    }

    /**
     Every operation keeps all the totals, the lists and the back links; and an NPC that is alive afterwards has
     lost as many hp as its total has grown by, unless an attacker has logged out.
     */
    method Perform(op: Op)
      requires Links() && Sums() && Possible(op) && Clamped(op)
      modifies this
      ensures Links() && Sums() && |npcs| == |old(npcs)|
      ensures forall n :: 0 <= n < |npcs| ==> Outlives(old(npcs)[n], npcs[n], op.LogoutOp?)
    {
      match op {
        case DamageOp(n, s, children, temporary) =>
          assert Tidy(npcs[n], characters);
          if s.mortal {
            HitBooks(npcs[n], s, s.c);
          }
          var _ := Damage(n, s, children, temporary);
        case DieOp(n) => Die(n);
        case DestroyOp(n) => Destroy(n);
        case LogoutOp(c) => Logout(c);
        case UnloadOp(ns) => Unload(ns);
      }
    }

    /** Any run of the operations that the state allows. */
    method Run(ops: seq<Op>)
      requires Links() && Sums() && forall i :: 0 <= i < |ops| ==> Clamped(ops[i])
      modifies this
      ensures Links() && Sums() && |npcs| == |old(npcs)|
      ensures forall n :: 0 <= n < |npcs| ==> Outlives(old(npcs)[n], npcs[n], exists op :: op in ops && op.LogoutOp?)
    {
      for i := 0 to |ops|
        invariant Links() && Sums() && |npcs| == |old(npcs)|
        invariant forall n :: 0 <= n < |npcs| ==>
          Outlives(old(npcs)[n], npcs[n], exists op :: op in ops[..i] && op.LogoutOp?)
      {
        assert ops[..i + 1] == ops[..i] + [ops[i]];
        if Possible(ops[i]) {
          Perform(ops[i]);
        }
      }
    }
  }

  lemma {:induction false} NotCounted(l: seq<nat>, n: nat)
    ensures Count(l, n) == 0 <==> n !in l
  {
    if l != [] {
      NotCounted(l[1..], n);
    }
  }
}