/**
 Map chests: Map_Chest and map_spawn_chests of src/map.cpp, the inventory of src/character.cpp, and putting
 into and taking out of a chest as src/handlers/Chest.cpp does.
 */
module Chest {
  import opened Common

  datatype Item = Item(id: int, amount: int)

  /** slot 0 is an item that a player put in. */
  datatype ChestItem = ChestItem(id: int, amount: int, slot: int)

  datatype ChestSpawn = ChestSpawn(slot: int, item: Item, time: real, lastTaken: real)

  // -- Lists of items -------------------------------------------------------------------

  function Total(items: seq<ChestItem>, id: int): int {
    if items == [] then 0 else (if items[0].id == id then items[0].amount else 0) + Total(items[1..], id)
  }

  function Owned(items: seq<Item>, id: int): int {
    if items == [] then 0 else (if items[0].id == id then items[0].amount else 0) + Owned(items[1..], id)
  }

  /** The index of the first item of this id, or the length. */
  function FirstOf<T>(items: seq<T>, idOf: T -> int, id: int): (i: nat)
    ensures i <= |items| && (i < |items| ==> idOf(items[i]) == id)
    ensures forall j :: 0 <= j < i ==> idOf(items[j]) != id
  {
    if items == [] || idOf(items[0]) == id then 0 else 1 + FirstOf(items[1..], idOf, id)
  }

  function First(items: seq<ChestItem>, id: int): (i: nat)
    ensures i <= |items| && (i < |items| ==> items[i].id == id)
    ensures forall j :: 0 <= j < i ==> items[j].id != id
  {
    FirstOf(items, (item: ChestItem) => item.id, id)
  }

  function FirstOwned(items: seq<Item>, id: int): (i: nat)
    ensures i <= |items| && (i < |items| ==> items[i].id == id)
    ensures forall j :: 0 <= j < i ==> items[j].id != id
  {
    FirstOf(items, (item: Item) => item.id, id)
  }

  lemma {:induction false} TotalSplits(a: seq<ChestItem>, b: seq<ChestItem>, id: int)
    ensures Total(a + b, id) == Total(a, id) + Total(b, id)
  {
    if a == [] {
      assert a + b == b;
    } else {
      TotalSplits(a[1..], b, id);
      assert (a + b)[1..] == a[1..] + b;
    }
  }

  lemma {:induction false} OwnedSplits(a: seq<Item>, b: seq<Item>, id: int)
    ensures Owned(a + b, id) == Owned(a, id) + Owned(b, id)
  {
    if a == [] {
      assert a + b == b;
    } else {
      OwnedSplits(a[1..], b, id);
      assert (a + b)[1..] == a[1..] + b;
    }
  }

  /** Replacing one item by items of the same id changes the totals by the difference. */
  lemma TotalReplaces(items: seq<ChestItem>, i: nat, put: seq<ChestItem>, id: int)
    requires i < |items|
    ensures Total(items[..i] + put + items[i + 1..], id) ==
      Total(items, id) + Total(put, id) - if items[i].id == id then items[i].amount else 0
  {
    TotalSplits(items[..i] + put, items[i + 1..], id);
    TotalSplits(items[..i], put, id);
    TotalSplits(items[..i], items[i..], id);
    assert items == items[..i] + items[i..];
    TotalFirst(items, i, id);
  }

  lemma TotalFirst(items: seq<ChestItem>, i: nat, id: int)
    requires i < |items|
    ensures Total(items[i..], id) == Total(items[i + 1..], id) + if items[i].id == id then items[i].amount else 0
  {
    assert items[i..][1..] == items[i + 1..];
  }

  lemma OwnedReplaces(items: seq<Item>, i: nat, put: seq<Item>, id: int)
    requires i < |items|
    ensures Owned(items[..i] + put + items[i + 1..], id) ==
      Owned(items, id) + Owned(put, id) - if items[i].id == id then items[i].amount else 0
  {
    OwnedSplits(items[..i] + put, items[i + 1..], id);
    OwnedSplits(items[..i], put, id);
    OwnedSplits(items[..i], items[i..], id);
    assert items == items[..i] + items[i..] && items[i..][1..] == items[i + 1..];
  }

  // -- The chest ------------------------------------------------------------------------

  /** Amounts in range, and no two items in one spawn slot. */
  predicate Proper(items: seq<ChestItem>, maxChest: int) {
    && (forall i :: 0 <= i < |items| ==> 1 <= items[i].amount <= maxChest && items[i].slot >= 0)
    && (forall i, j :: 0 <= i < j < |items| && items[i].slot == items[j].slot ==> items[i].slot == 0)
  }

  function UserItems(items: seq<ChestItem>): nat {
    if items == [] then 0 else (if items[0].slot == 0 then 1 else 0) + UserItems(items[1..])
  }

  /** The spawns of a slot that was taken from now. */
  function Taken(spawns: seq<ChestSpawn>, slot: int, now: real): (r: seq<ChestSpawn>)
    ensures |r| == |spawns|
    ensures forall i :: 0 <= i < |r| ==>
      r[i] == if spawns[i].slot == slot then spawns[i].(lastTaken := now) else spawns[i]
  {
    if spawns == [] then []
    else [if spawns[0].slot == slot then spawns[0].(lastTaken := now) else spawns[0]] + Taken(spawns[1..], slot, now)
  }

  /** The spawns once the first item of this id has been reached into: the clock of its slot starts again. */
  function LeftSpawns(spawns: seq<ChestSpawn>, items: seq<ChestItem>, id: int, now: real): seq<ChestSpawn> {
    var i := First(items, id);
    if i == |items| || items[i].slot == 0 then spawns else Taken(spawns, items[i].slot, now)
  }

  predicate SlotUsed(items: seq<ChestItem>, slot: int) {
    exists item :: item in items && item.slot == slot
  }

  /** A spawn whose time has come and whose slot is empty. */
  predicate Due(items: seq<ChestItem>, s: ChestSpawn, now: real) {
    s.lastTaken + s.time * 60.0 < now && !SlotUsed(items, s.slot)
  }

  /** The due spawns of a slot, in their order. */
  function DueOf(spawns: seq<ChestSpawn>, items: seq<ChestItem>, slot: int, now: real): seq<ChestSpawn> {
    if spawns == [] then []
    else
      var n := |spawns| - 1;
      var s := spawns[n];
      DueOf(spawns[..n], items, slot, now) + (if s.slot == slot && Due(items, s, now) then [s] else [])
  }

  lemma {:induction false} DueHolds(spawns: seq<ChestSpawn>, items: seq<ChestItem>, slot: int, now: real)
    ensures forall s :: s in DueOf(spawns, items, slot, now) <==> s in spawns && s.slot == slot && Due(items, s, now)
  {
    if spawns != [] {
      var n := |spawns| - 1;
      DueHolds(spawns[..n], items, slot, now);
      assert spawns == spawns[..n] + [spawns[n]];
    }
  }

  /** Due is a spawn whose minutes have passed since its slot was emptied, and whose slot is empty. */
  lemma DueExactly(spawns: seq<ChestSpawn>, items: seq<ChestItem>, slot: int, now: real, s: ChestSpawn)
    ensures s in DueOf(spawns, items, slot, now) <==>
      && s in spawns && s.slot == slot && s.lastTaken + s.time * 60.0 < now
      && forall item :: item in items ==> item.slot != slot
  {
    DueHolds(spawns, items, slot, now);
  }

  lemma StillEmpty(brought: seq<ChestItem>, items: seq<ChestItem>, slot: int)
    requires !SlotUsed(items, slot) && forall item :: item in brought ==> item.slot < slot
    ensures !SlotUsed(brought + items, slot)
  {
  }

  /** A random choice. */
  function Pick(list: seq<ChestSpawn>, n: nat): (s: ChestSpawn)
    requires list != []
    ensures s in list
  {
    list[n % |list|]
  }

  class MapChest {
    const maxChest: int
    const chestSlots: int
    const slots: nat
    var items: seq<ChestItem>
    var spawns: seq<ChestSpawn>

    ghost predicate Valid()
      reads this
    {
      && |items| <= chestSlots && Proper(items, maxChest)
      && forall i :: 0 <= i < |spawns| ==> 1 <= spawns[i].slot <= slots
    }

    constructor (maxChest: int, chestSlots: int, slots: nat, spawns: seq<ChestSpawn>)
      requires chestSlots >= 0 && forall i :: 0 <= i < |spawns| ==> 1 <= spawns[i].slot <= slots
      ensures Valid() && items == []
      ensures this.maxChest == maxChest && this.chestSlots == chestSlots && this.slots == slots
    {
      this.maxChest, this.chestSlots, this.slots, this.items, this.spawns := maxChest, chestSlots, slots, [], spawns;
    }

    /** HasItem: the amount of the first item of this id. */
    method HasItem(id: int) returns (amount: int)
      requires Valid()
      ensures var i := First(items, id); amount == if i < |items| then items[i].amount else 0
    {
      var i := Find(id);
      amount := if i < |items| then items[i].amount else 0;
    }

    method Find(id: int) returns (i: nat)
      ensures i == First(items, id)
    {
      i := 0;
      while i < |items| && items[i].id != id
        invariant i <= |items| && forall j :: 0 <= j < i ==> items[j].id != id
      {
        i := i + 1;
      }
    }

    method CountUserItems() returns (n: nat)
      ensures n == UserItems(items)
    {
      n := 0;
      for i := 0 to |items|
        invariant n + UserItems(items[i..]) == UserItems(items)
      {
        assert items[i..][1..] == items[i + 1..];
        if items[i].slot == 0 {
          n := n + 1;
        }
      }
    }

    /** When an item is accepted: it joins one of its id, or there is room for one more. */
    predicate Accepts(id: int, amount: int, slot: int)
      reads this
    {
      && amount > 0
      && (if slot == 0 && First(items, id) < |items| then items[First(items, id)].amount + amount <= maxChest
          else |items| < chestSlots && amount <= maxChest && (slot == 0 ==> UserItems(items) + slots < chestSlots))
    }

    method AddItem(id: int, amount: int, slot: int) returns (r: int)
      requires Valid() && slot >= 0 && (slot > 0 ==> forall i :: 0 <= i < |items| ==> items[i].slot != slot)
      modifies this`items
      ensures Valid() && r == if old(Accepts(id, amount, slot)) then amount else 0
      ensures r == 0 ==> items == old(items)
      ensures r != 0 ==> var i := First(old(items), id);
        items == if slot > 0 then [ChestItem(id, amount, slot)] + old(items)
          else if i < |old(items)| then old(items)[i := old(items)[i].(amount := old(items)[i].amount + amount)]
          else old(items) + [ChestItem(id, amount, slot)]
    {
      if amount <= 0 {
        return 0;
      }
      if slot == 0 {
        var i := Find(id);
        if i < |items| {
          if items[i].amount + amount < 0 || items[i].amount + amount > maxChest {
            return 0;
          }
          items := items[i := items[i].(amount := items[i].amount + amount)];
          return amount;
        }
      }
      r := AddNew(id, amount, slot);
    }

    /** An item of its own: one of a spawn goes to the front, one of a player to the back. */
    method AddNew(id: int, amount: int, slot: int) returns (r: int)
      requires Valid() && amount > 0 && slot >= 0
      requires slot > 0 ==> forall i :: 0 <= i < |items| ==> items[i].slot != slot
      modifies this`items
      ensures Valid() && (r == amount || (r == 0 && items == old(items)))
      ensures r == amount <==>
        |old(items)| < chestSlots && amount <= maxChest && (slot == 0 ==> UserItems(old(items)) + slots < chestSlots)
      ensures r != 0 ==>
        var item := ChestItem(id, amount, slot); items == if slot > 0 then [item] + old(items) else old(items) + [item]
    {
      if |items| >= chestSlots || amount > maxChest {
        return 0;
      }
      if slot == 0 {
        var userItems := CountUserItems();
        if userItems + slots >= chestSlots {
          return 0;
        }
        items := items + [ChestItem(id, amount, slot)];
      } else {
        items := [ChestItem(id, amount, slot)] + items;
      }
      r := amount;
    }

    method MarkTaken(slot: int, now: real)
      modifies this`spawns
      ensures spawns == if slot == 0 then old(spawns) else Taken(old(spawns), slot, now)
    {
      if slot != 0 {
        for i := 0 to |spawns|
          invariant |spawns| == |old(spawns)|
          invariant forall j :: 0 <= j < |spawns| ==>
            spawns[j] ==
              if j < i && old(spawns)[j].slot == slot then old(spawns)[j].(lastTaken := now) else old(spawns)[j]
        {
          if spawns[i].slot == slot {
            spawns := spawns[i := spawns[i].(lastTaken := now)];
          }
        }
        assert spawns == Taken(old(spawns), slot, now);
      }
    }

    method DelItem(id: int, now: real) returns (r: int)
      requires Valid()
      modifies this`items, this`spawns
      ensures Valid()
      ensures var i := First(old(items), id);
        if i < |old(items)| then items == old(items)[..i] + old(items)[i + 1..] && r == old(items)[i].amount
        else items == old(items) && r == 0
      ensures spawns == LeftSpawns(old(spawns), old(items), id, now)
    {
      var i := Find(id);
      r := 0;
      if i < |items| {
        r := items[i].amount;
        MarkTaken(items[i].slot, now);
        items := items[..i] + items[i + 1..];
      }
    }

    /** Taking some of the first item of this id; what a spawn brought stops filling its slot. */
    method DelSomeItem(id: int, amount: int, now: real) returns (r: int)
      requires Valid() && amount > 0
      modifies this`items, this`spawns
      ensures Valid()
      ensures var i := First(old(items), id);
        if i == |old(items)| then items == old(items) && r == 0
        else if amount < old(items)[i].amount
        then
          && items == old(items)[..i] + [ChestItem(id, old(items)[i].amount - amount, 0)] + old(items)[i + 1..]
          && r == old(items)[i].amount - amount
        else items == old(items)[..i] + old(items)[i + 1..] && r == old(items)[i].amount
      ensures spawns == LeftSpawns(old(spawns), old(items), id, now)
    {
      var i := Find(id);
      r := 0;
      if i < |items| {
        if amount < items[i].amount {
          MarkTaken(items[i].slot, now);
          items := items[i := ChestItem(id, items[i].amount - amount, 0)];
          assert items == old(items)[..i] + [items[i]] + old(items)[i + 1..];
          r := items[i].amount;
        } else {
          r := DelItem(id, now);
        }
      }
    }

    // -- Respawning ---------------------------------------------------------------------

    method IsUsed(slot: int) returns (used: bool)
      ensures used == SlotUsed(items, slot)
    {
      used := false;
      for i := 0 to |items|
        invariant used == exists item :: item in items[..i] && item.slot == slot
      {
        assert items[..i + 1] == items[..i] + [items[i]];
        if items[i].slot == slot {
          used := true;
        }
      }
      assert items[..|items|] == items;
    }

    /** The due spawns of each slot. */
    method CollectDue(now: real) returns (due: seq<seq<ChestSpawn>>)
      requires Valid()
      ensures |due| == slots && forall k :: 0 <= k < slots ==> due[k] == DueOf(spawns, items, k + 1, now)
    {
      due := seq(slots, _ => []);
      for n := 0 to |spawns|
        invariant |due| == slots && forall k :: 0 <= k < slots ==> due[k] == DueOf(spawns[..n], items, k + 1, now)
      {
        var s := spawns[n];
        assert spawns[..n + 1][..n] == spawns[..n];
        if s.lastTaken + s.time * 60.0 < now {
          var used := IsUsed(s.slot);
          if !used {
            due := due[s.slot - 1 := due[s.slot - 1] + [s]];
          }
        }
      }
      assert spawns[..|spawns|] == spawns;
    }

    /** A new item is what a due spawn of its slot brings. */
    ghost predicate Brought(item: ChestItem, due: seq<ChestSpawn>) {
      1 <= item.slot <= slots && exists s :: s in due && s.item == Item(item.id, item.amount)
    }

    /** The slot is filled, unless the chest is full or the amount of its spawn out of range. */
    predicate Served(items: seq<ChestItem>, slot: int, s: ChestSpawn) {
      SlotUsed(items, slot) || |items| >= chestSlots || !(1 <= s.item.amount <= maxChest)
    }

    method Bring(s: ChestSpawn) returns (ghost item: seq<ChestItem>)
      requires Valid() && s.slot > 0 && !SlotUsed(items, s.slot)
      modifies this`items
      ensures Valid() && items == item + old(items) && Served(items, s.slot, s)
      ensures item == [] || item == [ChestItem(s.item.id, s.item.amount, s.slot)]
      ensures forall slot, t :: Served(old(items), slot, t) ==> Served(items, slot, t)
    {
      forall i | 0 <= i < |items| ensures items[i].slot != s.slot {
        assert items[i] in items;
      }
      var r := AddItem(s.item.id, s.item.amount, s.slot);
      item := [];
      if r != 0 {
        item := [ChestItem(s.item.id, s.item.amount, s.slot)];
        assert items[0] in items;
      } else {
        assert [] + items == items;
      }
    }

    /** One timer call, which brings one spawn for each slot that has any due; picks are the random numbers. */
    method Respawn(now: real, picks: seq<nat>) returns (ghost brought: seq<ChestItem>)
      requires Valid() && |picks| == slots
      modifies this`items
      ensures Valid() && items == brought + old(items)
      ensures forall item :: item in brought ==> Brought(item, DueOf(spawns, old(items), item.slot, now))
      ensures forall k :: 0 <= k < slots ==> var due := DueOf(spawns, old(items), k + 1, now);
        due != [] ==> Served(items, k + 1, Pick(due, picks[k]))
    {
      var due := CollectDue(now);
      brought := [];
      assert brought + items == items;
      for k := 0 to slots
        invariant Valid() && items == brought + old(items)
        invariant forall item :: item in brought ==>
          item.slot <= k && Brought(item, DueOf(spawns, old(items), item.slot, now))
        invariant forall j :: 0 <= j < k && due[j] != [] ==> Served(items, j + 1, Pick(due[j], picks[j]))
      {
        if due[k] != [] {
          var s := Pick(due[k], picks[k]);
          DueHolds(spawns, old(items), k + 1, now);
          StillEmpty(brought, old(items), s.slot);
          ghost var item := Bring(s);
          Regroup(item, brought, old(items));
          brought := item + brought;
        }
      }
    }
  }

  // -- The inventory --------------------------------------------------------------------

  function Max(a: int, b: int): int {
    if a < b then b else a
  }

  /** The inventory after DelItem. */
  function Less(inventory: seq<Item>, i: nat, amount: int): seq<Item>
    requires i < |inventory|
  {
    var left := inventory[i].amount - amount;
    var rest := if inventory[i].amount < 0 || left <= 0 then [] else [Item(inventory[i].id, left)];
    inventory[..i] + rest + inventory[i + 1..]
  }

  /** The inventory after AddItem. */
  function More(inventory: seq<Item>, id: int, amount: int, maxItem: int): seq<Item> {
    var i := FirstOwned(inventory, id);
    if i == |inventory| then inventory + [Item(id, amount)]
    else inventory[..i] + [Item(id, Min(inventory[i].amount + amount, maxItem))] + inventory[i + 1..]
  }

  class Character {
    const maxItem: int
    const idLimit: int       // one more than the largest item number
    var inventory: seq<Item>
    var trading: bool
    var tradeInventory: seq<Item>

    /** Offers are never negative. */
    predicate Offers()
      reads this
    {
      forall i :: 0 <= i < |tradeInventory| ==> tradeInventory[i].amount > 0
    }

    method Find(list: seq<Item>, id: int) returns (i: nat)
      ensures i == FirstOwned(list, id)
    {
      i := 0;
      while i < |list| && list[i].id != id
        invariant i <= |list| && forall j :: 0 <= j < i ==> list[j].id != id
      {
        i := i + 1;
      }
    }

    /** What is held, less what is offered in a trade. */
    function Available(id: int): int
      reads this
    {
      var i, j := FirstOwned(inventory, id), FirstOwned(tradeInventory, id);
      if i == |inventory| then 0
      else if trading && j < |tradeInventory| then Max(inventory[i].amount - tradeInventory[j].amount, 0)
      else inventory[i].amount
    }

    method HasItem(id: int) returns (amount: int)
      ensures amount == Available(id)
    {
      var i := Find(inventory, id);
      if i == |inventory| {
        return 0;
      }
      amount := inventory[i].amount;
      if trading {
        var j := Find(tradeInventory, id);
        if j < |tradeInventory| {
          amount := Max(amount - tradeInventory[j].amount, 0);
        }
      }
    }

    predicate KnownItem(id: int) {
      0 < id < idLimit
    }

    method AddItem(id: int, amount: int) returns (ok: bool)
      modifies this`inventory
      ensures var i := FirstOwned(old(inventory), id);
        ok == (amount > 0 && KnownItem(id) && (i < |old(inventory)| ==> old(inventory)[i].amount + amount >= 0))
      ensures !ok ==> inventory == old(inventory)
      ensures ok ==> inventory == More(old(inventory), id, amount, maxItem)
    {
      if amount <= 0 || id <= 0 || id >= idLimit {
        return false;
      }
      var i := Find(inventory, id);
      if i < |inventory| {
        if inventory[i].amount + amount < 0 {
          return false;
        }
        inventory := inventory[i := inventory[i].(amount := inventory[i].amount + amount)];
        inventory := inventory[i := inventory[i].(amount := Min(inventory[i].amount, maxItem))];
        return true;
      }
      inventory := inventory + [Item(id, amount)];
      ok := true;
    }

    method DelItem(id: int, amount: int) returns (ok: bool)
      modifies this`inventory
      ensures var i := FirstOwned(old(inventory), id);
        ok == (amount > 0 && i < |old(inventory)|)
      ensures !ok ==> inventory == old(inventory)
      ensures ok ==> inventory == Less(old(inventory), FirstOwned(old(inventory), id), amount)
    {
      if amount <= 0 {
        return false;
      }
      var i := Find(inventory, id);
      if i == |inventory| {
        return false;
      }
      if inventory[i].amount < 0 || inventory[i].amount - amount <= 0 {
        inventory := inventory[..i] + inventory[i + 1..];
      } else {
        inventory := inventory[i := inventory[i].(amount := inventory[i].amount - amount)];
      }
      ok := true;
    }
  }

  /** What limits a character; enforced is whether weights count for it, and an unknown item weighs 0. */
  datatype Burden = Burden(enforced: bool, weight: int, maxWeight: int, itemWeight: nat)

  function CanHold(b: Burden, most: int, maxItem: int): int {
    var n := if !b.enforced then most
      else if b.weight > b.maxWeight then 0
      else if b.itemWeight == 0 then most
      else Min((b.maxWeight - b.weight) / b.itemWeight, most);
    Min(n, maxItem)
  }

  /** What can be held is the greatest amount within the stock, the cap on one item and the weight limit. */
  lemma CanHoldExactly(b: Burden, most: int, maxItem: int, n: nat)
    requires n > 0
    ensures n <= CanHold(b, most, maxItem) <==>
      n <= most && n <= maxItem && (b.enforced ==> b.weight + n * b.itemWeight <= b.maxWeight)
  {
    if b.enforced && b.weight <= b.maxWeight && b.itemWeight > 0 {
      FitsExactly(n, b.itemWeight, b.maxWeight - b.weight);
    }
  }

  lemma FitsExactly(n: nat, weight: nat, room: nat)
    requires weight > 0
    ensures n * weight <= room <==> n <= room / weight
  {
    if n <= room / weight {
      assert n * weight <= (room / weight) * weight <= room;
    } else {
      assert n * weight >= (room / weight + 1) * weight > room;
    }
  }

  /** What is carried off never overloads. */
  lemma NeverOverloaded(b: Burden, most: int, maxItem: int)
    requires CanHold(b, most, maxItem) > 0 && b.enforced
    ensures b.weight + CanHold(b, most, maxItem) * b.itemWeight <= b.maxWeight
  {
    if b.itemWeight > 0 {
      var room, n := b.maxWeight - b.weight, CanHold(b, most, maxItem);
      assert n * b.itemWeight <= (room / b.itemWeight) * b.itemWeight <= room;
    }
  }

  // -- The handlers ---------------------------------------------------------------------

  lemma JoinsTotal(items: seq<ChestItem>, id: int, amount: int, k: int)
    ensures var i := First(items, id);
      Total(if i < |items| then items[i := items[i].(amount := items[i].amount + amount)]
            else items + [ChestItem(id, amount, 0)], k) == Total(items, k) + if k == id then amount else 0
  {
    var i := First(items, id);
    if i < |items| {
      var item := items[i].(amount := items[i].amount + amount);
      TotalReplaces(items, i, [item], k);
      assert items[i := item] == items[..i] + [item] + items[i + 1..];
    } else {
      TotalSplits(items, [ChestItem(id, amount, 0)], k);
    }
  }

  lemma LeavesOwned(inventory: seq<Item>, i: nat, amount: int, k: int)
    requires i < |inventory| && inventory[i].amount >= amount > 0
    ensures Owned(Less(inventory, i, amount), k) == Owned(inventory, k) - if k == inventory[i].id then amount else 0
  {
    var left := inventory[i].amount - amount;
    OwnedReplaces(inventory, i, if left <= 0 then [] else [Item(inventory[i].id, left)], k);
  }

  /** Putting an item into a chest: nothing is lost or made, whatever is asked for. */
  method ChestAdd(character: Character, chest: MapChest, id: int, asked: int, maxChest: int) returns (moved: int)
    requires chest.Valid() && character.Offers()
    modifies character`inventory, chest`items
    ensures chest.Valid()
    ensures var amount := Min(asked, maxChest - (var i := First(old(chest.items), id);
        if i < |old(chest.items)| then old(chest.items)[i].amount else 0));
      moved == if old(character.Available(id)) >= amount && old(chest.Accepts(id, amount, 0)) then amount else 0
    ensures moved == 0 ==> chest.items == old(chest.items) && character.inventory == old(character.inventory)
    ensures forall k :: Total(chest.items, k) == old(Total(chest.items, k)) + if k == id then moved else 0
    ensures forall k ::
      Owned(character.inventory, k) == old(Owned(character.inventory, k)) - if k == id then moved else 0
  {
    var inChest := chest.HasItem(id);
    var amount := Min(asked, maxChest - inChest);
    var held := character.HasItem(id);
    moved := 0;
    if held >= amount {
      ghost var items, inventory := chest.items, character.inventory;
      moved := chest.AddItem(id, amount, 0);
      if moved != 0 {
        var _ := character.DelItem(id, amount);
        forall k
          ensures Total(chest.items, k) == Total(items, k) + if k == id then moved else 0
          ensures Owned(character.inventory, k) == Owned(inventory, k) - if k == id then moved else 0
        {
          JoinsTotal(items, id, amount, k);
          LeavesOwned(inventory, FirstOwned(inventory, id), amount, k);
        }
      }
    }
  }

  /** Whether the inventory takes all of what is taken: a known item, and the cap on one item is not passed. */
  predicate Keeps(inventory: seq<Item>, known: bool, id: int, taken: int, maxItem: int) {
    var i := FirstOwned(inventory, id);
    known && (i < |inventory| ==> 0 <= inventory[i].amount + taken <= maxItem)
  }

  lemma GainsExactly(inventory: seq<Item>, id: int, taken: int, maxItem: int, k: int)
    ensures var i := FirstOwned(inventory, id);
      Owned(More(inventory, id, taken, maxItem), k) == Owned(inventory, k)
        + (if k != id then 0 else if i == |inventory| then taken
           else Min(inventory[i].amount + taken, maxItem) - inventory[i].amount)
  {
    var i := FirstOwned(inventory, id);
    if i == |inventory| {
      OwnedSplits(inventory, [Item(id, taken)], k);
    } else {
      OwnedReplaces(inventory, i, [Item(id, Min(inventory[i].amount + taken, maxItem))], k);
    }
  }

  lemma TakesTotal(items: seq<ChestItem>, i: nat, put: seq<ChestItem>, taken: int, k: int)
    requires i < |items| && 0 < taken <= items[i].amount
    requires put == if taken < items[i].amount then [ChestItem(items[i].id, items[i].amount - taken, 0)] else []
    ensures Total(items[..i] + put + items[i + 1..], k) == Total(items, k) - if k == items[i].id then taken else 0
  {
    TotalReplaces(items, i, put, k);
  }

  lemma TakesAll(items: seq<ChestItem>, i: nat, after: seq<ChestItem>, taken: int)
    requires i < |items| && 0 < taken <= items[i].amount
    requires after ==
      if taken < items[i].amount
      then items[..i] + [ChestItem(items[i].id, items[i].amount - taken, 0)] + items[i + 1..]
      else items[..i] + items[i + 1..]
    ensures forall k :: Total(after, k) == Total(items, k) - if k == items[i].id then taken else 0
  {
    var put := if taken < items[i].amount then [ChestItem(items[i].id, items[i].amount - taken, 0)] else [];
    assert items[..i] + [] == items[..i];
    forall k ensures Total(after, k) == Total(items, k) - if k == items[i].id then taken else 0 {
      TakesTotal(items, i, put, taken, k);
    }
  }

  lemma GainsAll(inventory: seq<Item>, id: int, taken: int, maxItem: int)
    ensures var i, more := FirstOwned(inventory, id), More(inventory, id, taken, maxItem);
      && (forall k :: k != id ==> Owned(more, k) == Owned(inventory, k))
      && (Owned(more, id) == Owned(inventory, id) + taken <==>
        i == |inventory| || inventory[i].amount + taken <= maxItem)
  {
    forall k | k != id ensures Owned(More(inventory, id, taken, maxItem), k) == Owned(inventory, k) {
      GainsExactly(inventory, id, taken, maxItem, k);
    }
    GainsExactly(inventory, id, taken, maxItem, id);
  }

  /** Taking from a chest: what is taken leaves it, and nothing is lost exactly when the inventory takes it all. */
  method ChestTake(character: Character, chest: MapChest, id: int, burden: Burden, now: real) returns (taken: int)
    requires chest.Valid()
    modifies character`inventory, chest`items, chest`spawns
    ensures chest.Valid()
    ensures var i := First(old(chest.items), id);
      var held := if i < |old(chest.items)| then old(chest.items)[i].amount else 0;
      taken == Max(CanHold(burden, held, character.maxItem), 0)
    ensures forall k :: Total(chest.items, k) == old(Total(chest.items, k)) - if k == id then taken else 0
    ensures forall k :: k != id ==> Owned(character.inventory, k) == old(Owned(character.inventory, k))
    ensures Owned(character.inventory, id) == old(Owned(character.inventory, id)) + taken <==>
      taken == 0 || Keeps(old(character.inventory), character.KnownItem(id), id, taken, character.maxItem)
  {
    var amount := chest.HasItem(id);
    taken := CanHold(burden, amount, character.maxItem);
    if taken <= 0 {
      return 0;
    }
    ghost var items, inventory := chest.items, character.inventory;
    ghost var i := First(items, id);
    var _ := chest.DelSomeItem(id, taken, now);
    var ok := character.AddItem(id, taken);
    TakesAll(items, i, chest.items, taken);
    GainsAll(inventory, id, taken, character.maxItem);
  }
}
