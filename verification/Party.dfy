/** Sharing experience in a party: Party::ShareEXP of src/party.cpp. */
module Party {
  /** eligible: able to fight, on the map of the kill, and somewhere. */
  datatype Member = Member(eligible: bool, level: nat, exp: int)

  datatype Share = Equal | ByLevel | Other

  /** std::ceil of a quotient, exactly; the divisor is positive wherever it matters. */
  function Ceil(a: int, b: int): int {
    if b > 0 then -(-a / b) else 0
  }

  function Weight(m: Member, mode: Share): nat {
    if !m.eligible || mode.Other? then 0 else if mode.Equal? || m.level == 0 then 1 else m.level
  }

  function Weights(ms: seq<Member>, mode: Share): nat {
    if ms == [] then 0 else Weights(ms[..|ms| - 1], mode) + Weight(ms[|ms| - 1], mode)
  }

  function Eligible(ms: seq<Member>): nat {
    if ms == [] then 0 else Eligible(ms[..|ms| - 1]) + if ms[|ms| - 1].eligible then 1 else 0
  }

  function Reward(m: Member, mode: Share, exp: int, total: int): int {
    if m.eligible && !mode.Other? then Ceil(exp * Weight(m, mode), total) else 0
  }

  /** The experience given to the first members of a party. */
  function Given(ms: seq<Member>, mode: Share, exp: int, total: int): int {
    if ms == [] then 0
    else Given(ms[..|ms| - 1], mode, exp, total) + Reward(ms[|ms| - 1], mode, exp, total)
  }

  lemma CeilBounds(a: int, b: int)
    requires b > 0
    ensures a <= b * Ceil(a, b) <= a + b - 1
  {
    assert -a == b * (-a / b) + -a % b;
  }

  lemma {:induction false} Positive(ms: seq<Member>, mode: Share)
    requires !mode.Other?
    ensures Weights(ms, mode) >= Eligible(ms)
  {
    if ms != [] {
      Positive(ms[..|ms| - 1], mode);
    }
  }

  lemma Distribute(a: int, b: int, c: int)
    ensures a * (b + c) == a * b + a * c
  {
  }

  /** One more share: sums of bounds are bounds of sums. */
  lemma OneMore(exp: int, total: int, w: int, g: int, k: int, v: int, r: int)
    requires exp * w <= total * g <= exp * w + (total - 1) * k
    requires exp * v <= total * r <= exp * v + (total - 1)
    ensures exp * (w + v) <= total * (g + r) <= exp * (w + v) + (total - 1) * (k + 1)
  {
    Distribute(exp, w, v);
    Distribute(total, g, r);
    Distribute(total - 1, k, 1);
  }

  lemma {:induction false} GivenBounds(ms: seq<Member>, mode: Share, exp: int, total: int)
    requires total > 0 && !mode.Other?
    ensures exp * Weights(ms, mode) <= total * Given(ms, mode, exp, total)
      <= exp * Weights(ms, mode) + (total - 1) * Eligible(ms)
  {
    if ms != [] {
      var init, m := ms[..|ms| - 1], ms[|ms| - 1];
      GivenBounds(init, mode, exp, total);
      if m.eligible {
        var v := Weight(m, mode);
        CeilBounds(exp * v, total);
        var given := Given(init, mode, exp, total);
        OneMore(exp, total, Weights(init, mode), given, Eligible(init), v, Ceil(exp * v, total));
      }
    }
  }

  /** The summed levels of the members that share, a level of 0 counting 1. */
  function Levels(ms: seq<Member>): nat {
    if ms == [] then 0
    else
      var m := ms[|ms| - 1];
      Levels(ms[..|ms| - 1]) + if !m.eligible then 0 else if m.level < 1 then 1 else m.level
  }

  lemma {:induction false} WeightsAre(ms: seq<Member>)
    ensures Weights(ms, Equal) == Eligible(ms) && Weights(ms, ByLevel) == Levels(ms)
  {
    if ms != [] {
      WeightsAre(ms[..|ms| - 1]);
    }
  }

  /** The share of one member, rounded up: of as many equal ones as there are members, or in proportion to its level. */
  lemma RewardExactly(ms: seq<Member>, m: Member, exp: int)
    requires m.eligible && Eligible(ms) > 0 && Levels(ms) > 0
    ensures var k, r := Eligible(ms), Reward(m, Equal, exp, Weights(ms, Equal)); exp <= k * r < exp + k
    ensures var l, r := Levels(ms), Reward(m, ByLevel, exp, Weights(ms, ByLevel));
      var level := if m.level < 1 then 1 else m.level;
      exp * level <= l * r < exp * level + l
  {
    WeightsAre(ms);
    CeilBounds(exp, Eligible(ms));
    CeilBounds(exp * Weight(m, ByLevel), Levels(ms));
    assert exp * 1 == exp;
  }

  lemma Cancel(w: int, a: int, b: int)
    requires w > 0 && w * a <= w * b
    ensures a <= b
  {
  }

  lemma Below(w: int, given: int, exp: int, k: int)
    requires w > 0 && k > 0 && exp * w <= w * given <= exp * w + (w - 1) * k
    ensures exp <= given < exp + k
  {
    Cancel(w, exp, given);
    Distribute(w, exp, k);
    assert (w - 1) * k == w * k - k;
    assert w * given < w * (exp + k);
    if given >= exp + k {
      Cancel(w, exp + k - given, 0);
    }
  }

  /** All of the experience is given out, and less than one point extra for each member. */
  lemma ShareBounds(ms: seq<Member>, mode: Share, exp: int)
    requires !mode.Other? && Eligible(ms) > 0
    ensures Weights(ms, mode) > 0
    ensures exp <= Given(ms, mode, exp, Weights(ms, mode)) <= exp + Eligible(ms) - 1
  {
    Positive(ms, mode);
    GivenBounds(ms, mode, exp, Weights(ms, mode));
    Below(Weights(ms, mode), Given(ms, mode, exp, Weights(ms, mode)), exp, Eligible(ms));
  }

  /** A member after its reward: at most one level up, by the table. */
  function Rewarded(m: Member, reward: int, maxLevel: int, table: seq<int>): Member
    requires m.level < maxLevel ==> m.level + 1 < |table|
  {
    var exp := m.exp + reward;
    if !m.eligible then m
    else Member(true, if m.level < maxLevel && exp >= table[m.level + 1] then m.level + 1 else m.level, exp)
  }

  /** One share is added to the experience, and raises the level by one if the table says so. */
  lemma RewardedExactly(m: Member, reward: int, maxLevel: int, table: seq<int>)
    requires m.eligible && (m.level < maxLevel ==> m.level + 1 < |table|)
    ensures var r := Rewarded(m, reward, maxLevel, table);
      && r.eligible && r.exp == m.exp + reward
      && r.level == if m.level < maxLevel && m.exp + reward >= table[m.level + 1] then m.level + 1 else m.level
  {
  }

  class Party {
    var members: seq<Member>

    /** The number and the summed levels of the members that share. */
    method Count() returns (count: nat, levels: nat)
      ensures count == Eligible(members) == Weights(members, Equal) && levels == Weights(members, ByLevel)
    {
      count, levels := 0, 0;
      for i := 0 to |members|
        invariant count == Eligible(members[..i]) == Weights(members[..i], Equal)
        invariant levels == Weights(members[..i], ByLevel)
      {
        assert members[..i + 1][..i] == members[..i];
        if members[i].eligible {
          levels := levels + if members[i].level == 0 then 1 else members[i].level;
          count := count + 1;
        }
      }
      assert members[..|members|] == members;
    }

    method ShareExp(exp: int, mode: Share, maxLevel: int, table: seq<int>) returns (ghost given: int)
      requires forall i :: 0 <= i < |members| && members[i].level < maxLevel ==> members[i].level + 1 < |table|
      modifies this
      ensures |members| == |old(members)|
      ensures Eligible(old(members)) == 0 ==> members == old(members) && given == 0
      ensures mode.Other? ==> given == 0
      ensures !mode.Other? && Eligible(old(members)) > 0 ==>
        && exp <= given <= exp + Eligible(old(members)) - 1
        && given == Given(old(members), mode, exp, Weights(old(members), mode))
      ensures Eligible(old(members)) > 0 ==> forall i :: 0 <= i < |members| ==> (members[i] ==
        Rewarded(old(members)[i], Reward(old(members)[i], mode, exp, Weights(old(members), mode)), maxLevel, table))
    {
      var reward := 0;
      given := 0;
      var count, levels := Count();
      if count == 0 || levels == 0 {
        Positive(members, ByLevel);
        return;
      }
      ghost var was := members;
      ghost var total := if mode.ByLevel? then levels else count;
      for i := 0 to |members|
        invariant |members| == |was| && (mode.Other? ==> reward == 0 && given == 0)
        invariant forall j :: i <= j < |was| ==> members[j] == was[j]
        invariant forall j :: 0 <= j < i ==> (
          members[j] == Rewarded(was[j], Reward(was[j], mode, exp, total), maxLevel, table))
        invariant given == Given(was[..i], mode, exp, total)
      {
        assert was[..i + 1][..i] == was[..i];
        var member := members[i];
        if member.eligible {
          if mode.Equal? {
            reward := Ceil(exp, count);
          } else if mode.ByLevel? {
            reward := Ceil(exp * (if member.level == 0 then 1 else member.level), levels);
          }
          given := given + reward;
          var gained := member.exp + reward;
          var levelUp := member.level < maxLevel && gained >= table[member.level + 1];
          members := members[i := Member(true, if levelUp then member.level + 1 else member.level, gained)];
        }
      }
      assert was[..|was|] == was;
      if !mode.Other? {
        ShareBounds(was, mode, exp);
      }
    }
  }
}
