/**
 * The basic body template: as many `[WORK, CARRY, MOVE]` sets as the energy budget pays for,
 * within the engine's 50-part limit.
 */
module BodyGenerator {
  import opened Common
  import opened World

  /** Part prices of the test fixture; ATTACK, which the fixture omits, at the game's price. */
  function PartCost(p: BodyPart): nat
  {
    match p
    case WORK => 100
    case CARRY => 50
    case MOVE => 50
    case ATTACK => 80
    case RANGED_ATTACK => 150
    case HEAL => 250
    case TOUGH => 10
    case CLAIM => 600
  }

  const PART_SET: seq<BodyPart> := [WORK, CARRY, MOVE]
  const SET_COST: nat := PartCost(WORK) + PartCost(CARRY) + PartCost(MOVE)
  const MAX_PARTS: nat := 50

  /** The energy a body costs to spawn. */
  function BodyCost(body: seq<BodyPart>): nat
  {
    if |body| == 0 then 0 else BodyCost(body[..|body| - 1]) + PartCost(body[|body| - 1])
  }

  /** The part set repeated k times. */
  function Sets(k: nat): seq<BodyPart>
  {
    if k == 0 then [] else Sets(k - 1) + PART_SET
  }

  lemma BodyCostAppend(body: seq<BodyPart>, p: BodyPart)
    ensures BodyCost(body + [p]) == BodyCost(body) + PartCost(p)
  {
    assert (body + [p])[..|body|] == body;
  }

  lemma {:induction false} SetsLength(k: nat)
    ensures |Sets(k)| == 3 * k
  {
    if k > 0 {
      SetsLength(k - 1);
    }
  }

  /** k sets cost k times the price of one. */
  lemma {:induction false} SetsCost(k: nat)
    ensures BodyCost(Sets(k)) == k * SET_COST
  {
    if k > 0 {
      SetsCost(k - 1);
      var s := Sets(k - 1);
      var s1 := s + [WORK];
      var s2 := s1 + [CARRY];
      assert Sets(k) == s2 + [MOVE];
      BodyCostAppend(s, WORK);
      BodyCostAppend(s1, CARRY);
      BodyCostAppend(s2, MOVE);
      assert SET_COST == 200;
      assert k * SET_COST == (k - 1) * SET_COST + SET_COST;
    }
  }

  /** Part i of k sets is part i mod 3 of the set. */
  lemma {:induction false} SetsPattern(k: nat)
    ensures forall i :: 0 <= i < |Sets(k)| ==> Sets(k)[i] == PART_SET[i % 3]
  {
    if k > 0 {
      SetsPattern(k - 1);
      SetsLength(k - 1);
      var s := Sets(k - 1);
      forall i | 0 <= i < |Sets(k)|
        ensures Sets(k)[i] == PART_SET[i % 3]
      {
        if i >= |s| {
          assert Sets(k)[i] == PART_SET[i - |s|];
          assert i % 3 == i - |s|;
        } else {
          assert Sets(k)[i] == s[i];
        }
      }
    }
  }

  lemma SetsShape(k: nat)
    ensures |Sets(k)| == 3 * k
    ensures BodyCost(Sets(k)) == k * SET_COST
    ensures forall i :: 0 <= i < |Sets(k)| ==> Sets(k)[i] == PART_SET[i % 3]
  {
    SetsLength(k);
    SetsCost(k);
    SetsPattern(k);
  }

  /** How many sets a budget buys: floor(budget / 200), at most 16, none for a negative budget. */
  function SetCount(budget: int): nat
  {
    if budget < 0 then 0 else Min(budget / SET_COST, MAX_PARTS / 3)
  }

  lemma QuotientOf(n: nat, k: nat)
    requires k * SET_COST <= n < (k + 1) * SET_COST
    ensures n / SET_COST == k
  {
    assert SET_COST == 200;
  }

  lemma QuotientAtLeast(n: nat, k: nat)
    requires k * SET_COST <= n
    ensures k <= n / SET_COST
  {
    assert SET_COST == 200;
  }

  /** `generateBasicBody(budget)`: the body the greedy loop builds. */
  method GenerateBasicBody(energyBudget: int) returns (body: seq<BodyPart>)
    ensures body == Sets(SetCount(energyBudget))
    ensures |body| % 3 == 0 && |body| <= MAX_PARTS - 2
    ensures forall i :: 0 <= i < |body| ==> body[i] == PART_SET[i % 3]
    ensures energyBudget >= 0 ==> BodyCost(body) <= energyBudget
    ensures energyBudget < SET_COST ==> body == []
  {
    assert SET_COST == 200;
    body := [];
    var budget := energyBudget;
    ghost var k: nat := 0;
    while budget >= SET_COST && |body| + 3 <= MAX_PARTS
      invariant body == Sets(k) && |body| == 3 * k && k <= MAX_PARTS / 3
      invariant budget == energyBudget - k * SET_COST
      invariant energyBudget >= 0 ==> k <= energyBudget / SET_COST
      invariant energyBudget < 0 ==> k == 0
      decreases MAX_PARTS - |body|
    {
      SetsShape(k);
      body := body + PART_SET;
      budget := budget - SET_COST;
      k := k + 1;
      SetsShape(k);
    }
    SetsShape(k);
    if energyBudget >= 0 {
      if budget < SET_COST {
        QuotientOf(energyBudget, k);
      } else {
        assert k == MAX_PARTS / 3;
        QuotientAtLeast(energyBudget, k + 1);
      }
    }
  }

  /** The unit test's case: a budget of 300 buys one set, three parts. */
  method BudgetOf300() returns (body: seq<BodyPart>)
    ensures |body| == 3 && body == PART_SET
  {
    body := GenerateBasicBody(300);
    QuotientOf(300, 1);
    assert SetCount(300) == 1;
    assert Sets(1) == [] + PART_SET == PART_SET;
  }
}
