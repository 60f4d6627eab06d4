/** The loot table: groups of item templates keyed by their weight, the random
    draw of loot worth up to a weight budget, and the chances that a created
    item is rare, supreme or fantastic. */
module LootTables {
  import opened Randomness

  /** The contents of the table: group weight -> item template ids. */
  type Table = map<int, seq<int>>

  /** How a setter returns: normally, or by throwing IllegalArgumentException
      with the given message. */
  datatype Outcome = Done | IllegalArgument(message: string)

  const ChanceMessage: string := "chance must be a float between zero and one, inclusive."
  const ChancesMessage: string := "Each chance must be a float between zero and one, inclusive."

  /** How many failed draws the inner loop of `getLoot` tolerates. */
  const MaxTries: nat := 1000

  // ---------------------------------------------------------------------------
  // The table

  /** `weights` lists every key of `table` once, `keySet().toArray()`: keys
      only, none twice, and as many as the table has. */
  predicate KeyOrder(weights: seq<int>, table: Table) {
    && (forall i | 0 <= i < |weights| :: weights[i] in table)
    && (forall i, j | 0 <= i < j < |weights| :: weights[i] != weights[j])
    && |weights| == |table|
  }

  /** What `getLoot` needs to draw from the keys `weights` of `table`: at
      least one key, and each key a positive weight with a non-empty group. */
  predicate Drawable(weights: seq<int>, table: Table) {
    && |weights| > 0
    && forall i | 0 <= i < |weights| :: weights[i] in table && weights[i] > 0 && table[weights[i]] != []
  }

  /** The total weight of the groups `picks`. */
  function Sum(picks: seq<int>): int {
    if picks == [] then 0 else picks[0] + Sum(picks[1..])
  }

  /** A rarity chance is accepted when it lies in [0, 1]. */
  predicate InUnitRange(chance: real) {
    !(chance < 0.0 || chance > 1.0)
  }

  // ---------------------------------------------------------------------------
  // The draw loops of getLoot

  /** The item `random.nextInt(group.size())` picks at raw draw `k` from the
      group of `weight`. */
  function Pick(table: Table, weight: int, source: nat -> nat, k: nat): (item: int)
    requires weight in table && table[weight] != []
    ensures item in table[weight]
  {
    table[weight][IntAt(source, k, |table[weight]|)]
  }

  /** The loot `getLoot` returns (`items`), the weights of the groups the items
      came from (`picks`), and the number of the next raw draw. */
  datatype Run = Run(items: seq<int>, picks: seq<int>, next: nat)

  /** `run` with one more item, from a group of weight `weight`, in front. */
  function Took(item: int, weight: int, run: Run): Run {
    Run([item] + run.items, [weight] + run.picks, run.next)
  }

  /** The outer loop of `getLoot` from raw draw `k` on, with `lootValue`
      collected: while the budget is not used up, run the inner loop. */
  function Loot(table: Table, weights: seq<int>, maxWeight: int, source: nat -> nat,
                k: nat, lootValue: int): (r: Run)
    requires lootValue < maxWeight ==> Drawable(weights, table)
    ensures |r.items| == |r.picks| && k <= r.next
    decreases maxWeight - lootValue, MaxTries + 1
  {
    if lootValue >= maxWeight then Run([], [], k)
    else LootDrawing(table, weights, maxWeight, source, k, lootValue, 0)
  }

  /** The inner loop of `getLoot` and what follows it, at raw draw `k` with
      `tries` failed draws counted. A weight too heavy for what is left of
      the budget is drawn again while `tries++ < 1000` holds; the loot is
      abandoned when the inner loop ends with `tries` at exactly 1000, which
      happens only when the 1001st draw fits. When that draw does not fit
      either, `tries` ends at 1001 and its too heavy group is taken. */
  function LootDrawing(table: Table, weights: seq<int>, maxWeight: int, source: nat -> nat,
                       k: nat, lootValue: int, tries: nat): (r: Run)
    requires Drawable(weights, table) && lootValue < maxWeight && tries <= MaxTries
    ensures |r.items| == |r.picks| && k < r.next
    decreases maxWeight - lootValue, MaxTries - tries
  {
    var weight := weights[IntAt(source, k, |weights|)];
    if weight > maxWeight - lootValue && tries < MaxTries then
      LootDrawing(table, weights, maxWeight, source, k + 1, lootValue, tries + 1)
    else if weight <= maxWeight - lootValue && tries == MaxTries then
      Run([], [], k + 1)
    else
      Took(Pick(table, weight, source, k + 1), weight,
           Loot(table, weights, maxWeight, source, k + 2, lootValue + weight))
  }

  /** The outer loop as evidently intended. */
  function LootCorrected(table: Table, weights: seq<int>, maxWeight: int, source: nat -> nat,
                         k: nat, lootValue: int): (r: Run)
    requires lootValue < maxWeight ==> Drawable(weights, table)
    ensures |r.items| == |r.picks| && k <= r.next
    decreases maxWeight - lootValue, MaxTries + 1
  {
    if lootValue >= maxWeight then Run([], [], k)
    else LootCorrectedDrawing(table, weights, maxWeight, source, k, lootValue, 0)
  }

  /** The inner loop as evidently intended: the loot ends when the inner loop
      gives up on a weight that does not fit, and only then. */
  function LootCorrectedDrawing(table: Table, weights: seq<int>, maxWeight: int, source: nat -> nat,
                                k: nat, lootValue: int, tries: nat): (r: Run)
    requires Drawable(weights, table) && lootValue < maxWeight && tries <= MaxTries
    ensures |r.items| == |r.picks| && k < r.next
    decreases maxWeight - lootValue, MaxTries - tries
  {
    var weight := weights[IntAt(source, k, |weights|)];
    if weight > maxWeight - lootValue && tries < MaxTries then
      LootCorrectedDrawing(table, weights, maxWeight, source, k + 1, lootValue, tries + 1)
    else if weight > maxWeight - lootValue then
      Run([], [], k + 1)
    else
      Took(Pick(table, weight, source, k + 1), weight,
           LootCorrected(table, weights, maxWeight, source, k + 2, lootValue + weight))
  }

  /** Every raw draw from `from` up to `to` picks a weight heavier than
      `diff`. */
  predicate Misses(weights: seq<int>, diff: int, source: nat -> nat, from: nat, to: nat)
    requires |weights| > 0
  {
    forall j | from <= j < to :: weights[IntAt(source, j, |weights|)] > diff
  }

  /** The inner loop of `getLoot`,
      `while((weight = weights[random.nextInt(..)]) > diff && tries++ < 1000);`:
      every draw but the last is too heavy, and the last one fits or is the
      1001st. `tries` counts the too heavy draws, 1001 at most. */
  method DrawWeight(weights: seq<int>, diff: int, rng: Random) returns (weight: int, tries: nat)
    requires |weights| > 0
    modifies rng
    ensures old(rng.drawn) < rng.drawn <= old(rng.drawn) + MaxTries + 1
    ensures weight == weights[IntAt(rng.source, rng.drawn - 1, |weights|)]
    ensures Misses(weights, diff, rng.source, old(rng.drawn), rng.drawn - 1)
    ensures weight > diff ==> rng.drawn == old(rng.drawn) + MaxTries + 1
    ensures tries == rng.drawn - old(rng.drawn) - (if weight > diff then 0 else 1)
  {
    tries := 0;
    var i := rng.NextInt(|weights|);
    weight := weights[i];
    while weight > diff && tries < MaxTries
      invariant tries <= MaxTries && rng.drawn == old(rng.drawn) + tries + 1
      invariant weight == weights[IntAt(rng.source, rng.drawn - 1, |weights|)]
      invariant Misses(weights, diff, rng.source, old(rng.drawn), rng.drawn - 1)
      decreases MaxTries - tries
    {
      tries := tries + 1;
      i := rng.NextInt(|weights|);
      weight := weights[i];
    }
    if weight > diff {
      // the test `tries++ < 1000` that failed still counts
      tries := tries + 1;
    }
  }

  /** One turn of the outer loop of `getLoot` up to the addition of the item:
      draw a weight, then give up (`stop`) or pick `item` from its group. */
  method DrawGroup(table: Table, weights: seq<int>, maxWeight: int, lootValue: int, rng: Random)
    returns (stop: bool, item: int, weight: int)
    requires Drawable(weights, table) && lootValue < maxWeight
    modifies rng
    ensures var r := Loot(table, weights, maxWeight, rng.source, old(rng.drawn), lootValue);
      if stop then r == Run([], [], rng.drawn)
      else weight > 0 && r == Took(item, weight, Loot(table, weights, maxWeight, rng.source, rng.drawn, lootValue + weight))
  {
    var diff := maxWeight - lootValue;
    ghost var first := rng.drawn;
    var tries;
    weight, tries := DrawWeight(weights, diff, rng);
    ghost var last := rng.drawn - 1;
    LootSkip(table, weights, maxWeight, rng.source, first, lootValue, 0, last - first);
    if tries == MaxTries {
      LootGiveUp(table, weights, maxWeight, rng.source, last, lootValue, MaxTries);
      return true, 0, weight;
    }
    LootTake(table, weights, maxWeight, rng.source, last, lootValue, last - first);
    var group := table[weight];
    var i := rng.NextInt(|group|);
    return false, group[i], weight;
  }

  /** One turn of the corrected outer loop up to the addition of the item. */
  method DrawGroupCorrected(table: Table, weights: seq<int>, maxWeight: int, lootValue: int, rng: Random)
    returns (stop: bool, item: int, weight: int)
    requires Drawable(weights, table) && lootValue < maxWeight
    modifies rng
    ensures var r := LootCorrected(table, weights, maxWeight, rng.source, old(rng.drawn), lootValue);
      if stop then r == Run([], [], rng.drawn)
      else weight > 0 && r == Took(item, weight, LootCorrected(table, weights, maxWeight, rng.source, rng.drawn, lootValue + weight))
  {
    var diff := maxWeight - lootValue;
    ghost var first := rng.drawn;
    var tries;
    weight, tries := DrawWeight(weights, diff, rng);
    ghost var last := rng.drawn - 1;
    LootCorrectedSkip(table, weights, maxWeight, rng.source, first, lootValue, 0, last - first);
    if weight > diff {
      LootCorrectedGiveUp(table, weights, maxWeight, rng.source, last, lootValue, MaxTries);
      return true, 0, weight;
    }
    LootCorrectedTake(table, weights, maxWeight, rng.source, last, lootValue, last - first);
    var group := table[weight];
    var i := rng.NextInt(|group|);
    return false, group[i], weight;
  }

  /** `copy` holds the same groups under the same keys as `source`. */
  predicate SameGroups(copy: Table, source: Table) {
    && (forall w | w in source :: w in copy)
    && (forall w | w in copy :: w in source && copy[w] == source[w])
  }

  /** The copy loop of the constructor: each key of `source` in turn, in the
      order the map hands them out, with its group. */
  method CopyTable(source: Table) returns (copy: Table, order: seq<int>)
    ensures SameGroups(copy, source) && KeyOrder(order, copy)
  {
    copy := map[];
    order := [];
    var rest := source.Keys;
    while |rest| > 0
      invariant forall w :: w in source <==> w in copy || w in rest
      invariant forall w | w in rest :: w !in copy
      invariant forall w | w in copy :: copy[w] == source[w]
      invariant KeyOrder(order, copy)
      decreases |rest|
    {
      NonEmpty(rest);
      var i :| i in rest;
      ghost var before := copy;
      copy := copy[i := source[i]];
      assert |copy| == |before| + 1;
      order := order + [i];
      rest := rest - {i};
    }
    assert forall w :: w !in rest;
  }

  // ---------------------------------------------------------------------------
  // Rarity

  /** The rarity `randomRarity` returns for the three rolls: the highest tier
      whose roll is at most its chance (3 fantastic, 2 supreme, 1 rare), or 0. */
  function Rarity(rareRoll: real, supremeRoll: real, fantasticRoll: real,
                  rare: real, supreme: real, fantastic: real): (tier: int)
    ensures 0 <= tier <= 3
    ensures tier == 0 <==> !(rareRoll <= rare || supremeRoll <= supreme || fantasticRoll <= fantastic)
    ensures tier == 1 ==> rareRoll <= rare
    ensures tier == 2 ==> supremeRoll <= supreme
    ensures tier == 3 <==> fantasticRoll <= fantastic
    ensures tier < 2 ==> supremeRoll > supreme
  {
    if fantasticRoll <= fantastic then 3
    else if supremeRoll <= supreme then 2
    else if rareRoll <= rare then 1
    else 0
  }

  /** The rolls of `randomRarity` can be exactly 0, which meets a chance of
      0: a tier whose chance is 0 is not impossible. */
  lemma ZeroChanceCanHit(source: nat -> nat, k: nat)
    requires source(k) % FloatSteps == 0
    ensures Rarity(FloatAt(source, k), FloatAt(source, k + 1), FloatAt(source, k + 2), 0.0, 0.0, 0.0) >= 1
  {
  }

  /** `randomRarity(rare, supreme, fantastic)`: three rolls, each later
      success overwriting the tier of an earlier one. */
  method RandomRarityWith(rare: real, supreme: real, fantastic: real, rng: Random) returns (rarity: int)
    modifies rng
    ensures rarity == Rarity(FloatAt(rng.source, old(rng.drawn)), FloatAt(rng.source, old(rng.drawn) + 1),
                             FloatAt(rng.source, old(rng.drawn) + 2), rare, supreme, fantastic)
    ensures rng.drawn == old(rng.drawn) + 3
  {
    rarity := 0;
    var roll := rng.NextFloat();
    if roll <= rare {
      rarity := 1;
    }
    roll := rng.NextFloat();
    if roll <= supreme {
      rarity := 2;
    }
    roll := rng.NextFloat();
    if roll <= fantastic {
      rarity := 3;
    }
  }

  // ---------------------------------------------------------------------------
  // The loot table object

  class LootTable {
    var rareChance: real
    var supremeChance: real
    var fantasticChance: real
    /** The groups of the table; `final`, as in Java. */
    const lootTable: Table
    /** The order in which the table hands out its keys, fixed with the table. */
    const keys: seq<int>

    predicate Valid()
      reads this
    {
      KeyOrder(keys, lootTable)
    }

    /** All three chances lie in [0, 1]. */
    predicate ChancesValid()
      reads this
    {
      InUnitRange(rareChance) && InUnitRange(supremeChance) && InUnitRange(fantasticChance)
    }

    /** Copies the groups of `newLootTable` one key at a time. */
    constructor (newLootTable: Table)
      ensures Valid() && ChancesValid()
      ensures SameGroups(lootTable, newLootTable)
      ensures rareChance == 0.0001 && supremeChance == 0.00001 && fantasticChance == 0.000001
    {
      var copy, order := CopyTable(newLootTable);
      rareChance := 0.0001;
      supremeChance := 0.00001;
      fantasticChance := 0.000001;
      lootTable := copy;
      keys := order;
    }

    /** `getLoot(maxWeight)`. */
    method GetLoot(maxWeight: int, rng: Random) returns (loot: seq<int>)
      requires Valid() && (maxWeight > 0 ==> Drawable(keys, lootTable))
      modifies rng
      ensures var r := Loot(lootTable, keys, maxWeight, rng.source, old(rng.drawn), 0);
        loot == r.items && rng.drawn == r.next
    {
      var table := lootTable;
      var weights := keys;
      ghost var whole := Loot(table, weights, maxWeight, rng.source, rng.drawn, 0);
      ghost var rest := whole;
      loot := [];
      var lootValue := 0;
      while lootValue < maxWeight
        invariant rest == Loot(table, weights, maxWeight, rng.source, rng.drawn, lootValue)
        invariant loot + rest.items == whole.items && rest.next == whole.next
        decreases maxWeight - lootValue
      {
        var stop, item, weight := DrawGroup(table, weights, maxWeight, lootValue, rng);
        if stop {
          assert loot + rest.items == loot;
          break;
        }
        ghost var after := Loot(table, weights, maxWeight, rng.source, rng.drawn, lootValue + weight);
        TookAppend(loot, item, weight, after);
        loot := loot + [item];
        lootValue := lootValue + weight;
        rest := after;
      }
    }

    /** `getLoot` with the loot ended by a weight that does not fit. */
    method GetLootCorrected(maxWeight: int, rng: Random) returns (loot: seq<int>)
      requires Valid() && (maxWeight > 0 ==> Drawable(keys, lootTable))
      modifies rng
      ensures var r := LootCorrected(lootTable, keys, maxWeight, rng.source, old(rng.drawn), 0);
        loot == r.items && rng.drawn == r.next
    {
      var table := lootTable;
      var weights := keys;
      ghost var whole := LootCorrected(table, weights, maxWeight, rng.source, rng.drawn, 0);
      ghost var rest := whole;
      loot := [];
      var lootValue := 0;
      while lootValue < maxWeight
        invariant rest == LootCorrected(table, weights, maxWeight, rng.source, rng.drawn, lootValue)
        invariant loot + rest.items == whole.items && rest.next == whole.next
        decreases maxWeight - lootValue
      {
        var stop, item, weight := DrawGroupCorrected(table, weights, maxWeight, lootValue, rng);
        if stop {
          assert loot + rest.items == loot;
          break;
        }
        ghost var after := LootCorrected(table, weights, maxWeight, rng.source, rng.drawn, lootValue + weight);
        TookAppend(loot, item, weight, after);
        loot := loot + [item];
        lootValue := lootValue + weight;
        rest := after;
      }
    }

    /** `randomRarity()`: the rarity for this table's own chances. */
    method RandomRarity(rng: Random) returns (rarity: int)
      modifies rng
      ensures rarity == Rarity(FloatAt(rng.source, old(rng.drawn)), FloatAt(rng.source, old(rng.drawn) + 1),
                               FloatAt(rng.source, old(rng.drawn) + 2),
                               rareChance, supremeChance, fantasticChance)
      ensures rng.drawn == old(rng.drawn) + 3
    {
      rarity := RandomRarityWith(rareChance, supremeChance, fantasticChance, rng);
    }

    /** `setRareChance`: throws for a chance outside [0, 1], else replaces the
        rare chance only. */
    method SetRareChance(chance: real) returns (outcome: Outcome)
      modifies this
      ensures outcome == if InUnitRange(chance) then Done else IllegalArgument(ChanceMessage)
      ensures rareChance == if outcome.Done? then chance else old(rareChance)
      ensures supremeChance == old(supremeChance) && fantasticChance == old(fantasticChance)
      ensures old(ChancesValid()) ==> ChancesValid()
    {
      if chance < 0.0 || chance > 1.0 {
        return IllegalArgument(ChanceMessage);
      }
      rareChance := chance;
      outcome := Done;
    }

    /** `setSupremeChance`: throws for a chance outside [0, 1], else replaces
        the supreme chance only. */
    method SetSupremeChance(chance: real) returns (outcome: Outcome)
      modifies this
      ensures outcome == if InUnitRange(chance) then Done else IllegalArgument(ChanceMessage)
      ensures supremeChance == if outcome.Done? then chance else old(supremeChance)
      ensures rareChance == old(rareChance) && fantasticChance == old(fantasticChance)
      ensures old(ChancesValid()) ==> ChancesValid()
    {
      if chance < 0.0 || chance > 1.0 {
        return IllegalArgument(ChanceMessage);
      }
      supremeChance := chance;
      outcome := Done;
    }

    /** `setFantasticChance`: throws for a chance outside [0, 1], else
        replaces the fantastic chance only. */
    method SetFantasticChance(chance: real) returns (outcome: Outcome)
      modifies this
      ensures outcome == if InUnitRange(chance) then Done else IllegalArgument(ChanceMessage)
      ensures fantasticChance == if outcome.Done? then chance else old(fantasticChance)
      ensures rareChance == old(rareChance) && supremeChance == old(supremeChance)
      ensures old(ChancesValid()) ==> ChancesValid()
    {
      if chance < 0.0 || chance > 1.0 {
        return IllegalArgument(ChanceMessage);
      }
      fantasticChance := chance;
      outcome := Done;
    }

    /** `setRarityChances`: all three chances are replaced, or, when any of
        them lies outside [0, 1], none is and the call throws. */
    method SetRarityChances(rare: real, supreme: real, fantastic: real) returns (outcome: Outcome)
      modifies this
      ensures outcome == if InUnitRange(rare) && InUnitRange(supreme) && InUnitRange(fantastic)
                         then Done else IllegalArgument(ChancesMessage)
      ensures outcome.Done? ==> rareChance == rare && supremeChance == supreme && fantasticChance == fantastic
      ensures !outcome.Done? ==> rareChance == old(rareChance) && supremeChance == old(supremeChance)
                                 && fantasticChance == old(fantasticChance)
      ensures old(ChancesValid()) ==> ChancesValid()
    {
      if (rare < 0.0 || rare > 1.0)
         || (supreme < 0.0 || supreme > 1.0)
         || (fantastic < 0.0 || fantastic > 1.0) {
        return IllegalArgument(ChancesMessage);
      }
      rareChance := rare;
      supremeChance := supreme;
      fantasticChance := fantastic;
      outcome := Done;
    }
  }

  // ---------------------------------------------------------------------------
  // Properties of getLoot

  /** Every item of `run` belongs to the group its weight names. */
  predicate Members(run: Run, table: Table) {
    && |run.items| == |run.picks|
    && forall i | 0 <= i < |run.picks| :: run.picks[i] in table && run.items[i] in table[run.picks[i]]
  }

  lemma TookMembers(item: int, weight: int, run: Run, table: Table)
    requires weight in table && item in table[weight] && Members(run, table)
    ensures Members(Took(item, weight, run), table)
  {
    var r := Took(item, weight, run);
    forall i | 0 <= i < |r.picks|
      ensures r.picks[i] in table && r.items[i] in table[r.picks[i]]
    {
      if i > 0 {
        assert r.picks[i] == run.picks[i - 1] && r.items[i] == run.items[i - 1];
      }
    }
  }

  lemma {:induction false} DrawingMembers(table: Table, weights: seq<int>, maxWeight: int, source: nat -> nat,
                                          k: nat, lootValue: int, tries: nat)
    requires Drawable(weights, table) && lootValue < maxWeight && tries <= MaxTries
    ensures Members(LootDrawing(table, weights, maxWeight, source, k, lootValue, tries), table)
    decreases maxWeight - lootValue, MaxTries - tries
  {
    var weight := weights[IntAt(source, k, |weights|)];
    var diff := maxWeight - lootValue;
    if weight > diff && tries < MaxTries {
      LootRetry(table, weights, maxWeight, source, k, lootValue, tries);
      DrawingMembers(table, weights, maxWeight, source, k + 1, lootValue, tries + 1);
    } else if weight <= diff && tries == MaxTries {
      LootGiveUp(table, weights, maxWeight, source, k, lootValue, tries);
    } else {
      LootTake(table, weights, maxWeight, source, k, lootValue, tries);
      if lootValue + weight < maxWeight {
        DrawingMembers(table, weights, maxWeight, source, k + 2, lootValue + weight, 0);
      }
      TookMembers(Pick(table, weight, source, k + 1), weight,
                  Loot(table, weights, maxWeight, source, k + 2, lootValue + weight), table);
    }
  }

  /** `getLoot` returns one item per group drawn, each a member of its group;
      without a positive budget it returns nothing and draws nothing. */
  lemma LootMembers(table: Table, weights: seq<int>, maxWeight: int, source: nat -> nat, k: nat)
    requires maxWeight > 0 ==> Drawable(weights, table)
    ensures var r := Loot(table, weights, maxWeight, source, k, 0);
      && |r.items| == |r.picks|
      && (forall i | 0 <= i < |r.picks| :: r.picks[i] in table && r.items[i] in table[r.picks[i]])
      && (maxWeight <= 0 ==> r == Run([], [], k))
  {
    if maxWeight > 0 {
      DrawingMembers(table, weights, maxWeight, source, k, 0, 0);
    }
  }

  lemma {:induction false} DrawingBudget(table: Table, weights: seq<int>, maxWeight: int, source: nat -> nat,
                                         k: nat, lootValue: int, tries: nat, bound: int)
    requires Drawable(weights, table) && lootValue < maxWeight && tries <= MaxTries
    requires forall i | 0 <= i < |weights| :: weights[i] <= bound
    ensures var r := LootDrawing(table, weights, maxWeight, source, k, lootValue, tries);
      && (forall i | 0 <= i < |r.picks| :: lootValue + Sum(r.picks[..i]) < maxWeight)
      && lootValue + Sum(r.picks) < maxWeight + bound
    decreases maxWeight - lootValue, MaxTries - tries
  {
    var weight := weights[IntAt(source, k, |weights|)];
    var diff := maxWeight - lootValue;
    if weight > diff && tries < MaxTries {
      LootRetry(table, weights, maxWeight, source, k, lootValue, tries);
      DrawingBudget(table, weights, maxWeight, source, k + 1, lootValue, tries + 1, bound);
    } else if weight <= diff && tries == MaxTries {
      LootGiveUp(table, weights, maxWeight, source, k, lootValue, tries);
    } else {
      LootTake(table, weights, maxWeight, source, k, lootValue, tries);
      var rest := Loot(table, weights, maxWeight, source, k + 2, lootValue + weight);
      var picks := [weight] + rest.picks;
      assert LootDrawing(table, weights, maxWeight, source, k, lootValue, tries).picks == picks;
      if lootValue + weight < maxWeight {
        DrawingBudget(table, weights, maxWeight, source, k + 2, lootValue + weight, 0, bound);
      }
      assert Sum(picks) == weight + Sum(rest.picks);
      forall i | 0 <= i < |picks|
        ensures lootValue + Sum(picks[..i]) < maxWeight
      {
        if i > 0 {
          assert picks[..i][1..] == rest.picks[..i - 1];
        }
      }
    }
  }

  /** Each group is drawn while the loot is still worth less than
      `maxWeight`, so the loot can exceed `maxWeight`, but by less than the
      heaviest group. */
  lemma LootBudget(table: Table, weights: seq<int>, maxWeight: int, source: nat -> nat, k: nat, bound: int)
    requires maxWeight > 0 ==> Drawable(weights, table)
    requires forall i | 0 <= i < |weights| :: weights[i] <= bound
    ensures var r := Loot(table, weights, maxWeight, source, k, 0);
      && (forall i | 0 <= i < |r.picks| :: Sum(r.picks[..i]) < maxWeight)
      && (maxWeight > 0 ==> Sum(r.picks) < maxWeight + bound)
  {
    if maxWeight > 0 {
      DrawingBudget(table, weights, maxWeight, source, k, 0, 0, bound);
    }
  }

  lemma {:induction false} DrawingAllTooHeavy(table: Table, weights: seq<int>, maxWeight: int, source: nat -> nat,
                                              k: nat, lootValue: int, tries: nat)
    requires Drawable(weights, table) && lootValue < maxWeight && tries <= MaxTries
    requires forall i | 0 <= i < |weights| :: weights[i] > maxWeight - lootValue
    ensures var r := LootDrawing(table, weights, maxWeight, source, k, lootValue, tries);
      && |r.items| == 1 && |r.picks| == 1 && r.picks[0] > maxWeight - lootValue
      && r.next == k + (MaxTries - tries) + 2
    decreases MaxTries - tries
  {
    if tries < MaxTries {
      LootRetry(table, weights, maxWeight, source, k, lootValue, tries);
      DrawingAllTooHeavy(table, weights, maxWeight, source, k + 1, lootValue, tries + 1);
    } else {
      LootTake(table, weights, maxWeight, source, k, lootValue, tries);
    }
  }

  /** When every group is heavier than a positive `maxWeight`, `getLoot`
      still returns one item, worth more than `maxWeight`, after 1001 failed
      draws. */
  lemma LootAllTooHeavy(table: Table, weights: seq<int>, maxWeight: int, source: nat -> nat, k: nat)
    requires Drawable(weights, table) && maxWeight > 0
    requires forall i | 0 <= i < |weights| :: weights[i] > maxWeight
    ensures var r := Loot(table, weights, maxWeight, source, k, 0);
      && |r.items| == 1 && |r.picks| == 1 && Sum(r.picks) > maxWeight
      && r.next == k + MaxTries + 2
  {
    DrawingAllTooHeavy(table, weights, maxWeight, source, k, 0, 0);
  }

  /** When the first 1000 draws of a turn are too heavy and the 1001st fits,
      `getLoot` stops and drops that fitting group. */
  lemma LootAbandonsFit(table: Table, weights: seq<int>, maxWeight: int, source: nat -> nat, k: nat, lootValue: int)
    requires Drawable(weights, table) && lootValue < maxWeight
    requires Misses(weights, maxWeight - lootValue, source, k, k + MaxTries)
    requires weights[IntAt(source, k + MaxTries, |weights|)] <= maxWeight - lootValue
    ensures Loot(table, weights, maxWeight, source, k, lootValue) == Run([], [], k + MaxTries + 1)
  {
    LootSkip(table, weights, maxWeight, source, k, lootValue, 0, MaxTries);
    LootGiveUp(table, weights, maxWeight, source, k + MaxTries, lootValue, MaxTries);
  }

  /** The draws `source` makes in `AbandonWitness`: 1000 times the index of
      the heavy group, then the index of the light one. */
  function AbandonDraws(start: nat): nat -> nat {
    j => if j < start + MaxTries then 0 else 1
  }

  /** A table where `getLoot(5)` returns nothing although it drew a group of
      weight 1, while the corrected loop takes it. */
  lemma AbandonWitness(k: nat)
    ensures Loot(map[10 := [7], 1 := [8]], [10, 1], 5, AbandonDraws(k), k, 0).items == []
    ensures var r := LootCorrected(map[10 := [7], 1 := [8]], [10, 1], 5, AbandonDraws(k), k, 0);
      r.items != [] && r.items[0] == 8
  {
    var table := map[10 := [7], 1 := [8]];
    var weights := [10, 1];
    var source := AbandonDraws(k);
    assert Drawable(weights, table);
    assert IntAt(source, k + MaxTries, 2) == 1;
    forall j | k <= j < k + MaxTries
      ensures weights[IntAt(source, j, 2)] > 5
    {
      assert IntAt(source, j, 2) == 0;
    }
    LootAbandonsFit(table, weights, 5, source, k, 0);
    LootCorrectedTakesFit(table, weights, 5, source, k, 0, MaxTries);
  }

  /** A table where `getLoot(5)` returns an item worth 10. */
  lemma OvershootWitness(k: nat)
    ensures Loot(map[10 := [7]], [10], 5, _ => 0, k, 0).items == [7]
    ensures Sum(Loot(map[10 := [7]], [10], 5, _ => 0, k, 0).picks) == 10
  {
    var table := map[10 := [7]];
    LootAllTooHeavy(table, [10], 5, _ => 0, k);
    LootMembers(table, [10], 5, _ => 0, k);
  }

  // ---------------------------------------------------------------------------
  // Properties of the corrected loop

  lemma {:induction false} CorrectedDrawingSound(table: Table, weights: seq<int>, maxWeight: int, source: nat -> nat,
                                                 k: nat, lootValue: int, tries: nat)
    requires Drawable(weights, table) && lootValue < maxWeight && tries <= MaxTries
    ensures var r := LootCorrectedDrawing(table, weights, maxWeight, source, k, lootValue, tries);
      Members(r, table) && lootValue + Sum(r.picks) <= maxWeight
    decreases maxWeight - lootValue, MaxTries - tries
  {
    var weight := weights[IntAt(source, k, |weights|)];
    var diff := maxWeight - lootValue;
    if weight > diff && tries < MaxTries {
      LootCorrectedRetry(table, weights, maxWeight, source, k, lootValue, tries);
      CorrectedDrawingSound(table, weights, maxWeight, source, k + 1, lootValue, tries + 1);
    } else if weight > diff {
      LootCorrectedGiveUp(table, weights, maxWeight, source, k, lootValue, tries);
    } else {
      LootCorrectedTake(table, weights, maxWeight, source, k, lootValue, tries);
      var rest := LootCorrected(table, weights, maxWeight, source, k + 2, lootValue + weight);
      if lootValue + weight < maxWeight {
        CorrectedDrawingSound(table, weights, maxWeight, source, k + 2, lootValue + weight, 0);
      }
      assert Sum([weight] + rest.picks) == weight + Sum(rest.picks);
      TookMembers(Pick(table, weight, source, k + 1), weight, rest, table);
    }
  }

  /** The corrected loop returns members of the groups drawn and never more
      than `maxWeight` worth of them. */
  lemma LootCorrectedWithinBudget(table: Table, weights: seq<int>, maxWeight: int, source: nat -> nat, k: nat)
    requires maxWeight > 0 ==> Drawable(weights, table)
    ensures var r := LootCorrected(table, weights, maxWeight, source, k, 0);
      && |r.items| == |r.picks|
      && (forall i | 0 <= i < |r.picks| :: r.picks[i] in table && r.items[i] in table[r.picks[i]])
      && Sum(r.picks) <= (if maxWeight > 0 then maxWeight else 0)
  {
    if maxWeight > 0 {
      CorrectedDrawingSound(table, weights, maxWeight, source, k, 0, 0);
    }
  }

  /** The corrected loop takes the first group that fits, however many draws
      before it were too heavy. */
  lemma LootCorrectedTakesFit(table: Table, weights: seq<int>, maxWeight: int, source: nat -> nat,
                              k: nat, lootValue: int, n: nat)
    requires Drawable(weights, table) && lootValue < maxWeight && n <= MaxTries
    requires Misses(weights, maxWeight - lootValue, source, k, k + n)
    requires weights[IntAt(source, k + n, |weights|)] <= maxWeight - lootValue
    ensures var r := LootCorrected(table, weights, maxWeight, source, k, lootValue);
      && r.picks != [] && r.picks[0] == weights[IntAt(source, k + n, |weights|)]
      && r.items != [] && r.items[0] in table[r.picks[0]]
  {
    LootCorrectedSkip(table, weights, maxWeight, source, k, lootValue, 0, n);
    LootCorrectedTake(table, weights, maxWeight, source, k + n, lootValue, n);
  }

  // ---------------------------------------------------------------------------
  // Helpers

  /** A weight that does not fit is drawn again while tries are left (`LootDrawing`). */
  lemma {:induction false} LootRetry(table: Table, weights: seq<int>, maxWeight: int, source: nat -> nat, k: nat, lootValue: int, tries: nat)
    requires Drawable(weights, table) && lootValue < maxWeight && tries <= MaxTries
    requires weights[IntAt(source, k, |weights|)] > maxWeight - lootValue && tries < MaxTries
    ensures LootDrawing(table, weights, maxWeight, source, k, lootValue, tries)
      == LootDrawing(table, weights, maxWeight, source, k + 1, lootValue, tries + 1)
  {
  }

  /** The 1001st draw fits: `getLoot` gives up on the loot. */
  lemma {:induction false} LootGiveUp(table: Table, weights: seq<int>, maxWeight: int, source: nat -> nat, k: nat, lootValue: int, tries: nat)
    requires Drawable(weights, table) && lootValue < maxWeight && tries <= MaxTries
    requires weights[IntAt(source, k, |weights|)] <= maxWeight - lootValue && tries == MaxTries
    ensures LootDrawing(table, weights, maxWeight, source, k, lootValue, tries)
      == Run([], [], k + 1)
  {
  }

  /** The inner loop ends with `tries` other than 1000: the group drawn is taken. */
  lemma {:induction false} LootTake(table: Table, weights: seq<int>, maxWeight: int, source: nat -> nat, k: nat, lootValue: int, tries: nat)
    requires Drawable(weights, table) && lootValue < maxWeight && tries <= MaxTries
    requires (weights[IntAt(source, k, |weights|)] > maxWeight - lootValue) == (tries == MaxTries)
    ensures LootDrawing(table, weights, maxWeight, source, k, lootValue, tries)
      == Took(Pick(table, weights[IntAt(source, k, |weights|)], source, k + 1), weights[IntAt(source, k, |weights|)],
           Loot(table, weights, maxWeight, source, k + 2, lootValue + weights[IntAt(source, k, |weights|)]))
  {
  }

  /** A weight that does not fit is drawn again while tries are left (`LootCorrectedDrawing`). */
  lemma {:induction false} LootCorrectedRetry(table: Table, weights: seq<int>, maxWeight: int, source: nat -> nat, k: nat, lootValue: int, tries: nat)
    requires Drawable(weights, table) && lootValue < maxWeight && tries <= MaxTries
    requires weights[IntAt(source, k, |weights|)] > maxWeight - lootValue && tries < MaxTries
    ensures LootCorrectedDrawing(table, weights, maxWeight, source, k, lootValue, tries)
      == LootCorrectedDrawing(table, weights, maxWeight, source, k + 1, lootValue, tries + 1)
  {
  }

  /** The 1001st draw does not fit either: the corrected loot ends. */
  lemma {:induction false} LootCorrectedGiveUp(table: Table, weights: seq<int>, maxWeight: int, source: nat -> nat, k: nat, lootValue: int, tries: nat)
    requires Drawable(weights, table) && lootValue < maxWeight && tries <= MaxTries
    requires weights[IntAt(source, k, |weights|)] > maxWeight - lootValue && tries == MaxTries
    ensures LootCorrectedDrawing(table, weights, maxWeight, source, k, lootValue, tries)
      == Run([], [], k + 1)
  {
  }

  /** A weight that fits is taken. */
  lemma {:induction false} LootCorrectedTake(table: Table, weights: seq<int>, maxWeight: int, source: nat -> nat, k: nat, lootValue: int, tries: nat)
    requires Drawable(weights, table) && lootValue < maxWeight && tries <= MaxTries
    requires weights[IntAt(source, k, |weights|)] <= maxWeight - lootValue
    ensures LootCorrectedDrawing(table, weights, maxWeight, source, k, lootValue, tries)
      == Took(Pick(table, weights[IntAt(source, k, |weights|)], source, k + 1), weights[IntAt(source, k, |weights|)],
           LootCorrected(table, weights, maxWeight, source, k + 2, lootValue + weights[IntAt(source, k, |weights|)]))
  {
  }

  /** Draws that are too heavy only count tries (`LootDrawing`). */
  lemma {:induction false} LootSkip(table: Table, weights: seq<int>, maxWeight: int, source: nat -> nat,
                                    k: nat, lootValue: int, tries: nat, n: nat)
    requires Drawable(weights, table) && lootValue < maxWeight && tries + n <= MaxTries
    requires Misses(weights, maxWeight - lootValue, source, k, k + n)
    ensures LootDrawing(table, weights, maxWeight, source, k, lootValue, tries)
      == LootDrawing(table, weights, maxWeight, source, k + n, lootValue, tries + n)
    decreases n
  {
    if n > 0 {
      LootRetry(table, weights, maxWeight, source, k, lootValue, tries);
      LootSkip(table, weights, maxWeight, source, k + 1, lootValue, tries + 1, n - 1);
    }
  }

  /** Draws that are too heavy only count tries (`LootCorrectedDrawing`). */
  lemma {:induction false} LootCorrectedSkip(table: Table, weights: seq<int>, maxWeight: int, source: nat -> nat,
                                    k: nat, lootValue: int, tries: nat, n: nat)
    requires Drawable(weights, table) && lootValue < maxWeight && tries + n <= MaxTries
    requires Misses(weights, maxWeight - lootValue, source, k, k + n)
    ensures LootCorrectedDrawing(table, weights, maxWeight, source, k, lootValue, tries)
      == LootCorrectedDrawing(table, weights, maxWeight, source, k + n, lootValue, tries + n)
    decreases n
  {
    if n > 0 {
      LootCorrectedRetry(table, weights, maxWeight, source, k, lootValue, tries);
      LootCorrectedSkip(table, weights, maxWeight, source, k + 1, lootValue, tries + 1, n - 1);
    }
  }

  /** Adding the item of `Took` to the loot leaves the loot still to come. */
  lemma TookAppend(loot: seq<int>, item: int, weight: int, after: Run)
    ensures (loot + [item]) + after.items == loot + Took(item, weight, after).items
  {
  }

  lemma NonEmpty(s: set<int>)
    requires |s| > 0
    ensures exists x :: x in s
  {
    if forall x :: x !in s {
      assert false;
    }
  }
}
