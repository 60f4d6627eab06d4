# LootTable, modelled in Dafny

This project models the `LootTable` class of the CommonLibrary Wurm Unlimited
mod library. A loot table maps group weights to lists of item template ids.
The model covers:

- `getLoot(maxWeight)`: the random draw of item templates worth up to a weight budget;
- `generateCoins(moneyPool)` and `createCoins`: the greedy split of an amount of money into
  coin templates, over a fixed ladder of twelve coin kinds;
- `randomRarity`: three rolls that pick a rarity tier;
- the chance setters, which validate their argument;
- the constructor, which copies the table it is given.

Files:

- `random.dfy`, module `Randomness`. It models the library's shared
  `java.util.Random` as an oracle. The k-th raw value the generator hands out is
  `source(k)`, and the class `Random` counts how many values it has handed out.
  - `nextInt(b)` is `source(k) % b`.
  - `nextFloat()` is `(source(k) % 2^24) / 2^24`, the 2^-24 grid Java's floats
    are drawn on.
- `coins.dfy`, module `Coins`.
  - The coin constants and the ladder of (template, face value) pairs that
    `generateCoins` walks through.
  - `CreateCoins`, the loop of `createCoins`.
  - `GenerateCoins`, kept as the source's twelve straight-line steps.
  - The specification function `Greedy`. It is defined over any ladder, with
    Java's truncating `%` written out as `JavaRem`.
  - Proofs about the greedy coins over a divisibility chain (each face value
    divisible by the next):
    - they are worth the pool, when the chain ends in a coin of value 1 and
      the pool is not negative;
    - they come out largest first;
    - no list of coins of the chain worth the same amount is shorter.
  - Proofs that the source's ladder is such a chain, and bounds on how many
    coins of each kind can appear.
- `loot_table.dfy`, module `LootTables`.
  - The class `LootTable`, with its three chances, its table, and the order
    in which the table hands out its keys.
  - `GetLoot`, proved against the specification function `Loot`. `Loot` is
    mutually recursive with `LootDrawing`, the inner retry loop.
  - The rarity roll and the setters.
  - A corrected `getLoot` (`GetLootCorrected`, specified by `LootCorrected`).
    It ends the loot exactly when the inner loop gives up. Properties of both
    are proved; see "## Findings".

The table's key order (`HashMap.keySet().toArray()`) is not specified by Java.
The model keeps it as the field `keys`, which lists every key of the table
exactly once (`KeyOrder`). The copy loop of the constructor chooses it.

Where the code departs from its Javadoc, the model follows the code:

- `getLoot`'s Javadoc (LootTable.java:50) calls `maxWeight` the maximum
  amount of weight the items will be worth. The code can nevertheless return
  loot worth more than `maxWeight` (`LootBudget`, `LootAllTooHeavy`): when
  every group is heavier than `maxWeight`, it still returns one item.
- The Javadoc of `randomRarity` (LootTable.java:147-149) gives each tier a
  chance in [0..1]. A chance of 0 does not make its tier impossible, because
  `nextFloat()` can return exactly 0 and the test is `<=` (`ZeroChanceCanHit`).

Behaviour the Javadoc does not mention, modelled as the code has it:

- A negative `maxWeight` or a negative money pool gives an empty list, not an
  error (`LootMembers`, `GreedyOnLadder`).
- The constructor accepts an empty table.

## Model

| member | source | states |
|---|---|---|
| Coins.LadderRungs | src/main/java/org/tyoda/wurmunlimited/mods/CommonLibrary/LootTable.java:19-30 | The unfolding of the constant `Coins.Ladder` that `GenerateCoins` and the coin bounds use: the ladder holds the twelve coin kinds in the order `generateCoins` visits them: templates 61, 57, 53, 60, 56, 52, 58, 54, 50, 59, 55, 51, paired with the constants goldTwenty down to ironPenny |
| Coins.LadderIsChain | src/main/java/org/tyoda/wurmunlimited/mods/CommonLibrary/LootTable.java:19-30 | The ladder is a divisibility chain: distinct templates, strictly decreasing face values, each divisible by the next, and the last one is 1 |
| Coins.JavaRem | src/main/java/org/tyoda/wurmunlimited/mods/CommonLibrary/LootTable.java:83 | Java's `%=`: the remainder has the dividend's sign, a magnitude below the divisor, and differs from the dividend by a multiple of the divisor |
| Coins.CoinCount | src/main/java/org/tyoda/wurmunlimited/mods/CommonLibrary/LootTable.java:119-126 | The number of coins `createCoins` emits is the largest n with n*steps <= pool, or 0 for a negative pool |
| Coins.CreateCoins | src/main/java/org/tyoda/wurmunlimited/mods/CommonLibrary/LootTable.java:119-126 | The loop emits exactly `CoinCount(moneyPool, steps)` copies of the template and nothing else |
| Coins.Greedy | src/main/java/org/tyoda/wurmunlimited/mods/CommonLibrary/LootTable.java:77-118 | Every coin of the greedy decomposition is a template of the ladder |
| Coins.GenerateCoins | src/main/java/org/tyoda/wurmunlimited/mods/CommonLibrary/LootTable.java:77-118 | The twelve createCoins/`%=` steps compute exactly the greedy decomposition of the pool over the ladder |
| Coins.GreedyOnLadder | src/main/java/org/tyoda/wurmunlimited/mods/CommonLibrary/LootTable.java:71-118 | The coins of `generateCoins` are worth the pool when it is not negative, empty when it is <= 0, largest face value first, and no list of ladder coins worth the pool is shorter |
| Coins.GreedyTotal | src/main/java/org/tyoda/wurmunlimited/mods/CommonLibrary/LootTable.java:77-126 | Round trip: over a divisibility chain ending in 1, the greedy coins of a non-negative pool are worth exactly the pool |
| Coins.GreedyNonPositive | src/main/java/org/tyoda/wurmunlimited/mods/CommonLibrary/LootTable.java:77-126 | A pool of zero or less gives no coins, over any ladder |
| Coins.GreedyIsMinimal | src/main/java/org/tyoda/wurmunlimited/mods/CommonLibrary/LootTable.java:71-76 | Fewest coins: over a divisibility chain, no list of ladder coins is shorter than the greedy coins for its own total |
| Coins.GreedyDescending | src/main/java/org/tyoda/wurmunlimited/mods/CommonLibrary/LootTable.java:77-118 | Over a divisibility chain, the greedy coins come out with non-increasing face values |
| Coins.GreedyGroupBound | src/main/java/org/tyoda/wurmunlimited/mods/CommonLibrary/LootTable.java:82-115 | For every kind after the first, the coins of that kind are worth less than one coin of the kind before it |
| Coins.FiveCoinBound | src/main/java/org/tyoda/wurmunlimited/mods/CommonLibrary/LootTable.java:84-113 | `generateCoins` emits at most 3 gold-five, silver-five, copper-five or iron-five coins |
| Coins.OneOrTwentyCoinBound | src/main/java/org/tyoda/wurmunlimited/mods/CommonLibrary/LootTable.java:87-115 | `generateCoins` emits at most 4 coins of each one or twenty kind after gold-twenty |
| Randomness.IntAt | src/main/java/org/tyoda/wurmunlimited/mods/CommonLibrary/LootTable.java:62-65 | A `nextInt(bound)` result lies in [0, bound) |
| Randomness.FloatAt | src/main/java/org/tyoda/wurmunlimited/mods/CommonLibrary/LootTable.java:154-156 | A `nextFloat()` result lies in [0, 1) on the 2^-24 grid |
| Randomness.Random.constructor | src/main/java/org/tyoda/wurmunlimited/mods/CommonLibrary/CommonLibrary.java:9 | The shared generator starts with no values handed out |
| Randomness.Random.NextInt | src/main/java/org/tyoda/wurmunlimited/mods/CommonLibrary/LootTable.java:62-65 | Each call returns the next raw value reduced to [0, bound) and advances the generator by one |
| Randomness.Random.NextFloat | src/main/java/org/tyoda/wurmunlimited/mods/CommonLibrary/LootTable.java:154-156 | Each call returns the next raw value as a float in [0, 1) and advances the generator by one |
| LootTables.CopyTable | src/main/java/org/tyoda/wurmunlimited/mods/CommonLibrary/LootTable.java:42-47 | The copy loop yields the same groups under the same keys, and an order that lists each key once |
| LootTables.LootTable.constructor | src/main/java/org/tyoda/wurmunlimited/mods/CommonLibrary/LootTable.java:32-47 | The new table holds the given groups under their keys, the key order is valid, and the chances are 0.0001, 0.00001 and 0.000001 |
| LootTables.Pick | src/main/java/org/tyoda/wurmunlimited/mods/CommonLibrary/LootTable.java:65 | The item picked from a group is a member of that group |
| LootTables.Loot | src/main/java/org/tyoda/wurmunlimited/mods/CommonLibrary/LootTable.java:56-67 | The outer loop of `getLoot` as a function of the raw draws: it returns one item per group weight and never goes back in the draws. Its further properties are the lemmas `LootMembers`, `LootBudget`, `LootAllTooHeavy` and `LootAbandonsFit` |
| LootTables.LootDrawing | src/main/java/org/tyoda/wurmunlimited/mods/CommonLibrary/LootTable.java:60-66 | The retry loop with the `tries++ < 1000` / `tries == 1000` test, and the pick after it: one item per group weight, and at least one draw made. Its further properties are the lemmas `LootMembers`, `LootBudget`, `LootAllTooHeavy` and `LootAbandonsFit` |
| LootTables.LootCorrected | src/main/java/org/tyoda/wurmunlimited/mods/CommonLibrary/LootTable.java:56-67 | The outer loop as evidently intended: one item per group weight, never going back in the draws. Its further properties are the lemmas `LootCorrectedWithinBudget` and `LootCorrectedTakesFit` |
| LootTables.LootCorrectedDrawing | src/main/java/org/tyoda/wurmunlimited/mods/CommonLibrary/LootTable.java:60-66 | The retry loop as evidently intended, ending the loot only on a weight that does not fit: one item per group weight, and at least one draw made. Its further properties are the lemmas `LootCorrectedWithinBudget` and `LootCorrectedTakesFit` |
| LootTables.DrawWeight | src/main/java/org/tyoda/wurmunlimited/mods/CommonLibrary/LootTable.java:60-62 | The retry loop makes 1 to 1001 draws. All but the last are too heavy. The weight is that of the last draw. A too heavy final weight means all 1001 draws were used. `tries` counts the too heavy draws |
| LootTables.DrawGroup | src/main/java/org/tyoda/wurmunlimited/mods/CommonLibrary/LootTable.java:57-65 | One outer turn either stops as `LootDrawing` does (tries == 1000) or picks an item and leaves the rest of the run to `Loot` |
| LootTables.DrawGroupCorrected | src/main/java/org/tyoda/wurmunlimited/mods/CommonLibrary/LootTable.java:57-65 | One corrected outer turn either stops on a weight that does not fit or picks an item, as `LootCorrectedDrawing` does |
| LootTables.LootTable.GetLoot | src/main/java/org/tyoda/wurmunlimited/mods/CommonLibrary/LootTable.java:53-69 | `getLoot` returns the items of `Loot` for its table and key order, and consumes exactly the draws `Loot` accounts for |
| LootTables.LootTable.GetLootCorrected | src/main/java/org/tyoda/wurmunlimited/mods/CommonLibrary/LootTable.java:53-69 | The corrected `getLoot` returns the items of `LootCorrected` and consumes exactly its draws |
| LootTables.LootMembers | src/main/java/org/tyoda/wurmunlimited/mods/CommonLibrary/LootTable.java:53-69 | Each returned item belongs to the group of the weight drawn for it; a budget <= 0 returns nothing and draws nothing |
| LootTables.LootBudget | src/main/java/org/tyoda/wurmunlimited/mods/CommonLibrary/LootTable.java:56-66 | Every item is chosen while the loot is still worth less than `maxWeight`, so the total is below `maxWeight` plus the heaviest group |
| LootTables.LootAllTooHeavy | src/main/java/org/tyoda/wurmunlimited/mods/CommonLibrary/LootTable.java:62-66 | When every group is heavier than a positive `maxWeight`, the loot is one item worth more than `maxWeight`, after 1002 draws |
| LootTables.LootAbandonsFit | src/main/java/org/tyoda/wurmunlimited/mods/CommonLibrary/LootTable.java:62-63 | When 1000 draws miss and the 1001st fits, the loot ends there with nothing more |
| LootTables.AbandonWitness | src/main/java/org/tyoda/wurmunlimited/mods/CommonLibrary/LootTable.java:62-63 | A concrete table and draws where `getLoot(5)` returns nothing although it drew a fitting group, while the corrected loop returns that group's item |
| LootTables.OvershootWitness | src/main/java/org/tyoda/wurmunlimited/mods/CommonLibrary/LootTable.java:62-66 | A concrete table where `getLoot(5)` returns an item worth 10 |
| LootTables.LootCorrectedWithinBudget | src/main/java/org/tyoda/wurmunlimited/mods/CommonLibrary/LootTable.java:53-69 | The corrected loop returns members of the groups drawn, worth at most `maxWeight` (nothing for a budget <= 0) |
| LootTables.LootCorrectedTakesFit | src/main/java/org/tyoda/wurmunlimited/mods/CommonLibrary/LootTable.java:62-66 | The corrected loop takes the first fitting weight after any number of misses up to 1000, with an item of its group |
| LootTables.Rarity | src/main/java/org/tyoda/wurmunlimited/mods/CommonLibrary/LootTable.java:152-158 | The tier is in 0..3. It is 0 exactly when no roll meets its chance, and 3 exactly when the fantastic roll does. Tier 1 and tier 2 each imply their roll met its chance. Any tier below 2 means the supreme roll missed |
| LootTables.ZeroChanceCanHit | src/main/java/org/tyoda/wurmunlimited/mods/CommonLibrary/LootTable.java:152-158 | With all chances 0, a roll of exactly 0 still yields a tier of at least 1 (the test is `<=`) |
| LootTables.RandomRarityWith | src/main/java/org/tyoda/wurmunlimited/mods/CommonLibrary/LootTable.java:152-158 | `randomRarity(r, s, f)` makes three float draws and returns `Rarity` of them |
| LootTables.LootTable.RandomRarity | src/main/java/org/tyoda/wurmunlimited/mods/CommonLibrary/LootTable.java:140-142 | `randomRarity()` is the rarity for the table's own chances |
| LootTables.LootTable.SetRareChance | src/main/java/org/tyoda/wurmunlimited/mods/CommonLibrary/LootTable.java:206-211 | Throws with its message exactly when the chance is outside [0, 1]; otherwise replaces the rare chance; nothing else changes |
| LootTables.LootTable.SetSupremeChance | src/main/java/org/tyoda/wurmunlimited/mods/CommonLibrary/LootTable.java:222-227 | Throws with its message exactly when the chance is outside [0, 1]; otherwise replaces the supreme chance; nothing else changes |
| LootTables.LootTable.SetFantasticChance | src/main/java/org/tyoda/wurmunlimited/mods/CommonLibrary/LootTable.java:238-243 | Throws with its message exactly when the chance is outside [0, 1]; otherwise replaces the fantastic chance; nothing else changes |
| LootTables.LootTable.SetRarityChances | src/main/java/org/tyoda/wurmunlimited/mods/CommonLibrary/LootTable.java:252-263 | All or nothing: all three chances are replaced when each is in [0, 1], otherwise none is and it throws its message |

## Left out

- `randomQuality` (LootTable.java:132-134) returns the `float` sum
  `random.nextInt(100) + random.nextFloat()`. That sum is rounded to `float`,
  so `99 + nextFloat()` can round up to `100.0f`. Only a model of IEEE `float`
  arithmetic would capture this, and this model keeps no floats.
- Both `createItems` overloads: they call the game server's item factory and
  `Collections.shuffle`, which are outside this model.
- The getters `getRareChance`, `getSupremeChance` and `getFantasticChance`: they
  are plain field reads, and the model's fields are public.
- Logging (`logger.severe` in `setRarityChances`) is not modelled.
- `float` chances are modelled as `real`. Rounding of the literals (for example,
  0.0001f is not exactly 0.0001) and NaN arguments are not modelled. Java lets a
  NaN chance through the `< 0 || > 1` test.
- Randomness.Random.NextInt: it reduces the raw value modulo the bound. Java's rejection
  sampling, and so the exact distribution, is not modelled. The model covers
  every sequence of draws, not their probabilities.
- The shared static `random` of the library is passed to the methods that draw
  from it as a parameter.
- `int` overflow is not modelled. The loot value, the weights and the money pool
  are unbounded integers.
- LootTables.LootTable.GetLoot: it requires, for a positive budget, a non-empty table
  with positive weights and non-empty groups (`Drawable`). Otherwise the Java
  code throws (`nextInt(0)`, a missing or empty group) or never ends (weights
  of zero or less keep `lootValue` from growing).
- LootTables.LootTable.constructor: groups are copied as values. The aliasing that the
  list copy avoids is therefore not observable, and neither is outside
  mutation of the public `lootTable` field. Java's `lootTable` is `final`, and
  the model's `lootTable` and `keys` are `const`, fixed by the constructor. The
  model therefore does not capture `put` or `remove` on the map's contents
  after construction.
- HashMap order: the key order is one unspecified permutation, fixed at
  construction (the table is never changed afterwards, so `keySet()` hands
  the keys out in the same order on every turn of `getLoot`).

## Findings

| source | as written | input that shows it | evidently intended | confidence | as-written member | corrected member |
|---|---|---|---|---|---|---|
| src/main/java/org/tyoda/wurmunlimited/mods/CommonLibrary/LootTable.java:62-63 | When all 1001 draws of a turn are too heavy, `tries++` ends at 1001, so `tries == 1000` is false and the too heavy group is added | table {10: [7]}, `getLoot(5)`: returns [7], worth 10 | stop the loot when no fitting weight was found, so the loot never exceeds `maxWeight` | not executed | LootTables.OvershootWitness | LootTables.LootCorrectedWithinBudget |
| src/main/java/org/tyoda/wurmunlimited/mods/CommonLibrary/LootTable.java:62-63 | When 1000 draws miss and the 1001st fits, `tries` is exactly 1000 and the loot is abandoned although a fitting group was drawn | table {10: [7], 1: [8]}, `getLoot(5)`, draws picking 10 a thousand times and then 1: returns [] | take the fitting group | not executed | LootTables.AbandonWitness | LootTables.LootCorrectedTakesFit |
