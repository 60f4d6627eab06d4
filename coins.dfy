/** Coin generation of the loot table: the fixed ladder of twelve coin kinds
    and the greedy decomposition of a money pool into coin template ids. */
module Coins {

  // Face values of the twelve coin kinds, counted in iron.
  const IronPenny: Face := 1
  const IronFive: Face := 5
  const IronTwenty: Face := 20
  const CopperPenny: Face := IronPenny * 100
  const CopperFive: Face := IronFive * 100
  const CopperTwenty: Face := IronTwenty * 100
  const SilverPenny: Face := CopperPenny * 100
  const SilverFive: Face := CopperFive * 100
  const SilverTwenty: Face := CopperTwenty * 100
  const GoldPenny: Face := SilverPenny * 100
  const GoldFive: Face := SilverFive * 100
  const GoldTwenty: Face := SilverTwenty * 100

  /** A face value: a positive amount of iron. */
  type Face = v: int | v > 0 witness 1

  /** One rung of the ladder: the item template of a coin kind and its face value. */
  datatype Coin = Coin(template: int, value: Face)

  /** The coin kinds in the order the generator visits them, largest first
      (the face values are the constants above, written out). */
  const Ladder: seq<Coin> := [
    Coin(61, GoldTwenty), Coin(57, GoldFive), Coin(53, GoldPenny),
    Coin(60, SilverTwenty), Coin(56, SilverFive), Coin(52, SilverPenny),
    Coin(58, CopperTwenty), Coin(54, CopperFive), Coin(50, CopperPenny),
    Coin(59, IronTwenty), Coin(55, IronFive), Coin(51, IronPenny)
  ]

  // ---------------------------------------------------------------------------
  // Ladders and coin sequences

  /** The templates of the coin kinds of the ladder. */
  function Kinds(ladder: seq<Coin>): set<int>
    decreases |ladder|
  {
    if ladder == [] then {} else {ladder[0].template} + Kinds(ladder[1..])
  }

  /** A divisibility chain: every coin kind occurs once, and each face value
      is larger than the next one and divisible by it (1 | 5 | 20 | 100 | ...). */
  predicate Chain(ladder: seq<Coin>)
    decreases |ladder|
  {
    ladder == [] ||
    (&& ladder[0].template !in Kinds(ladder[1..])
     && (|ladder| > 1 ==> ladder[1].value < ladder[0].value && ladder[0].value % ladder[1].value == 0)
     && Chain(ladder[1..]))
  }

  /** Every element of `s` is the template of some coin kind of the ladder. */
  predicate Over(s: seq<int>, ladder: seq<Coin>) {
    forall i | 0 <= i < |s| :: s[i] in Kinds(ladder)
  }

  /** The coins of `s` come largest face value first. */
  predicate Descending(s: seq<int>, ladder: seq<Coin>) {
    forall i, j | 0 <= i < j < |s| :: ValueOf(s[i], ladder) >= ValueOf(s[j], ladder)
  }

  /** The face value of template `t`; zero for a template that is not a coin. */
  function ValueOf(t: int, ladder: seq<Coin>): nat {
    if ladder == [] then 0
    else if ladder[0].template == t then ladder[0].value
    else ValueOf(t, ladder[1..])
  }

  /** The money the coins `s` are worth. */
  function Total(s: seq<int>, ladder: seq<Coin>): nat {
    if s == [] then 0 else ValueOf(s[0], ladder) + Total(s[1..], ladder)
  }

  function Repeat(t: int, n: nat): (s: seq<int>)
    ensures |s| == n
    ensures forall i | 0 <= i < n :: s[i] == t
  {
    if n == 0 then [] else [t] + Repeat(t, n - 1)
  }

  /** `s` with every occurrence of `t` removed. */
  function Without(s: seq<int>, t: int): seq<int> {
    if s == [] then []
    else if s[0] == t then Without(s[1..], t)
    else [s[0]] + Without(s[1..], t)
  }

  // ---------------------------------------------------------------------------
  // Java integer arithmetic used by the generator

  /** Java's `%` on `int`: the remainder truncates toward zero, so it takes the
      sign of the dividend. */
  function JavaRem(a: int, b: int): (r: int)
    requires b > 0
    ensures a >= 0 ==> 0 <= r < b
    ensures a < 0 ==> -b < r <= 0
    ensures (a - r) % b == 0
  {
    if a >= 0 then
      DivModUnique(a - a % b, b, a / b, 0);
      a % b
    else
      DivModUnique(a + (-a) % b, b, -((-a) / b), 0);
      -((-a) % b)
  }

  /** The number of coins of face value `step` that `createCoins` emits for
      `pool`: the most that fit into the pool, and none for a negative pool. */
  function CoinCount(pool: int, step: int): (n: nat)
    requires step > 0
    ensures pool >= 0 ==> n * step <= pool < (n + 1) * step
    ensures pool < 0 ==> n == 0
  {
    if pool >= 0 then pool / step else 0
  }

  // ---------------------------------------------------------------------------
  // The generator

  /** `createCoins`: repeatedly take one coin of value `steps` out of the pool
      while it still holds at least that much. */
  method CreateCoins(templateId: int, moneyPool: int, steps: int) returns (coins: seq<int>)
    requires steps > 0
    ensures coins == Repeat(templateId, CoinCount(moneyPool, steps))
  {
    coins := [];
    var pool := moneyPool;
    while pool >= steps
      invariant coins == Repeat(templateId, |coins|)
      invariant pool == moneyPool - |coins| * steps
      invariant moneyPool >= 0 ==> pool >= 0
      invariant moneyPool < 0 ==> coins == []
      decreases pool
    {
      coins := coins + [templateId];
      pool := pool - steps;
    }
    if moneyPool >= 0 {
      DivModUnique(moneyPool, steps, |coins|, pool);
    }
  }

  /** The greedy decomposition the generator computes, over any ladder: take as
      many coins of the first kind as fit, then continue with the remainder
      (Java's `%`) on the rest of the ladder. */
  function Greedy(pool: int, ladder: seq<Coin>): (coins: seq<int>)
    ensures Over(coins, ladder)
    decreases |ladder|
  {
    if ladder == [] then []
    else
      var rest := Greedy(JavaRem(pool, ladder[0].value), ladder[1..]);
      Repeat(ladder[0].template, CoinCount(pool, ladder[0].value)) + rest
  }

  /** The pool left after the first `k` rungs of the greedy decomposition. */
  function Left(pool: int, ladder: seq<Coin>, k: nat): int
    requires k <= |ladder|
  {
    if k == 0 then pool else JavaRem(Left(pool, ladder, k - 1), ladder[k - 1].value)
  }

  /** The coins of the first `k` rungs of the greedy decomposition. */
  function Taken(pool: int, ladder: seq<Coin>, k: nat): seq<int>
    requires k <= |ladder|
  {
    if k == 0 then []
    else
      var p := Left(pool, ladder, k - 1);
      Taken(pool, ladder, k - 1) + Repeat(ladder[k - 1].template, CoinCount(p, ladder[k - 1].value))
  }

  /** `generateCoins`: the coins for `moneyPool`, largest kind first. */
  method GenerateCoins(moneyPool: int) returns (coins: seq<int>)
    ensures coins == Greedy(moneyPool, Ladder)
  {
    LadderRungs();
    var pool := moneyPool;
    var more: seq<int>;
    coins := [];
    assert coins == Taken(moneyPool, Ladder, 0) && pool == Left(moneyPool, Ladder, 0);
    var currentItemTemplate := 61; // gold-twenty coins
    more := CreateCoins(currentItemTemplate, pool, GoldTwenty);
    coins := coins + more;
    pool := JavaRem(pool, GoldTwenty);
    assert coins == Taken(moneyPool, Ladder, 1) && pool == Left(moneyPool, Ladder, 1);
    currentItemTemplate := 57; // gold-five coins
    more := CreateCoins(currentItemTemplate, pool, GoldFive);
    coins := coins + more;
    pool := JavaRem(pool, GoldFive);
    assert coins == Taken(moneyPool, Ladder, 2) && pool == Left(moneyPool, Ladder, 2);
    currentItemTemplate := 53; // gold coins
    more := CreateCoins(currentItemTemplate, pool, GoldPenny);
    coins := coins + more;
    pool := JavaRem(pool, GoldPenny);
    assert coins == Taken(moneyPool, Ladder, 3) && pool == Left(moneyPool, Ladder, 3);
    currentItemTemplate := 60; // silver-twenty coins
    more := CreateCoins(currentItemTemplate, pool, SilverTwenty);
    coins := coins + more;
    pool := JavaRem(pool, SilverTwenty);
    assert coins == Taken(moneyPool, Ladder, 4) && pool == Left(moneyPool, Ladder, 4);
    currentItemTemplate := 56; // silver-five coins
    more := CreateCoins(currentItemTemplate, pool, SilverFive);
    coins := coins + more;
    pool := JavaRem(pool, SilverFive);
    assert coins == Taken(moneyPool, Ladder, 5) && pool == Left(moneyPool, Ladder, 5);
    currentItemTemplate := 52; // silver coins
    more := CreateCoins(currentItemTemplate, pool, SilverPenny);
    coins := coins + more;
    pool := JavaRem(pool, SilverPenny);
    assert coins == Taken(moneyPool, Ladder, 6) && pool == Left(moneyPool, Ladder, 6);
    currentItemTemplate := 58; // copper-twenty coins
    more := CreateCoins(currentItemTemplate, pool, CopperTwenty);
    coins := coins + more;
    pool := JavaRem(pool, CopperTwenty);
    assert coins == Taken(moneyPool, Ladder, 7) && pool == Left(moneyPool, Ladder, 7);
    currentItemTemplate := 54; // copper-five coins
    more := CreateCoins(currentItemTemplate, pool, CopperFive);
    coins := coins + more;
    pool := JavaRem(pool, CopperFive);
    assert coins == Taken(moneyPool, Ladder, 8) && pool == Left(moneyPool, Ladder, 8);
    currentItemTemplate := 50; // copper coins
    more := CreateCoins(currentItemTemplate, pool, CopperPenny);
    coins := coins + more;
    pool := JavaRem(pool, CopperPenny);
    assert coins == Taken(moneyPool, Ladder, 9) && pool == Left(moneyPool, Ladder, 9);
    currentItemTemplate := 59; // iron-twenty coins
    more := CreateCoins(currentItemTemplate, pool, IronTwenty);
    coins := coins + more;
    pool := JavaRem(pool, IronTwenty);
    assert coins == Taken(moneyPool, Ladder, 10) && pool == Left(moneyPool, Ladder, 10);
    currentItemTemplate := 55; // iron-five coins
    more := CreateCoins(currentItemTemplate, pool, IronFive);
    coins := coins + more;
    pool := JavaRem(pool, IronFive);
    assert coins == Taken(moneyPool, Ladder, 11) && pool == Left(moneyPool, Ladder, 11);
    currentItemTemplate := 51; // iron coins
    more := CreateCoins(currentItemTemplate, pool, IronPenny);
    coins := coins + more;
    assert coins == Taken(moneyPool, Ladder, 12);
    GreedyTaken(moneyPool, Ladder);
  }

  /** What the generator's coins satisfy: they are worth the pool, there are
      none for a pool of zero or less, they come largest face value first, and
      no coins of the ladder worth the pool are fewer. */
  lemma GreedyOnLadder(moneyPool: int)
    ensures var coins := Greedy(moneyPool, Ladder);
      && (moneyPool >= 0 ==> Total(coins, Ladder) == moneyPool)
      && (moneyPool <= 0 ==> coins == [])
      && Descending(coins, Ladder)
      && forall s | Over(s, Ladder) && Total(s, Ladder) == moneyPool :: |coins| <= |s|
  {
    LadderIsChain();
    GreedyDescending(moneyPool, Ladder);
    if moneyPool >= 0 {
      GreedyTotal(moneyPool, Ladder);
    } else {
      GreedyNonPositive(moneyPool, Ladder);
    }
    forall s | Over(s, Ladder) && Total(s, Ladder) == moneyPool
      ensures |Greedy(moneyPool, Ladder)| <= |s|
    {
      GreedyIsMinimal(s, Ladder);
    }
  }

  // ---------------------------------------------------------------------------
  // The fixed ladder

  /** The ladder of the source is a divisibility chain ending in the one-iron coin. */
  lemma LadderIsChain()
    ensures Chain(Ladder) && Ladder[|Ladder| - 1].value == 1
  {
    GoldRungs();
    assert Ladder[0..] == Ladder;
  }

  /** The rungs of the ladder, one by one. */
  lemma LadderRungs()
    ensures |Ladder| == 12
    ensures && Ladder[0] == Coin(61, GoldTwenty) && Ladder[1] == Coin(57, GoldFive)
            && Ladder[2] == Coin(53, GoldPenny) && Ladder[3] == Coin(60, SilverTwenty)
            && Ladder[4] == Coin(56, SilverFive) && Ladder[5] == Coin(52, SilverPenny)
            && Ladder[6] == Coin(58, CopperTwenty) && Ladder[7] == Coin(54, CopperFive)
            && Ladder[8] == Coin(50, CopperPenny) && Ladder[9] == Coin(59, IronTwenty)
            && Ladder[10] == Coin(55, IronFive) && Ladder[11] == Coin(51, IronPenny)
  {
  }

  /** The ladder from the iron coins down. */
  lemma IronRungs()
    ensures Chain(Ladder[9..]) && Kinds(Ladder[9..]) == {59, 55, 51}
  {
    ChainCons(Ladder[11], []);
    assert Ladder[11..] == [Ladder[11]] + [];
    ChainCons(Ladder[10], Ladder[11..]);
    assert Ladder[10..] == [Ladder[10]] + Ladder[11..];
    ChainCons(Ladder[9], Ladder[10..]);
    assert Ladder[9..] == [Ladder[9]] + Ladder[10..];
  }

  /** The ladder from the copper coins down. */
  lemma CopperRungs()
    ensures Chain(Ladder[6..]) && Kinds(Ladder[6..]) == {58, 54, 50, 59, 55, 51}
  {
    IronRungs();
    ChainCons(Ladder[8], Ladder[9..]);
    assert Ladder[8..] == [Ladder[8]] + Ladder[9..];
    ChainCons(Ladder[7], Ladder[8..]);
    assert Ladder[7..] == [Ladder[7]] + Ladder[8..];
    ChainCons(Ladder[6], Ladder[7..]);
    assert Ladder[6..] == [Ladder[6]] + Ladder[7..];
  }

  /** The ladder from the silver coins down. */
  lemma SilverRungs()
    ensures Chain(Ladder[3..]) && Kinds(Ladder[3..]) == {60, 56, 52, 58, 54, 50, 59, 55, 51}
  {
    CopperRungs();
    ChainCons(Ladder[5], Ladder[6..]);
    assert Ladder[5..] == [Ladder[5]] + Ladder[6..];
    ChainCons(Ladder[4], Ladder[5..]);
    assert Ladder[4..] == [Ladder[4]] + Ladder[5..];
    ChainCons(Ladder[3], Ladder[4..]);
    assert Ladder[3..] == [Ladder[3]] + Ladder[4..];
  }

  /** The ladder from the gold coins down. */
  lemma GoldRungs()
    ensures Chain(Ladder[0..])
  {
    SilverRungs();
    ChainCons(Ladder[2], Ladder[3..]);
    assert Ladder[2..] == [Ladder[2]] + Ladder[3..];
    ChainCons(Ladder[1], Ladder[2..]);
    assert Ladder[1..] == [Ladder[1]] + Ladder[2..];
    ChainCons(Ladder[0], Ladder[1..]);
    assert Ladder[0..] == [Ladder[0]] + Ladder[1..];
  }

  /** After the first kind, a coin of a five kind (gold-five 57, silver-five
      56, copper-five 54, iron-five 55) occurs at most three times. */
  lemma FiveCoinBound(pool: int, k: nat)
    requires k in {1, 4, 7, 10}
    ensures multiset(Greedy(pool, Ladder))[Ladder[k].template] <= 3
  {
    LadderIsChain();
    LadderRungs();
    GreedyGroupBound(pool, Ladder, k);
    assert Ladder[k - 1].value == 4 * Ladder[k].value;
    var c := multiset(Greedy(pool, Ladder))[Ladder[k].template];
    if c > 3 {
      MulLe(4, c, Ladder[k].value);
    }
  }

  /** After the first kind, a coin of a one or twenty kind (53, 60, 52, 58,
      50, 59, 51) occurs at most four times. */
  lemma OneOrTwentyCoinBound(pool: int, k: nat)
    requires k in {2, 3, 5, 6, 8, 9, 11}
    ensures multiset(Greedy(pool, Ladder))[Ladder[k].template] <= 4
  {
    LadderIsChain();
    LadderRungs();
    GreedyGroupBound(pool, Ladder, k);
    assert Ladder[k - 1].value == 5 * Ladder[k].value;
    var c := multiset(Greedy(pool, Ladder))[Ladder[k].template];
    if c > 4 {
      MulLe(5, c, Ladder[k].value);
    }
  }

  // ---------------------------------------------------------------------------
  // Properties of the greedy decomposition over a divisibility chain

  /** Round trip: the coins are worth exactly the pool. */
  lemma {:induction false} GreedyTotal(pool: int, ladder: seq<Coin>)
    requires Chain(ladder) && ladder != [] && ladder[|ladder| - 1].value == 1
    requires pool >= 0
    ensures Total(Greedy(pool, ladder), ladder) == pool
    decreases |ladder|
  {
    var t, v := ladder[0].template, ladder[0].value;
    var n := CoinCount(pool, v);
    var r := JavaRem(pool, v);
    var rest := Greedy(r, ladder[1..]);
    assert Greedy(pool, ladder) == Repeat(t, n) + rest;
    TotalConcat(Repeat(t, n), rest, ladder);
    TotalRepeat(t, n, ladder);
    assert ValueOf(t, ladder) == v;
    assert Total(rest, ladder) == r by {
      if |ladder| == 1 {
        assert v == 1 && rest == [];
      } else {
        GreedyTotal(r, ladder[1..]);
        TailAvoidsHead(rest, ladder);
        TotalSkipsHead(rest, ladder);
      }
    }
    DivModParts(pool, v);
  }

  /** A pool of zero or less (Java's `%` keeps a negative pool negative)
      yields no coins at all. */
  lemma {:induction false} GreedyNonPositive(pool: int, ladder: seq<Coin>)
    requires pool <= 0
    ensures Greedy(pool, ladder) == []
    decreases |ladder|
  {
    if ladder != [] {
      GreedyNonPositive(JavaRem(pool, ladder[0].value), ladder[1..]);
    }
  }

  /** Fewest coins: no sequence of coins of the ladder that is worth the same
      amount is shorter than the greedy one. */
  lemma {:induction false} GreedyIsMinimal(s: seq<int>, ladder: seq<Coin>)
    requires Chain(ladder) && Over(s, ladder)
    ensures |Greedy(Total(s, ladder), ladder)| <= |s|
    decreases |ladder|
  {
    if ladder != [] {
      var t, v := ladder[0].template, ladder[0].value;
      var c := multiset(s)[t];
      var s' := Without(s, t);
      SplitHead(s, ladder);
      SplitHeadTotal(s, ladder);
      var m := Total(s', ladder[1..]);
      var p := Total(s, ladder);
      assert p == m + c * v;
      var g := |Greedy(m % v, ladder[1..])|;
      assert |Greedy(p, ladder)| == c + m / v + g by {
        DivAddMultiple(m, c, v);
        GreedyLength(p, ladder);
      }
      GreedyIsMinimal(s', ladder[1..]);
      assert |Greedy(m, ladder[1..])| <= |s'|;
      if |ladder| == 1 {
        TotalEmptyLadder(s', ladder[1..]);
        assert m == 0;
      } else {
        assert ladder[1..][0] == ladder[1];
        GreedyShift(m, v, ladder[1..]);
      }
    }
  }

  /** The greedy coins are those of the first `k` rungs followed by the greedy
      coins of what is left on the remaining rungs. */
  lemma {:induction false} GreedySplit(pool: int, ladder: seq<Coin>, k: nat)
    requires k <= |ladder|
    ensures Taken(pool, ladder, k) + Greedy(Left(pool, ladder, k), ladder[k..]) == Greedy(pool, ladder)
  {
    if k > 0 {
      GreedySplit(pool, ladder, k - 1);
      var p := Left(pool, ladder, k - 1);
      GreedyStep(p, ladder[k - 1..]);
      assert ladder[k - 1..][1..] == ladder[k..];
    } else {
      assert ladder[0..] == ladder;
    }
  }

  /** All rungs taken: the greedy coins themselves. */
  lemma GreedyTaken(pool: int, ladder: seq<Coin>)
    ensures Taken(pool, ladder, |ladder|) == Greedy(pool, ladder)
  {
    GreedySplit(pool, ladder, |ladder|);
    assert ladder[|ladder|..] == [];
    assert Taken(pool, ladder, |ladder|) + [] == Taken(pool, ladder, |ladder|);
  }

  /** One rung of the greedy decomposition. */
  lemma GreedyStep(pool: int, ladder: seq<Coin>)
    requires ladder != []
    ensures Greedy(pool, ladder)
         == Repeat(ladder[0].template, CoinCount(pool, ladder[0].value))
            + Greedy(JavaRem(pool, ladder[0].value), ladder[1..])
  {
  }

  /** The length of the greedy coins: the coins of the first kind and then
      those of the remainder. */
  lemma GreedyLength(pool: int, ladder: seq<Coin>)
    requires ladder != []
    ensures |Greedy(pool, ladder)|
         == CoinCount(pool, ladder[0].value) + |Greedy(JavaRem(pool, ladder[0].value), ladder[1..])|
  {
  }

  /** The coins come out largest face value first. */
  lemma {:induction false} GreedyDescending(pool: int, ladder: seq<Coin>)
    requires Chain(ladder)
    ensures Descending(Greedy(pool, ladder), ladder)
    decreases |ladder|
  {
    if ladder != [] {
      var t, v := ladder[0].template, ladder[0].value;
      var n := CoinCount(pool, v);
      var rest := Greedy(JavaRem(pool, v), ladder[1..]);
      var coins := Repeat(t, n) + rest;
      assert coins == Greedy(pool, ladder);
      GreedyDescending(JavaRem(pool, v), ladder[1..]);
      assert Descending(rest, ladder[1..]);
      TailAvoidsHead(rest, ladder);
      forall i, j | 0 <= i < j < |coins|
        ensures ValueOf(coins[i], ladder) >= ValueOf(coins[j], ladder)
      {
        if n <= j {
          var b := rest[j - n];
          assert coins[j] == b && b != t && b in Kinds(ladder[1..]);
          assert ValueOf(b, ladder) == ValueOf(b, ladder[1..]);
          if i < n {
            assert coins[i] == t && ValueOf(t, ladder) == v;
            ValueOfMember(b, ladder[1..]);
            assert ladder[1..][0] == ladder[1];
          } else {
            var a := rest[i - n];
            assert coins[i] == a && a != t;
            assert ValueOf(a, ladder) == ValueOf(a, ladder[1..]);
            assert 0 <= i - n < j - n < |rest|;
            assert ValueOf(rest[i - n], ladder[1..]) >= ValueOf(rest[j - n], ladder[1..]);
          }
        } else {
          assert coins[i] == t && coins[j] == t;
        }
      }
    }
  }

  /** For every kind after the first, the coins of that kind are worth less
      than one coin of the kind before it. */
  lemma {:induction false} GreedyGroupBound(pool: int, ladder: seq<Coin>, k: nat)
    requires Chain(ladder) && 0 < k < |ladder|
    ensures multiset(Greedy(pool, ladder))[ladder[k].template] * ladder[k].value < ladder[k - 1].value
    decreases k
  {
    var t, v := ladder[0].template, ladder[0].value;
    var n := CoinCount(pool, v);
    var r := JavaRem(pool, v);
    var rest := Greedy(r, ladder[1..]);
    var x := ladder[k].template;
    assert Greedy(pool, ladder) == Repeat(t, n) + rest;
    assert ladder[1..][k - 1] == ladder[k];
    MemberAt(ladder[1..], k - 1);
    assert x != t;
    assert x !in Repeat(t, n);
    assert multiset(Greedy(pool, ladder))[x] == multiset(rest)[x];
    if k == 1 {
      GreedyHeadCount(r, ladder[1..]);
    } else {
      GreedyGroupBound(r, ladder[1..], k - 1);
      assert ladder[1..][k - 2] == ladder[k - 1];
    }
  }

  // ---------------------------------------------------------------------------
  // Helper lemmas

  /** One rung put in front of a chain: it must be new, larger than the old
      first rung and a multiple of it. */
  lemma ChainCons(c: Coin, ladder: seq<Coin>)
    requires Chain(ladder) && c.template !in Kinds(ladder)
    requires ladder != [] ==> ladder[0].value < c.value && c.value % ladder[0].value == 0
    ensures Chain([c] + ladder) && Kinds([c] + ladder) == {c.template} + Kinds(ladder)
  {
    assert ([c] + ladder)[1..] == ladder;
  }


  lemma {:induction false} MemberAt(ladder: seq<Coin>, k: nat)
    requires k < |ladder|
    ensures ladder[k].template in Kinds(ladder)
  {
    if k > 0 {
      MemberAt(ladder[1..], k - 1);
      assert ladder[1..][k - 1] == ladder[k];
    }
  }

  /** The coins of the tail of a ladder never include the ladder's first kind. */
  lemma TailAvoidsHead(s: seq<int>, ladder: seq<Coin>)
    requires ladder != [] && Chain(ladder) && Over(s, ladder[1..])
    ensures forall i | 0 <= i < |s| :: s[i] != ladder[0].template
    ensures ladder[0].template !in s
  {
  }

  lemma {:induction false} ValueOfMember(t: int, ladder: seq<Coin>)
    requires Chain(ladder) && t in Kinds(ladder)
    ensures 0 < ValueOf(t, ladder) <= ladder[0].value
    decreases |ladder|
  {
    if ladder[0].template != t {
      ValueOfMember(t, ladder[1..]);
    }
  }

  lemma {:induction false} RepeatCount(t: int, n: nat)
    ensures multiset(Repeat(t, n))[t] == n
  {
    if n > 0 {
      RepeatCount(t, n - 1);
    }
  }

  /** The greedy coins hold exactly `CoinCount` coins of the first kind. */
  lemma GreedyHeadCount(pool: int, ladder: seq<Coin>)
    requires Chain(ladder) && ladder != []
    ensures multiset(Greedy(pool, ladder))[ladder[0].template] == CoinCount(pool, ladder[0].value)
  {
    var t, v := ladder[0].template, ladder[0].value;
    var rest := Greedy(JavaRem(pool, v), ladder[1..]);
    RepeatCount(t, CoinCount(pool, v));
    TailAvoidsHead(rest, ladder);
    assert Greedy(pool, ladder) == Repeat(t, CoinCount(pool, v)) + rest;
  }

  lemma {:induction false} TotalConcat(a: seq<int>, b: seq<int>, ladder: seq<Coin>)
    ensures Total(a + b, ladder) == Total(a, ladder) + Total(b, ladder)
  {
    if a == [] {
      assert a + b == b;
    } else {
      assert (a + b)[1..] == a[1..] + b;
      TotalConcat(a[1..], b, ladder);
    }
  }

  lemma {:induction false} TotalRepeat(t: int, n: nat, ladder: seq<Coin>)
    ensures Total(Repeat(t, n), ladder) == n * ValueOf(t, ladder)
  {
    if n > 0 {
      TotalRepeat(t, n - 1, ladder);
    }
  }

  lemma {:induction false} TotalSkipsHead(s: seq<int>, ladder: seq<Coin>)
    requires ladder != [] && forall i | 0 <= i < |s| :: s[i] != ladder[0].template
    ensures Total(s, ladder) == Total(s, ladder[1..])
  {
    if s != [] {
      TotalSkipsHead(s[1..], ladder);
    }
  }

  lemma {:induction false} TotalEmptyLadder(s: seq<int>, ladder: seq<Coin>)
    requires ladder == []
    ensures Total(s, ladder) == 0
  {
    if s != [] {
      TotalEmptyLadder(s[1..], ladder);
    }
  }

  /** Split coins over a ladder into those of the first kind and the rest. */
  lemma {:induction false} SplitHead(s: seq<int>, ladder: seq<Coin>)
    requires ladder != [] && Over(s, ladder)
    ensures |s| == multiset(s)[ladder[0].template] + |Without(s, ladder[0].template)|
    ensures Over(Without(s, ladder[0].template), ladder[1..])
  {
    if s != [] {
      var t := ladder[0].template;
      assert s == [s[0]] + s[1..];
      assert Over(s[1..], ladder) by {
        forall i | 0 <= i < |s[1..]| ensures s[1..][i] in Kinds(ladder) {
          assert s[1..][i] == s[i + 1];
        }
      }
      SplitHead(s[1..], ladder);
      var w := Without(s[1..], t);
      if s[0] != t {
        var w' := [s[0]] + w;
        assert Without(s, t) == w';
        assert w'[0] == s[0] && w'[1..] == w;
        forall i | 0 <= i < |w'| ensures w'[i] in Kinds(ladder[1..]) {
          if i > 0 {
            assert w'[i] == w[i - 1];
          }
        }
      }
    }
  }

  /** The worth of coins over a ladder: that of the coins of the first kind
      plus that of the rest, valued on the rest of the ladder. */
  lemma {:induction false} SplitHeadTotal(s: seq<int>, ladder: seq<Coin>)
    requires ladder != [] && Over(s, ladder)
    ensures Total(s, ladder)
         == multiset(s)[ladder[0].template] * ladder[0].value
            + Total(Without(s, ladder[0].template), ladder[1..])
  {
    if s != [] {
      var t, v := ladder[0].template, ladder[0].value;
      assert s == [s[0]] + s[1..];
      assert Over(s[1..], ladder) by {
        forall i | 0 <= i < |s[1..]| ensures s[1..][i] in Kinds(ladder) {
          assert s[1..][i] == s[i + 1];
        }
      }
      SplitHeadTotal(s[1..], ladder);
      var w := Without(s[1..], t);
      var c := multiset(s[1..])[t];
      assert Total(s, ladder) == ValueOf(s[0], ladder) + Total(s[1..], ladder);
      if s[0] == t {
        assert Without(s, t) == w;
        assert multiset(s)[t] == c + 1 by {
          assert multiset(s) == multiset{t} + multiset(s[1..]);
        }
        assert ValueOf(s[0], ladder) == v;
        MulSucc(c, v);
      } else {
        var w' := [s[0]] + w;
        assert Without(s, t) == w';
        assert multiset(s)[t] == c;
        assert w'[0] == s[0] && w'[1..] == w;
        assert Total(w', ladder[1..]) == ValueOf(s[0], ladder[1..]) + Total(w, ladder[1..]);
      }
    }
  }

  /** Taking the pool modulo a multiple `big` of the first face value first
      saves at least one coin per `big` removed. */
  lemma GreedyShift(m: int, big: Face, ladder: seq<Coin>)
    requires ladder != [] && m >= 0 && big % ladder[0].value == 0
    ensures |Greedy(m, ladder)| >= |Greedy(m % big, ladder)| + m / big
  {
    var w := ladder[0].value;
    var r := m % big;
    ModOfMultiple(m, big, w);
    var x := |Greedy(JavaRem(r, w), ladder[1..])|;
    assert |Greedy(m, ladder)| == m / w + x by {
      GreedyLength(m, ladder);
      assert JavaRem(m, w) == JavaRem(r, w);
    }
    assert |Greedy(r, ladder)| == r / w + x by {
      GreedyLength(r, ladder);
    }
  }

  // ---------------------------------------------------------------------------
  // Arithmetic

  /** Dividing by `w` after reducing modulo a multiple `big` of `w`: the
      remainder is unchanged and each `big` removed held at least one `w`. */
  lemma ModOfMultiple(m: int, big: int, w: int)
    requires m >= 0 && w > 0 && big > 0 && big % w == 0
    ensures m % w == (m % big) % w
    ensures m / w >= (m % big) / w + m / big
  {
    var k := big / w;
    var j, r := m / big, m % big;
    assert big == k * w && k >= 1 by {
      DivModParts(big, w);
    }
    assert m == r + (j * k) * w by {
      DivModParts(m, big);
      assert j * big == j * (k * w) == (j * k) * w;
    }
    assert j >= 0 && j * k >= j by {
      MulLe(1, k, j);
    }
    DivAddMultiple(r, j * k, w);
  }

  lemma MulSucc(c: int, v: int)
    ensures (c + 1) * v == c * v + v
  {
  }

  lemma MulLe(x: int, y: int, b: nat)
    requires x <= y
    ensures x * b <= y * b
  {
  }

  lemma DivModParts(a: int, b: int)
    requires b > 0
    ensures (a / b) * b + a % b == a
  {
  }

  lemma DivModUnique(a: int, b: int, q: int, r: int)
    requires b > 0 && 0 <= r < b && a == q * b + r
    ensures a / b == q && a % b == r
  {
    var q0, r0 := a / b, a % b;
    if q0 < q {
      MulLe(q0 + 1, q, b);
    } else if q < q0 {
      MulLe(q + 1, q0, b);
    }
  }

  lemma DivAddMultiple(a: int, n: nat, b: int)
    requires a >= 0 && b > 0
    ensures (a + n * b) / b == a / b + n
    ensures (a + n * b) % b == a % b
  {
    DivModUnique(a + n * b, b, a / b + n, a % b);
  }
}
