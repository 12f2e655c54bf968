/** What the greedy split guarantees. */
module TierTheorems {
  import opened Base
  import opened Tiers

  // ---- Every list of positive tiers ---------------------------------------------------

  lemma {:induction false} SumCopies(x: int, n: nat)
    ensures Sum(Copies(x, n)) == n * x
  {
    TotalBounds(Copies(x, n), Value, x, x);
  }

  lemma RestIs(amount: int, tier: int)
    requires tier > 0
    ensures amount == Fits(amount, tier) * tier + Rest(amount, tier)
    ensures Rest(amount, tier) < tier
    ensures amount >= 0 ==> 0 <= Rest(amount, tier) && Fits(amount, tier) == amount / tier && Rest(amount, tier) == amount % tier
    ensures amount < 0 ==> Fits(amount, tier) == 0 && Rest(amount, tier) == amount
  {
    if 0 <= amount < tier {
      DivModUnique(amount, tier, 0, amount);
    }
  }

  /** Nothing is lost: the deposits and the remainder add up to the amount. */
  lemma {:induction false} PartsAddUp(amount: int, sorted: seq<int>)
    requires AllPositive(sorted)
    ensures Sum(Parts(amount, sorted)) + Remainder(amount, sorted) == amount
  {
    if sorted != [] {
      var tier := sorted[0];
      var rest := Rest(amount, tier);
      PartsAddUp(rest, sorted[1..]);
      TotalConcat(Copies(tier, Fits(amount, tier)), Parts(rest, sorted[1..]), Value);
      SumCopies(tier, Fits(amount, tier));
      RestIs(amount, tier);
    }
  }

  /** The remainder is smaller than every tier; a negative amount is returned untouched. */
  lemma {:induction false} RemainderIsSmall(amount: int, sorted: seq<int>)
    requires AllPositive(sorted) && Descending(sorted)
    ensures amount >= 0 ==> 0 <= Remainder(amount, sorted)
    ensures sorted != [] ==> Remainder(amount, sorted) < sorted[|sorted| - 1]
    ensures amount < 0 ==> Parts(amount, sorted) == [] && Remainder(amount, sorted) == amount
  {
    if sorted != [] {
      RestIs(amount, sorted[0]);
      RemainderIsSmall(Rest(amount, sorted[0]), sorted[1..]);
    }
  }

  lemma {:induction false} PartsAreDescending(amount: int, sorted: seq<int>)
    requires AllPositive(sorted) && Descending(sorted)
    ensures Descending(Parts(amount, sorted))
    ensures forall k :: 0 <= k < |Parts(amount, sorted)| ==> Parts(amount, sorted)[k] in sorted
  {
    if sorted != [] {
      var tier, rest := sorted[0], Rest(amount, sorted[0]);
      var tail := Parts(rest, sorted[1..]);
      PartsAreDescending(rest, sorted[1..]);
      forall k | 0 <= k < |tail| ensures tail[k] <= tier && tail[k] in sorted {
        assert tail[k] in sorted[1..];
      }
    }
  }

  /** What is left for a tier is less than the next larger tier, so the tier is used fewer
      times than it fits there. */
  lemma {:induction false} UsesBelowRatio(amount: int, sorted: seq<int>, i: nat)
    requires AllPositive(sorted) && 0 < i < |sorted|
    requires forall k, l :: 0 <= k < l < |sorted| ==> sorted[k] > sorted[l]
    ensures multiset(Parts(amount, sorted))[sorted[i]] * sorted[i] < sorted[i - 1]
  {
    var tier, rest, x := sorted[0], Rest(amount, sorted[0]), sorted[i];
    var tail := Parts(rest, sorted[1..]);
    assert x !in multiset(Copies(tier, Fits(amount, tier)));
    assert multiset(Parts(amount, sorted))[x] == multiset(tail)[x];
    RestIs(amount, tier);
    if i > 1 {
      UsesBelowRatio(rest, sorted[1..], i - 1);
    } else {
      FirstTierUses(rest, sorted[1..]);
    }
  }

  lemma FirstTierUses(amount: int, sorted: seq<int>)
    requires AllPositive(sorted) && sorted != []
    requires forall k, l :: 0 <= k < l < |sorted| ==> sorted[k] > sorted[l]
    ensures multiset(Parts(amount, sorted))[sorted[0]] == Fits(amount, sorted[0])
    ensures Fits(amount, sorted[0]) * sorted[0] <= amount || amount < 0
  {
    var tier, rest := sorted[0], Rest(amount, sorted[0]);
    RestIs(amount, tier);
    var tail := Parts(rest, sorted[1..]);
    assert Descending(sorted[1..]);
    PartsAreDescending(rest, sorted[1..]);
    CopiesCount(tier, Fits(amount, tier));
    assert tier !in multiset(tail);
  }

  lemma {:induction false} CopiesCount(x: int, n: nat)
    ensures multiset(Copies(x, n))[x] == n
  {
    if n > 0 {
      CopiesCount(x, n - 1);
      assert Copies(x, n) == Copies(x, n - 1) + [x];
    }
  }

  /** The order in which the tiers are listed does not matter. */
  lemma OrderOfTiersIsIrrelevant(tiers: seq<int>, others: seq<int>)
    requires multiset(tiers) == multiset(others)
    ensures SortDescending(tiers) == SortDescending(others)
  {
    SortIsSorted(tiers);
    SortIsSorted(others);
    SortedIsUnique(SortDescending(tiers), SortDescending(others));
  }

  // ---- Tiers that divide one another ----------------------------------------------------

  ghost predicate Chain(sorted: seq<int>) {
    AllPositive(sorted) && forall i :: 0 <= i < |sorted| - 1 ==> sorted[i] % sorted[i + 1] == 0
  }

  /** On a chain the remainder is the remainder by the smallest tier. */
  lemma {:induction false} ChainRemainder(amount: int, sorted: seq<int>)
    requires Chain(sorted) && sorted != [] && amount >= 0
    ensures Remainder(amount, sorted) == amount % sorted[|sorted| - 1]
  {
    var tier, rest := sorted[0], Rest(amount, sorted[0]);
    RestIs(amount, tier);
    if |sorted| > 1 {
      ChainTail(sorted);
      ChainRemainder(rest, sorted[1..]);
      LastDivides(sorted);
      ModOfMod(amount, tier, sorted[|sorted| - 1]);
    }
  }

  lemma ChainTail(sorted: seq<int>)
    requires Chain(sorted) && sorted != []
    ensures Chain(sorted[1..])
  {
    forall i | 0 <= i < |sorted[1..]| - 1 ensures sorted[1..][i] % sorted[1..][i + 1] == 0 {
      assert sorted[i + 1] % sorted[i + 2] == 0;
    }
  }

  lemma {:induction false} LastDivides(sorted: seq<int>)
    requires Chain(sorted) && sorted != []
    ensures sorted[0] % sorted[|sorted| - 1] == 0
  {
    if |sorted| > 1 {
      ChainTail(sorted);
      LastDivides(sorted[1..]);
      DividesTransitively(sorted[0], sorted[1], sorted[|sorted| - 1]);
    } else {
      DivModUnique(sorted[0], sorted[0], 1, 0);
    }
  }

  lemma DividesTransitively(a: int, b: int, d: int)
    requires b > 0 && d > 0 && a % b == 0 && b % d == 0
    ensures a % d == 0
  {
    var m, n := a / b, b / d;
    assert a == m * (n * d) == (m * n) * d by {
      assert a == m * b && b == n * d;
    }
    DivModUnique(a, d, m * n, 0);
  }

  lemma ModOfMod(a: int, b: int, d: int)
    requires b > 0 && d > 0 && b % d == 0
    ensures (a % b) % d == a % d
  {
    var q, r, n := a / b, a % b, b / d;
    assert a == (q * n) * d + r by {
      assert a == q * b + r && b == n * d;
      assert q * (n * d) == (q * n) * d;
    }
    assert r == (r / d) * d + r % d;
    assert a == (q * n + r / d) * d + r % d;
    DivModUnique(a, d, q * n + r / d, r % d);
  }

  /** A multiple of the largest tier goes entirely into copies of it. */
  lemma PartsOfMultiple(k: nat, d: int, r: int, sorted: seq<int>)
    requires Chain(sorted) && sorted != [] && d > 0 && d % sorted[0] == 0 && r >= 0
    ensures k * d >= 0
    ensures |Parts(k * d + r, sorted)| == k * (d / sorted[0]) + |Parts(r, sorted)|
    ensures Remainder(k * d + r, sorted) == Remainder(r, sorted)
  {
    var tier := sorted[0];
    assert k * d >= 0;
    assert k * d == (k * (d / tier)) * tier by {
      assert d == (d / tier) * tier;
    }
    assert r == (r / tier) * tier + r % tier;
    assert k * d + r == (k * (d / tier) + r / tier) * tier + r % tier;
    DivModUnique(k * d + r, tier, k * (d / tier) + r / tier, r % tier);
    RestIs(k * d + r, tier);
    RestIs(r, tier);
  }

  function Without(parts: seq<int>, d: int): seq<int> {
    if parts == [] then []
    else if parts[0] == d then Without(parts[1..], d)
    else [parts[0]] + Without(parts[1..], d)
  }

  lemma {:induction false} SumAside(parts: seq<int>, d: int)
    ensures Sum(parts) == (|parts| - |Without(parts, d)|) * d + Sum(Without(parts, d))
  {
    if parts != [] {
      var tail := parts[1..];
      SumAside(tail, d);
      assert parts == [parts[0]] + tail;
      SumCons(parts[0], tail);
      if parts[0] == d {
        OneMore(|tail| - |Without(tail, d)|, d);
      } else {
        SumCons(parts[0], Without(tail, d));
      }
    }
  }

  lemma OneMore(c: int, d: int)
    ensures (c + 1) * d == c * d + d
  {
  }

  lemma {:induction false} CountAside(parts: seq<int>, d: int)
    ensures multiset(parts)[d] == |parts| - |Without(parts, d)|
    ensures d !in multiset(Without(parts, d))
  {
    if parts != [] {
      CountAside(parts[1..], d);
      assert parts == [parts[0]] + parts[1..];
    }
  }

  lemma {:induction false} WithoutKeepsOthers(parts: seq<int>, d: int, x: int)
    requires x != d
    ensures multiset(Without(parts, d))[x] == multiset(parts)[x]
  {
    if parts != [] {
      assert parts == [parts[0]] + parts[1..];
      WithoutKeepsOthers(parts[1..], d, x);
    }
  }

  lemma SetAside(parts: seq<int>, d: int) returns (c: nat)
    ensures |parts| == c + |Without(parts, d)| && Sum(parts) == c * d + Sum(Without(parts, d))
    ensures multiset(parts) == multiset(Copies(d, c)) + multiset(Without(parts, d))
  {
    hide Sum, Without;
    SumAside(parts, d);
    CountAside(parts, d);
    c := |parts| - |Without(parts, d)|;
    CopiesCount(d, c);
    var copies := Copies(d, c);
    forall x ensures multiset(parts)[x] == multiset(copies)[x] + multiset(Without(parts, d))[x] {
      if x != d {
        WithoutKeepsOthers(parts, d, x);
        assert x !in copies;
      }
    }
  }

  /** At least two of each tier make the next larger one. */
  ghost predicate StrictChain(sorted: seq<int>) {
    Chain(sorted) && forall i :: 0 <= i < |sorted| - 1 ==> sorted[i] > sorted[i + 1]
  }

  lemma RatioAtLeast(q: nat, d: int, tier: int)
    requires tier > 0 && d > 0 && d % tier == 0
    ensures q * (d / tier) >= q
    ensures d > tier && q > 0 ==> q * (d / tier) > q
  {
    assert d == (d / tier) * tier;
    assert d / tier >= 1;
    MulMono(q, 1, d / tier);
    if d > tier {
      assert d / tier != 1;
      MulMono(q, 2, d / tier);
    }
  }

  lemma MulMono(q: nat, low: int, high: int)
    requires low <= high
    ensures q * low <= q * high
  {
    assert q * (high - low) >= 0;
  }

  ghost predicate DrawnFrom(parts: seq<int>, tiers: seq<int>) {
    forall k :: 0 <= k < |parts| ==> parts[k] in tiers
  }

  lemma {:induction false} WithoutIsDrawn(parts: seq<int>, sorted: seq<int>)
    requires sorted != [] && DrawnFrom(parts, sorted)
    ensures DrawnFrom(Without(parts, sorted[0]), sorted[1..])
  {
    if parts != [] {
      assert parts[0] in sorted && sorted == [sorted[0]] + sorted[1..];
      WithoutIsDrawn(parts[1..], sorted);
    }
  }

  lemma {:induction false} DrawnSum(parts: seq<int>, tiers: seq<int>)
    requires DrawnFrom(parts, tiers) && AllPositive(tiers)
    ensures Sum(parts) >= 0
    ensures tiers == [] ==> parts == []
  {
    if parts != [] {
      assert parts[0] in tiers && parts == [parts[0]] + parts[1..];
      SumCons(parts[0], parts[1..]);
      DrawnSum(parts[1..], tiers);
    }
  }

  /** How the greedy split treats an amount that is `c` largest tiers plus something else. */
  lemma PartsOfSum(c: nat, other: int, sorted: seq<int>)
    requires Chain(sorted) && sorted != [] && other >= 0
    ensures var d := sorted[0];
      && c * d + other >= 0
      && Parts(c * d + other, sorted) == Copies(d, c + other / d) + Parts(other % d, sorted[1..])
      && Remainder(c * d + other, sorted) == Remainder(other % d, sorted[1..])
  {
    var d := sorted[0];
    assert c * d >= 0;
    assert other == (other / d) * d + other % d;
    assert c * d + other == (c + other / d) * d + other % d;
    DivModUnique(c * d + other, d, c + other / d, other % d);
    RestIs(c * d + other, d);
  }

  /** Handing multiples of a larger tier to the smaller ones costs at least one part each. */
  lemma TailSplit(d: int, amount: int, tail: seq<int>, sorted: seq<int>)
    requires Chain(sorted) && sorted != [] && d == sorted[0] && tail == sorted[1..]
    requires amount >= 0 && (tail == [] ==> amount == 0)
    ensures AllPositive(tail) && amount / d >= 0 && amount % d >= 0
    ensures Remainder(amount, tail) == Remainder(amount % d, tail)
    ensures |Parts(amount, tail)| >= amount / d + |Parts(amount % d, tail)|
    ensures StrictChain(sorted) && |Parts(amount, tail)| == amount / d + |Parts(amount % d, tail)| ==>
      amount / d == 0 && amount % d == amount
  {
    if tail == [] {
      DivModUnique(0, d, 0, 0);
    } else {
      ChainTail(sorted);
      DivMod(amount, d);
      assert sorted[0] % sorted[1] == 0 && tail[0] == sorted[1];
      PartsOfMultiple(amount / d, d, amount % d, tail);
      RatioAtLeast(amount / d, d, tail[0]);
    }
  }

  /** One tier of the comparison: `c` largest tiers and `n` others that add up to `other`. */
  lemma GreedyStep(total: int, c: nat, other: int, n: nat, sorted: seq<int>)
    requires Chain(sorted) && sorted != [] && other >= 0 && (|sorted| == 1 ==> other == 0)
    requires total == c * sorted[0] + other
    requires AllPositive(sorted[1..]) && Remainder(other, sorted[1..]) == 0 && |Parts(other, sorted[1..])| <= n
    ensures Remainder(total, sorted) == 0 && |Parts(total, sorted)| <= c + n
    ensures StrictChain(sorted) && |Parts(total, sorted)| == c + n ==>
      |Parts(other, sorted[1..])| == n && Parts(total, sorted) == Copies(sorted[0], c) + Parts(other, sorted[1..])
  {
    PartsOfSum(c, other, sorted);
    TailSplit(sorted[0], other, sorted[1..], sorted);
  }

  /** No list of tiers with the same sum is shorter than the greedy one, and when no two
      tiers are equal only rearrangements of it are as short. */
  lemma {:induction false} GreedyIsShortest(parts: seq<int>, sorted: seq<int>)
    requires Chain(sorted) && DrawnFrom(parts, sorted)
    ensures Remainder(Sum(parts), sorted) == 0
    ensures |Parts(Sum(parts), sorted)| <= |parts|
    ensures StrictChain(sorted) && |Parts(Sum(parts), sorted)| == |parts| ==>
      multiset(parts) == multiset(Parts(Sum(parts), sorted))
    decreases |sorted|
  {
    DrawnSum(parts, sorted);
    if sorted != [] {
      var d, tail := sorted[0], sorted[1..];
      var c := SetAside(parts, d);
      var others := Without(parts, d);
      WithoutIsDrawn(parts, sorted);
      ChainTail(sorted);
      DrawnSum(others, tail);
      GreedyIsShortest(others, tail);
      GreedyStep(Sum(parts), c, Sum(others), |others|, sorted);
    }
  }

  // ---- The two entry points --------------------------------------------------------------

  /** What is drawn from the sorted tiers is drawn from the tiers. */
  lemma DrawnFromTiers(amount: int, tiers: seq<int>)
    requires AllPositive(tiers)
    ensures AllPositive(SortDescending(tiers)) && DrawnFrom(Parts(amount, SortDescending(tiers)), tiers)
  {
    hide SortDescending, Parts;
    SortKeepsPositive(tiers);
    SortIsSorted(tiers);
    var sorted := SortDescending(tiers);
    PartsAreDescending(amount, sorted);
    forall k | 0 <= k < |Parts(amount, sorted)| ensures Parts(amount, sorted)[k] in tiers {
      assert Parts(amount, sorted)[k] in multiset(sorted);
    }
  }

  lemma RemainderBelowTiers(amount: int, tiers: seq<int>, k: nat)
    requires AllPositive(tiers) && k < |tiers| && amount >= 0
    ensures AllPositive(SortDescending(tiers)) && 0 <= Remainder(amount, SortDescending(tiers)) < tiers[k]
  {
    hide SortDescending, Remainder;
    SortKeepsPositive(tiers);
    SortIsSorted(tiers);
    var sorted := SortDescending(tiers);
    RemainderIsSmall(amount, sorted);
    assert tiers[k] in multiset(sorted);
    var m :| 0 <= m < |sorted| && sorted[m] == tiers[k];
  }

  /** What a split is, for any positive tiers and in whatever order they are listed. */
  lemma SplitIsExact(amount: int, tiers: seq<int>, others: seq<int>)
    requires AllPositive(tiers) && multiset(others) == multiset(tiers)
    ensures var sorted := SortDescending(tiers);
      && SortDescending(others) == sorted && AllPositive(sorted)
      && Sum(Parts(amount, sorted)) + Remainder(amount, sorted) == amount
      && Descending(Parts(amount, sorted)) && DrawnFrom(Parts(amount, sorted), tiers)
      && (forall k :: amount >= 0 && 0 <= k < |tiers| ==> 0 <= Remainder(amount, sorted) < tiers[k])
      && (amount < 0 ==> SplitOutcome(amount, tiers) == Ok([]))
      && (amount >= 0 ==> (SplitOutcome(amount, tiers).Ok? <==> Remainder(amount, sorted) == 0))
  {
    hide SortDescending, Parts, Remainder, Descending, DrawnFrom;
    OrderOfTiersIsIrrelevant(tiers, others);
    SortKeepsPositive(tiers);
    SortIsSorted(tiers);
    var sorted := SortDescending(tiers);
    PartsAddUp(amount, sorted);
    PartsAreDescending(amount, sorted);
    RemainderIsSmall(amount, sorted);
    DrawnFromTiers(amount, tiers);
    forall k | amount >= 0 && 0 <= k < |tiers| ensures 0 <= Remainder(amount, sorted) < tiers[k] {
      RemainderBelowTiers(amount, tiers, k);
    }
  }

  /** A successful split adds up, over positive tiers. */
  lemma SplitAddsUp(amount: int, tiers: seq<int>)
    requires AllPositive(tiers) && AllPositive(SortDescending(tiers)) && amount >= 0 && SplitOutcome(amount, tiers).Ok?
    ensures Sum(SplitOutcome(amount, tiers).value) == amount
    ensures AllPositive(SplitOutcome(amount, tiers).value)
  {
    SplitIsExact(amount, tiers, tiers);
  }

  /** On a chain a split succeeds exactly for multiples of the smallest tier. */
  lemma ChainSplitSucceedsIff(amount: int, tiers: seq<int>)
    requires Chain(SortDescending(tiers)) && tiers != [] && amount >= 0
    ensures var sorted := SortDescending(tiers);
      sorted != [] && (SplitOutcome(amount, tiers).Ok? <==> amount % sorted[|sorted| - 1] == 0)
  {
    SortIsSorted(tiers);
    assert |multiset(tiers)| == |multiset(SortDescending(tiers))|;
    ChainRemainder(amount, SortDescending(tiers));
  }

  /** No other list of tiers pays the same amount in fewer deposits, and a list that pays it
      in as many is the same deposits in another order. */
  lemma SplitIsShortest(amount: int, tiers: seq<int>, parts: seq<int>)
    requires StrictChain(SortDescending(tiers)) && DrawnFrom(parts, tiers) && Sum(parts) == amount
    ensures SplitOutcome(amount, tiers).Ok?
    ensures |SplitOutcome(amount, tiers).value| <= |parts|
    ensures |SplitOutcome(amount, tiers).value| == |parts| ==>
      multiset(SplitOutcome(amount, tiers).value) == multiset(parts)
  {
    SortIsSorted(tiers);
    var sorted := SortDescending(tiers);
    forall k | 0 <= k < |parts| ensures parts[k] in sorted {
      assert parts[k] in multiset(tiers);
    }
    GreedyIsShortest(parts, sorted);
  }

  function Reversed(s: seq<int>): seq<int> {
    if s == [] then [] else Reversed(s[1..]) + [s[0]]
  }

  lemma {:induction false} ReversedAt(s: seq<int>)
    ensures |Reversed(s)| == |s| && forall k :: 0 <= k < |s| ==> Reversed(s)[k] == s[|s| - 1 - k]
  {
    if s != [] { ReversedAt(s[1..]); }
  }

  lemma {:induction false} InsertSmallest(x: int, s: seq<int>)
    requires forall k :: 0 <= k < |s| ==> s[k] > x
    ensures InsertDescending(x, s) == s + [x]
  {
    if s != [] { InsertSmallest(x, s[1..]); }
  }

  lemma {:induction false} SortAscending(s: seq<int>)
    requires forall k, l :: 0 <= k < l < |s| ==> s[k] < s[l]
    ensures SortDescending(s) == Reversed(s)
  {
    if s != [] {
      SortAscending(s[1..]);
      ReversedAt(s[1..]);
      InsertSmallest(s[0], Reversed(s[1..]));
    }
  }

  ghost predicate TimesTen(s: seq<int>) {
    s != [] && s[0] > 0 && forall k :: 0 <= k < |s| - 1 ==> s[k + 1] == 10 * s[k]
  }

  lemma {:induction false} TimesTenAscends(s: seq<int>, k: nat, l: nat)
    requires TimesTen(s) && k < l < |s|
    ensures 0 < s[k] < s[l]
  {
    if k + 1 < l {
      TimesTenAscends(s, k, l - 1);
    } else if k > 0 {
      TimesTenAscends(s, 0, k);
    }
  }

  lemma TimesTenIsChain(s: seq<int>)
    requires TimesTen(s)
    ensures var sorted := SortDescending(s);
      StrictChain(sorted) && sorted != [] && sorted[|sorted| - 1] == s[0]
  {
    forall k, l | 0 <= k < l < |s| ensures 0 < s[k] < s[l] {
      TimesTenAscends(s, k, l);
    }
    SortAscending(s);
    ReversedAt(s);
    var sorted := SortDescending(s);
    forall i | 0 <= i < |sorted| - 1 ensures sorted[i] % sorted[i + 1] == 0 && sorted[i] > sorted[i + 1] {
      assert s[|s| - 1 - i] == 10 * s[|s| - 2 - i];
      DivModUnique(sorted[i], sorted[i + 1], 10, 0);
    }
  }

  lemma TablesAreChains(token: Token)
    ensures StrictChain(SortDescending(TiersOf(token)))
    ensures var sorted := SortDescending(TiersOf(token)); sorted != [] && sorted[|sorted| - 1] == MinDeposit(token)
  {
    TimesTenIsChain(TiersOf(token));
  }

  lemma TablesArePositive(token: Token)
    ensures AllPositive(TiersOf(token)) && AllPositive(SortDescending(TiersOf(token))) && MinDeposit(token) > 0
  {
    SortKeepsPositive(TiersOf(token));
  }

  function LowestPower(token: Token): nat { if token.USDC? then 4 else 6 }

  function HighestPower(token: Token): nat { if token.USDC? then 10 else 11 }

  lemma {:induction false} TierAt(token: Token, i: nat)
    requires i < |TiersOf(token)|
    ensures TiersOf(token)[i] == Pow(10, LowestPower(token) + i)
  {
    if i == 0 {
      assert Pow(10, 3) == 1000;
      assert Pow(10, 6) == 10 * Pow(10, 5) == 100 * Pow(10, 4);
    } else {
      TierAt(token, i - 1);
    }
  }

  /** USDC goes from 10^4 to 10^10 of the smallest unit and SOL from 10^6 to 10^11, in powers of
      ten; the first of them is the minimum deposit. */
  lemma TablesArePowersOfTen(token: Token, tier: int)
    ensures tier in TiersOf(token) <==> exists k :: LowestPower(token) <= k <= HighestPower(token) && tier == Pow(10, k)
    ensures MinDeposit(token) == if token.USDC? then 10_000 else 1_000_000
  {
    if tier in TiersOf(token) {
      var i :| 0 <= i < |TiersOf(token)| && TiersOf(token)[i] == tier;
      TierAt(token, i);
    }
    if exists k :: LowestPower(token) <= k <= HighestPower(token) && tier == Pow(10, k) {
      var k :| LowestPower(token) <= k <= HighestPower(token) && tier == Pow(10, k);
      TierAt(token, k - LowestPower(token));
    }
  }
}
