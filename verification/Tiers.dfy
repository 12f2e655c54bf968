/** Splitting an amount into fixed deposit tiers, largest first. */
module Tiers {
  import opened Base

  // ---- Sorting -----------------------------------------------------------------------

  predicate Descending(s: seq<int>) {
    forall i, j :: 0 <= i < j < |s| ==> s[i] >= s[j]
  }

  function InsertDescending(x: int, s: seq<int>): seq<int> {
    if s == [] || x >= s[0] then [x] + s else [s[0]] + InsertDescending(x, s[1..])
  }

  function SortDescending(s: seq<int>): seq<int> {
    if s == [] then [] else InsertDescending(s[0], SortDescending(s[1..]))
  }

  lemma {:induction false} InsertKeepsElements(x: int, s: seq<int>)
    ensures multiset(InsertDescending(x, s)) == multiset{x} + multiset(s)
  {
    if s == [] || x >= s[0] {
    } else {
      InsertKeepsElements(x, s[1..]);
      assert s == [s[0]] + s[1..];
    }
  }

  lemma HeadIsLargest(s: seq<int>, x: int)
    requires Descending(s) && x in multiset(s)
    ensures s != [] && x <= s[0]
  {
    var i :| 0 <= i < |s| && s[i] == x;
  }

  lemma DescendingCons(x: int, s: seq<int>)
    requires Descending(s) && (s != [] ==> x >= s[0])
    ensures Descending([x] + s)
  {
    assert forall k :: 0 <= k < |s| ==> x >= s[k];
  }

  lemma {:induction false} InsertIsSorted(x: int, s: seq<int>)
    requires Descending(s)
    ensures Descending(InsertDescending(x, s))
    ensures var r := InsertDescending(x, s); r[0] == x || (s != [] && r[0] == s[0])
  {
    if s == [] || x >= s[0] {
      DescendingCons(x, s);
    } else {
      InsertIsSorted(x, s[1..]);
      DescendingCons(s[0], InsertDescending(x, s[1..]));
    }
  }

  lemma {:induction false} SortIsSorted(s: seq<int>)
    ensures Descending(SortDescending(s))
    ensures multiset(SortDescending(s)) == multiset(s)
  {
    if s != [] {
      SortIsSorted(s[1..]);
      InsertIsSorted(s[0], SortDescending(s[1..]));
      InsertKeepsElements(s[0], SortDescending(s[1..]));
      assert s == [s[0]] + s[1..];
    }
  }

  lemma TailElements(s: seq<int>)
    requires s != []
    ensures multiset(s[1..]) == multiset(s) - multiset{s[0]}
    ensures s[0] in multiset(s)
  {
    assert s == [s[0]] + s[1..];
  }

  lemma SameHead(a: seq<int>, b: seq<int>)
    requires Descending(a) && Descending(b) && multiset(a) == multiset(b) && a != [] && b != []
    ensures a[0] == b[0] && multiset(a[1..]) == multiset(b[1..])
  {
    TailElements(a);
    TailElements(b);
    HeadIsLargest(a, b[0]);
    HeadIsLargest(b, a[0]);
  }

  /** A descending arrangement of a multiset is unique. */
  lemma {:induction false} SortedIsUnique(a: seq<int>, b: seq<int>)
    requires Descending(a) && Descending(b) && multiset(a) == multiset(b)
    ensures a == b
  {
    assert |multiset(a)| == |a| && |multiset(b)| == |b|;
    if a != [] {
      SameHead(a, b);
      SortedIsUnique(a[1..], b[1..]);
      assert a == [a[0]] + a[1..] && b == [b[0]] + b[1..];
    }
  }

  // ---- What the loops compute --------------------------------------------------------

  predicate AllPositive(s: seq<int>) {
    forall i :: 0 <= i < |s| ==> s[i] > 0
  }

  function Copies(x: int, n: nat): (r: seq<int>)
    ensures |r| == n
  {
    seq(n, _ => x)
  }

  /** How often a tier fits: not at all once the amount is negative. */
  function Fits(amount: int, tier: int): nat
    requires tier > 0
  {
    if amount < tier then 0 else amount / tier
  }

  function Parts(amount: int, sorted: seq<int>): seq<int>
    requires AllPositive(sorted)
  {
    if sorted == [] then []
    else Copies(sorted[0], Fits(amount, sorted[0])) + Parts(Rest(amount, sorted[0]), sorted[1..])
  }

  function Rest(amount: int, tier: int): int
    requires tier > 0
  {
    if amount < tier then amount else amount % tier
  }

  function Remainder(amount: int, sorted: seq<int>): int
    requires AllPositive(sorted)
  {
    if sorted == [] then amount else Remainder(Rest(amount, sorted[0]), sorted[1..])
  }

  lemma SortKeepsPositive(tiers: seq<int>)
    requires AllPositive(tiers)
    ensures AllPositive(SortDescending(tiers))
  {
    SortIsSorted(tiers);
    forall i | 0 <= i < |SortDescending(tiers)| ensures SortDescending(tiers)[i] > 0 {
      assert SortDescending(tiers)[i] in multiset(tiers);
    }
  }

  /** What one tier's inner loop has done when it ends. */
  lemma LoopResult(amount: int, tier: int, n: nat, rest: int)
    requires tier > 0 && amount == n * tier + rest && rest < tier && (n > 0 ==> rest >= 0)
    ensures n == Fits(amount, tier) && rest == Rest(amount, tier)
  {
    if n > 0 {
      DivModUnique(amount, tier, n, rest);
      MulAtLeast(n, tier);
    } else {
      assert n * tier == 0;
    }
  }

  lemma Associative(a: seq<int>, b: seq<int>, c: seq<int>)
    ensures a + (b + c) == a + b + c
  {
  }

  lemma PartsFrom(amount: int, sorted: seq<int>, k: nat)
    requires k < |sorted| && AllPositive(sorted)
    ensures var tier := sorted[k];
      && Parts(amount, sorted[k..]) == Copies(tier, Fits(amount, tier)) + Parts(Rest(amount, tier), sorted[k + 1..])
      && Remainder(amount, sorted[k..]) == Remainder(Rest(amount, tier), sorted[k + 1..])
  {
    assert sorted[k..][0] == sorted[k] && sorted[k..][1..] == sorted[k + 1..];
  }

  /** Both loops of splitIntoTiersWithRemainder. A tier that is not positive would make the
      inner loop run forever. */
  method SplitIntoTiersWithRemainder(amount: int, tiers: seq<int>) returns (deposits: seq<int>, remainder: int)
    requires AllPositive(tiers)
    ensures AllPositive(SortDescending(tiers))
    ensures deposits == Parts(amount, SortDescending(tiers))
    ensures remainder == Remainder(amount, SortDescending(tiers))
  {
    SortKeepsPositive(tiers);
    var sorted := SortDescending(tiers);
    deposits := [];
    remainder := amount;
    for k := 0 to |sorted|
      invariant deposits + Parts(remainder, sorted[k..]) == Parts(amount, sorted)
      invariant Remainder(remainder, sorted[k..]) == Remainder(amount, sorted)
    {
      var tier := sorted[k];
      PartsFrom(remainder, sorted, k);
      ghost var before, amountBefore := deposits, remainder;
      ghost var n: nat := 0;
      while remainder >= tier
        invariant amountBefore == n * tier + remainder && (n > 0 ==> remainder >= 0)
        invariant deposits == before + Copies(tier, n)
        decreases remainder
      {
        deposits := deposits + [tier];
        remainder := remainder - tier;
        n := n + 1;
        assert n * tier == (n - 1) * tier + tier;
      }
      LoopResult(amountBefore, tier, n, remainder);
      Associative(before, Copies(tier, n), Parts(remainder, sorted[k + 1..]));
    }
  }

  /** The outcome of splitIntoTiers; the error carries the remainder it reports. */
  function SplitOutcome(amount: int, tiers: seq<int>): Result<seq<int>, int>
    requires AllPositive(SortDescending(tiers))
  {
    var sorted := SortDescending(tiers);
    if Remainder(amount, sorted) > 0 then Err(Remainder(amount, sorted)) else Ok(Parts(amount, sorted))
  }

  method SplitIntoTiers(amount: int, tiers: seq<int>) returns (r: Result<seq<int>, int>)
    requires AllPositive(tiers)
    ensures AllPositive(SortDescending(tiers)) && r == SplitOutcome(amount, tiers)
  {
    var result, remaining := SplitIntoTiersWithRemainder(amount, tiers);
    if remaining > 0 {
      return Err(remaining);
    }
    return Ok(result);
  }

  // ---- The tier tables -------------------------------------------------------------------

  const DEPOSIT_TIERS_USDC: seq<int> :=
    [10_000, 100_000, 1_000_000, 10_000_000, 100_000_000, 1_000_000_000, 10_000_000_000]

  const DEPOSIT_TIERS_SOL: seq<int> :=
    [1_000_000, 10_000_000, 100_000_000, 1_000_000_000, 10_000_000_000, 100_000_000_000]

  datatype Token = USDC | SOL

  function TiersOf(token: Token): seq<int> {
    if token.USDC? then DEPOSIT_TIERS_USDC else DEPOSIT_TIERS_SOL
  }

  function MinDeposit(token: Token): int {
    TiersOf(token)[0]
  }
}
