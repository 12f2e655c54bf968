/** The relayer's executor: priority fees and instruction data. */
module Executor {
  import opened Base
  import opened Bytes
  import opened Tiers
  import TierTheorems

  // ---- Priority fee -----------------------------------------------------------------------------------

  const FALLBACK_PRIORITY_FEE: nat := 10_000

  function Positive(samples: seq<int>): seq<int> {
    if samples == [] then []
    else
      var front, last := Positive(samples[..|samples| - 1]), samples[|samples| - 1];
      if last > 0 then front + [last] else front
  }

  /** `sort((a, b) => a - b)`. */
  function SortAscending(s: seq<int>): seq<int> {
    TierTheorems.Reversed(SortDescending(s))
  }

  /** Index floor(n * 0.75) of the ascending samples. */
  function P75(fees: seq<int>): int
    requires fees != []
  {
    SortKeepsLength(fees);
    TierTheorems.ReversedAt(SortDescending(fees));
    SortAscending(fees)[|fees| * 3 / 4]
  }

  lemma SortKeepsLength(s: seq<int>)
    ensures |SortDescending(s)| == |s|
  {
    SortIsSorted(s);
    assert |multiset(SortDescending(s))| == |multiset(s)|;
  }

  function CeilingOf125Percent(x: int): int {
    (5 * x + 3) / 4
  }

  function EstimatePriorityFee(samples: seq<int>): int {
    var fees := Positive(samples);
    if fees == [] then FALLBACK_PRIORITY_FEE
    else
      var estimate := CeilingOf125Percent(P75(fees));
      if estimate > FALLBACK_PRIORITY_FEE then estimate else FALLBACK_PRIORITY_FEE
  }

  // Counting samples against a bound.

  function AtMostBound(bound: int): int -> int {
    x => if x <= bound then 1 else 0
  }

  function BelowBound(bound: int): int -> int {
    x => if x < bound then 1 else 0
  }

  function CountAtMost(s: seq<int>, bound: int): int { Total(s, AtMostBound(bound)) }

  function CountBelow(s: seq<int>, bound: int): int { Total(s, BelowBound(bound)) }

  lemma SomeAtMost(d: seq<int>, m: nat)
    requires Descending(d) && m < |d|
    ensures CountAtMost(d, d[m]) >= |d| - m
  {
    var low, high := d[..m], d[m..];
    assert d == low + high;
    TotalConcat(low, high, AtMostBound(d[m]));
    TotalBounds(low, AtMostBound(d[m]), 0, 1);
    TotalBounds(high, AtMostBound(d[m]), 1, 1);
  }

  lemma FewBelow(d: seq<int>, m: nat)
    requires Descending(d) && m < |d|
    ensures CountBelow(d, d[m]) <= |d| - m - 1
  {
    var upTo, after := d[..m + 1], d[m + 1..];
    assert d == upTo + after;
    TotalConcat(upTo, after, BelowBound(d[m]));
    TotalBounds(upTo, BelowBound(d[m]), 0, 0);
    TotalBounds(after, BelowBound(d[m]), 0, 1);
  }

  /** More than three quarters of the samples are at most the 75th percentile, and at most three
      quarters are below it. */
  lemma P75Rank(fees: seq<int>)
    requires fees != []
    ensures 4 * CountAtMost(fees, P75(fees)) > 3 * |fees| && 4 * CountBelow(fees, P75(fees)) <= 3 * |fees|
  {
    SortIsSorted(fees);
    SortKeepsLength(fees);
    var d, i := SortDescending(fees), |fees| * 3 / 4;
    TierTheorems.ReversedAt(d);
    SomeAtMost(d, |d| - 1 - i);
    FewBelow(d, |d| - 1 - i);
    TotalOfPermutation(fees, d, AtMostBound(P75(fees)));
    TotalOfPermutation(fees, d, BelowBound(P75(fees)));
  }

  lemma {:induction false} PositiveKeeps(samples: seq<int>)
    ensures forall k :: 0 <= k < |Positive(samples)| ==> Positive(samples)[k] > 0
    ensures forall x :: multiset(Positive(samples))[x] == if x > 0 then multiset(samples)[x] else 0
  {
    if samples != [] {
      PositiveKeeps(samples[..|samples| - 1]);
      assert samples == samples[..|samples| - 1] + [samples[|samples| - 1]];
    }
  }

  /** The estimate depends on which samples there are, not on their order. */
  lemma EstimateIgnoresOrder(a: seq<int>, b: seq<int>)
    requires multiset(a) == multiset(b)
    ensures EstimatePriorityFee(a) == EstimatePriorityFee(b)
  {
    PositiveKeeps(a);
    PositiveKeeps(b);
    var x, y := Positive(a), Positive(b);
    assert multiset(x) == multiset(y);
    assert |multiset(x)| == |x| && |multiset(y)| == |y|;
    SortIsSorted(x);
    SortIsSorted(y);
    SortedIsUnique(SortDescending(x), SortDescending(y));
  }

  /** The estimate is at least the fallback and a quarter above the percentile, and no higher than
      either asks for. */
  lemma EstimateCovers(samples: seq<int>)
    ensures EstimatePriorityFee(samples) >= FALLBACK_PRIORITY_FEE == 10_000
    ensures Positive(samples) != [] ==> 4 * EstimatePriorityFee(samples) >= 5 * P75(Positive(samples))
    ensures EstimatePriorityFee(samples) == FALLBACK_PRIORITY_FEE
      || (Positive(samples) != [] && 4 * (EstimatePriorityFee(samples) - 1) < 5 * P75(Positive(samples)))
  {
  }

  // ---- Instruction data -----------------------------------------------------------------------------------

  const WITHDRAW_DISCRIMINATOR: seq<Byte> := [183, 18, 70, 156, 148, 109, 161, 34]

  datatype Withdraw = Withdraw(
    proofA: seq<Byte>,
    proofB: seq<Byte>,
    proofC: seq<Byte>,
    nullifierHash: seq<Byte>,
    recipient: seq<Byte>,
    amount: int,
    merkleRoot: seq<Byte>
  )

  /** None when the amount does not fit 64 bits, which writeBigUInt64LE refuses. */
  function WithdrawInstructionData(w: Withdraw): Option<seq<Byte>> {
    if w.amount < 0 || w.amount >= 0x1_0000_0000_0000_0000 then None
    else Some(WITHDRAW_DISCRIMINATOR + w.proofA + w.proofB + w.proofC + w.nullifierHash + w.recipient
              + LittleEndian(w.amount, 8) + w.merkleRoot)
  }

  predicate Sized(w: Withdraw) {
    |w.proofA| == 64 && |w.proofB| == 128 && |w.proofC| == 64 && |w.nullifierHash| == 32 && |w.recipient| == 32 && |w.merkleRoot| == 32
  }

  /** What the program reads at the fixed offsets of the layout. */
  function ReadWithdraw(data: seq<Byte>): Withdraw
    requires |data| == 368
  {
    Withdraw(data[8..72], data[72..200], data[200..264], data[264..296], data[296..328],
             LittleEndianValue(data[328..336]), data[336..])
  }

  lemma Eight(n: nat, width: nat)
    requires width == 8 && n < 0x1_0000_0000_0000_0000
    ensures |LittleEndian(n, width)| == 8 && LittleEndianValue(LittleEndian(n, width)) == n
  {
    assert Pow(256, 2) == 0x1_0000;
    PowAdd(256, 2, 2);
    PowAdd(256, 4, 4);
    LittleEndianRoundTrip(n, width);
  }

  lemma JoinAll(a: seq<Byte>, b: seq<Byte>, c: seq<Byte>, d: seq<Byte>, e: seq<Byte>, f: seq<Byte>, g: seq<Byte>, h: seq<Byte>)
    requires |a| == 8 && |b| == 64 && |c| == 128 && |d| == 64 && |e| == |f| == |h| == 32 && |g| == 8
    ensures var s := a + b + c + d + e + f + g + h;
      && |s| == 368 && s[..8] == a && s[8..264] == b + c + d && s[8..72] == b && s[72..200] == c && s[200..264] == d && s[264..296] == e && s[296..328] == f
      && s[328..336] == g && s[336..] == h
  {
  }

  /** 368 bytes, from which the program reads back every field. */
  lemma InstructionReadsBack(w: Withdraw)
    requires Sized(w)
    ensures WithdrawInstructionData(w).Some? <==> 0 <= w.amount < 0x1_0000_0000_0000_0000
    ensures WithdrawInstructionData(w).Some? ==>
      && |WithdrawInstructionData(w).value| == 368
      && ReadWithdraw(WithdrawInstructionData(w).value) == w
      && var data := WithdrawInstructionData(w).value;
      && data[..8] == [183, 18, 70, 156, 148, 109, 161, 34]
      && data[8..264] == w.proofA + w.proofB + w.proofC
      && data[264..296] == w.nullifierHash && data[296..328] == w.recipient && data[336..] == w.merkleRoot
  {
    if WithdrawInstructionData(w).Some? {
      Eight(w.amount, 8);
      JoinAll(WITHDRAW_DISCRIMINATOR, w.proofA, w.proofB, w.proofC, w.nullifierHash, w.recipient, LittleEndian(w.amount, 8), w.merkleRoot);
    }
  }
}
