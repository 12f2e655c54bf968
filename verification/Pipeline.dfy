/** From an amount to the withdrawable notes of its recipient. */
module Pipeline {
  import opened Base
  import opened Bytes
  import opened Cipher
  import opened DepositAccounts
  import opened Deposits
  import opened Indexer
  import opened MerklePath
  import opened Notes
  import opened Scanning
  import opened Tiers
  import opened TierTheorems
  import opened Withdrawal

  /** Every transaction of the deposit is confirmed. */
  ghost predicate AllConfirmed(sender: Sender, amount: int, token: Token) {
    TokenSplit(amount, token).Ok? ==> forall k: nat :: k < |TokenSplit(amount, token).value| ==> sender.confirms(k)
  }

  lemma TierLoop(sender: Sender, scanPrivkey: Key, tiers: seq<int>)
    requires Reachable(sender, scanPrivkey)
    ensures var outcome := Continue(sender, tiers, 0, []);
      && (outcome.Deposited? || outcome.Interrupted?) && MadeFirst(sender, tiers, outcome.sent)
      && (outcome.Deposited? <==> |outcome.sent| == |tiers|)
      && (outcome.Deposited? <==> forall k: nat :: k < |tiers| ==> sender.confirms(k))
  {
    ContinueMakes(sender, tiers, 0, []);
    var outcome := Continue(sender, tiers, 0, []);
    if outcome.KeyRefused? || outcome.Interrupted? {
      DepositIsMade(sender, scanPrivkey, |outcome.sent|, tiers[|outcome.sent|]);
    }
  }

  /** A deposit to a recipient who can be reached succeeds exactly for multiples of the smallest tier
      whose transactions are all confirmed. */
  lemma DepositSucceedsIff(sender: Sender, scanPrivkey: Key, amount: int, token: Token)
    requires Reachable(sender, scanPrivkey)
    ensures DepositOutcome(sender, amount, token).Deposited? <==>
      (amount >= MinDeposit(token) && amount % MinDeposit(token) == 0 && AllConfirmed(sender, amount, token))
  {
    TablesAreChains(token);
    if amount >= MinDeposit(token) {
      ChainSplitSucceedsIff(amount, TiersOf(token));
      if TokenSplit(amount, token).Ok? {
        TierLoop(sender, scanPrivkey, TokenSplit(amount, token).value);
      }
    }
  }

  function Least(token: Token): int { if token.USDC? then 10_000 else 1_000_000 }

  lemma SplitErrorIs(amount: int, token: Token)
    requires amount >= Least(token)
    ensures TokenSplit(amount, token).Ok? <==> amount % Least(token) == 0
    ensures amount % Least(token) > 0 ==> TokenSplit(amount, token) == Err(amount % Least(token))
  {
    TablesArePowersOfTen(token, 0);
    TablesAreChains(token);
    TablesArePositive(token);
    ChainRemainder(amount, SortDescending(TiersOf(token)));
  }

  /** Every way a deposit to a reachable recipient can end: below the minimum, not a multiple of it,
      at the first transaction that is not confirmed, or well. */
  lemma DepositOutcomeIs(sender: Sender, scanPrivkey: Key, amount: int, token: Token)
    requires Reachable(sender, scanPrivkey)
    ensures var outcome := DepositOutcome(sender, amount, token);
      && (outcome.BelowMinimum? <==> amount < Least(token))
      && (outcome.Unsplittable? <==> amount >= Least(token) && amount % Least(token) > 0)
      && (outcome.Unsplittable? ==> outcome.remainder == amount % Least(token))
      && !outcome.KeyRefused?
      && (outcome.Interrupted? ==> !sender.confirms(|outcome.sent|) && forall k: nat :: k < |outcome.sent| ==> sender.confirms(k))
      && (outcome.Deposited? ==> forall k: nat :: k < |outcome.sent| ==> sender.confirms(k))
  {
    TablesArePowersOfTen(token, 0);
    if amount >= Least(token) {
      SplitErrorIs(amount, token);
      if TokenSplit(amount, token).Ok? {
        var tiers := TokenSplit(amount, token).value;
        TierLoop(sender, scanPrivkey, tiers);
        ContinueMakes(sender, tiers, 0, []);
      }
    }
  }

  /** One deposit for every tier, in order. */
  ghost predicate DepositedFor(sender: Sender, tiers: seq<int>, sent: seq<Deposit>) {
    |sent| == |tiers| && MadeFirst(sender, tiers, sent)
  }

  lemma TierSum(amount: int, token: Token)
    requires amount >= MinDeposit(token) && TokenSplit(amount, token).Ok?
    ensures Sum(TokenSplit(amount, token).value) == amount && AllPositive(TokenSplit(amount, token).value)
  {
    TablesArePositive(token);
    SplitAddsUp(amount, TiersOf(token));
  }

  /** A successful deposit made one deposit for every tier, and the tiers add up. */
  lemma DepositedAll(sender: Sender, scanPrivkey: Key, amount: int, token: Token, sent: seq<Deposit>)
    requires Reachable(sender, scanPrivkey) && DepositOutcome(sender, amount, token) == Deposited(sent)
    ensures TokenSplit(amount, token).Ok? && Sum(TokenSplit(amount, token).value) == amount
    ensures AllPositive(TokenSplit(amount, token).value) && DepositedFor(sender, TokenSplit(amount, token).value, sent)
  {
    TierSum(amount, token);
    TierLoop(sender, scanPrivkey, TokenSplit(amount, token).value);
  }

  function AmountSent(d: Deposit): int { d.amount }

  lemma {:induction false} AmountsAddUp(sent: seq<Deposit>, tiers: seq<int>)
    requires |sent| == |tiers| && forall k :: 0 <= k < |tiers| ==> sent[k].amount == tiers[k]
    ensures Total(sent, AmountSent) == Sum(tiers)
  {
    if tiers != [] {
      AmountsAddUp(sent[..|tiers| - 1], tiers[..|tiers| - 1]);
    }
  }

  lemma MadeAmount(sender: Sender, tiers: seq<int>, sent: seq<Deposit>, k: nat)
    requires k < |sent| <= |tiers| && MadeFor(sender, tiers, sent, k)
    ensures sent[k].amount == tiers[k]
  {
  }

  lemma SentAmounts(sender: Sender, tiers: seq<int>, sent: seq<Deposit>)
    requires MadeFirst(sender, tiers, sent)
    ensures Total(sent, AmountSent) == Sum(tiers[..|sent|])
  {
    forall k | 0 <= k < |sent| ensures sent[k].amount == tiers[..|sent|][k] {
      assert MadeFor(sender, tiers, sent, k);
      MadeAmount(sender, tiers, sent, k);
    }
    AmountsAddUp(sent, tiers[..|sent|]);
  }

  lemma SumSplits(tiers: seq<int>, n: nat)
    requires n <= |tiers|
    ensures Sum(tiers[..n]) + Sum(tiers[n..]) == Sum(tiers)
  {
    TotalConcat(tiers[..n], tiers[n..], Value);
    assert tiers == tiers[..n] + tiers[n..];
  }

  lemma SentAndRest(sender: Sender, tiers: seq<int>, sent: seq<Deposit>)
    requires MadeFirst(sender, tiers, sent)
    ensures Total(sent, AmountSent) + Sum(tiers[|sent|..]) == Sum(tiers)
  {
    SentAmounts(sender, tiers, sent);
    SumSplits(tiers, |sent|);
  }

  /** However a deposit ends, what was sent and what was not yet add up to the amount. */
  lemma InterruptedAddsUp(sender: Sender, amount: int, token: Token)
    requires var outcome := DepositOutcome(sender, amount, token); outcome.Interrupted? || outcome.KeyRefused? || outcome.Deposited?
    ensures TokenSplit(amount, token).Ok?
    ensures var tiers, sent := TokenSplit(amount, token).value, DepositOutcome(sender, amount, token).sent;
      |sent| <= |tiers| && Total(sent, AmountSent) + Sum(tiers[|sent|..]) == amount
  {
    TierSum(amount, token);
    var tiers := TokenSplit(amount, token).value;
    ContinueMakes(sender, tiers, 0, []);
    SentAndRest(sender, tiers, Continue(sender, tiers, 0, []).sent);
  }

  // ---- The ledger ----------------------------------------------------------------------------------------

  /** The accounts deposit transactions create, at whatever leaves and times. */
  ghost predicate Hold(accounts: seq<NoteAccount>, sent: seq<Deposit>) {
    |accounts| == |sent| && forall k :: 0 <= k < |sent| ==> Holds(accounts[k], sent[k])
  }

  ghost predicate Holds(a: NoteAccount, d: Deposit) {
    FitsLayout(a) && a.commitment == d.commitment && a.encryptedNote == d.encryptedNote
  }

  function Layouts(accounts: seq<NoteAccount>): seq<seq<Byte>>
    requires forall k :: 0 <= k < |accounts| ==> FitsLayout(accounts[k])
  {
    seq(|accounts|, k requires 0 <= k < |accounts| => Layout(accounts[k]))
  }

  /** What scanning finds for a deposit: the note itself, where the account says it is. */
  function Recovered(sender: Sender, k: nat, tier: int, a: NoteAccount): ScannedDeposit {
    ChainDeposit(ParsedNote(BytesToHex(a.commitment), a.encryptedNote, a.leafIndex, a.timestamp), NoteFor(sender, k, tier))
  }

  function AllRecovered(sender: Sender, tiers: seq<int>, accounts: seq<NoteAccount>): seq<ScannedDeposit>
    requires |tiers| == |accounts|
  {
    seq(|tiers|, k requires 0 <= k < |tiers| => Recovered(sender, k, tiers[k], accounts[k]))
  }

  lemma OwnAccountFound(sender: Sender, scanPrivkey: Key, k: nat, tier: int, d: Deposit, a: NoteAccount)
    requires Reachable(sender, scanPrivkey) && DepositFor(sender, k, tier) == Some(d) && Holds(a, d)
    ensures ChainFinder(sender.suite, scanPrivkey)(Layout(a)) == Some(Recovered(sender, k, tier, a))
  {
    LayoutParses(a);
    DepositIsMade(sender, scanPrivkey, k, tier);
  }

  lemma OwnAccountsFound(sender: Sender, scanPrivkey: Key, tiers: seq<int>, sent: seq<Deposit>, accounts: seq<NoteAccount>)
    requires Reachable(sender, scanPrivkey) && DepositedFor(sender, tiers, sent) && Hold(accounts, sent)
    ensures forall k :: 0 <= k < |accounts| ==>
      FitsLayout(accounts[k]) && ChainFinder(sender.suite, scanPrivkey)(Layout(accounts[k])) == Some(AllRecovered(sender, tiers, accounts)[k])
  {
    forall k | 0 <= k < |accounts|
      ensures FitsLayout(accounts[k])
      ensures ChainFinder(sender.suite, scanPrivkey)(Layout(accounts[k])) == Some(Recovered(sender, k, tiers[k], accounts[k]))
    {
      assert MadeFor(sender, tiers, sent, k) && Holds(accounts[k], sent[k]);
      OwnAccountFound(sender, scanPrivkey, k, tiers[k], sent[k], accounts[k]);
    }
  }

  /** What scanning a ledger that holds the deposit's accounts in order finds: the recovered
      deposits, in order, between what else the ledger yields. */
  lemma LedgerScan(sender: Sender, scanPrivkey: Key, tiers: seq<int>, sent: seq<Deposit>,
                   accounts: seq<NoteAccount>, gaps: seq<seq<seq<Byte>>>, after: seq<seq<Byte>>)
    requires Reachable(sender, scanPrivkey) && DepositedFor(sender, tiers, sent) && Hold(accounts, sent)
    requires |gaps| == |accounts|
    ensures var finder := ChainFinder(sender.suite, scanPrivkey);
      Collect(Woven(Layouts(accounts), gaps) + after, finder)
        == Woven(AllRecovered(sender, tiers, accounts), CollectAll(gaps, finder)) + Collect(after, finder)
  {
    OwnAccountsFound(sender, scanPrivkey, tiers, sent, accounts);
    CollectWoven(Layouts(accounts), gaps, ChainFinder(sender.suite, scanPrivkey), AllRecovered(sender, tiers, accounts));
    CollectConcat(Woven(Layouts(accounts), gaps), after, ChainFinder(sender.suite, scanPrivkey));
  }

  function AmountFound(d: ScannedDeposit): int { d.amount }

  /** The commitment recomputed from a scanned note is the one its account holds. */
  predicate CommitmentMatches(p: Poseidon, d: ScannedDeposit, a: NoteAccount) {
    && CommitmentOf(p, d.noteData.secret, d.noteData.nullifier, d.noteData.amount) == a.commitment
    && d.commitment == BytesToHex(a.commitment) && d.leafIndex == a.leafIndex && d.timestamp == a.timestamp
  }

  lemma RecomputedCommitments(sender: Sender, tiers: seq<int>, sent: seq<Deposit>, accounts: seq<NoteAccount>)
    requires DepositedFor(sender, tiers, sent) && Hold(accounts, sent)
    ensures forall k :: 0 <= k < |accounts| ==>
      CommitmentMatches(sender.poseidon, AllRecovered(sender, tiers, accounts)[k], accounts[k])
  {
    forall k | 0 <= k < |accounts|
      ensures CommitmentMatches(sender.poseidon, Recovered(sender, k, tiers[k], accounts[k]), accounts[k])
    {
      assert MadeFor(sender, tiers, sent, k) && Holds(accounts[k], sent[k]);
    }
  }

  /** A ledger holds the accounts and any others, in whatever order a query answers. */
  ghost predicate LedgerOf(ledger: seq<seq<Byte>>, accounts: seq<NoteAccount>, others: seq<seq<Byte>>)
    requires forall k :: 0 <= k < |accounts| ==> FitsLayout(accounts[k])
  {
    multiset(ledger) == multiset(Layouts(accounts) + others)
  }

  lemma CollectAmong<T, U>(all: seq<T>, own: seq<T>, others: seq<T>, f: T -> Option<U>, found: seq<U>)
    requires multiset(all) == multiset(own + others)
    requires |own| == |found| && forall k :: 0 <= k < |own| ==> f(own[k]) == Some(found[k])
    ensures multiset(Collect(all, f)) == multiset(found + Collect(others, f))
  {
    CollectOfPermutation(all, own + others, f);
    CollectConcat(own, others, f);
    CollectEach(own, f, found);
  }

  lemma LedgerScanAnyOrder(sender: Sender, scanPrivkey: Key, tiers: seq<int>, sent: seq<Deposit>,
                           accounts: seq<NoteAccount>, others: seq<seq<Byte>>, ledger: seq<seq<Byte>>)
    requires Reachable(sender, scanPrivkey) && DepositedFor(sender, tiers, sent) && Hold(accounts, sent)
    requires LedgerOf(ledger, accounts, others)
    ensures var finder := ChainFinder(sender.suite, scanPrivkey);
      multiset(Collect(ledger, finder)) == multiset(AllRecovered(sender, tiers, accounts) + Collect(others, finder))
  {
    OwnAccountsFound(sender, scanPrivkey, tiers, sent, accounts);
    CollectAmong(ledger, Layouts(accounts), others, ChainFinder(sender.suite, scanPrivkey), AllRecovered(sender, tiers, accounts));
  }

  lemma {:induction false} TotalIsSum(found: seq<ScannedDeposit>, tiers: seq<int>)
    requires |found| == |tiers| && forall k :: 0 <= k < |tiers| ==> found[k].amount == tiers[k]
    ensures Total(found, AmountFound) == Sum(tiers)
  {
    if tiers != [] {
      TotalIsSum(found[..|tiers| - 1], tiers[..|tiers| - 1]);
    }
  }

  /** The recovered deposit has the tier's positive amount, the numbers of its own draw and the
      account's commitment. */
  predicate RecoveredAs(sender: Sender, draw: Draw, d: ScannedDeposit, tier: int, a: NoteAccount) {
    d.amount == tier > 0 && d.noteData == DrawnNote(sender, draw, tier) && CommitmentMatches(sender.poseidon, d, a)
  }

  ghost predicate AllRecoveredAs(sender: Sender, all: seq<ScannedDeposit>, tiers: seq<int>, accounts: seq<NoteAccount>) {
    |all| == |tiers| == |accounts| && forall k: nat :: k < |all| ==> RecoveredAs(sender, sender.draws(k), all[k], tiers[k], accounts[k])
  }

  lemma DepositsRecoveredAs(sender: Sender, scanPrivkey: Key, tiers: seq<int>, sent: seq<Deposit>, accounts: seq<NoteAccount>)
    requires Reachable(sender, scanPrivkey) && DepositedFor(sender, tiers, sent) && Hold(accounts, sent) && AllPositive(tiers)
    ensures AllRecoveredAs(sender, AllRecovered(sender, tiers, accounts), tiers, accounts)
    ensures Total(AllRecovered(sender, tiers, accounts), AmountFound) == Sum(tiers)
  {
    RecomputedCommitments(sender, tiers, sent, accounts);
    forall k: nat | k < |tiers|
      ensures RecoveredAs(sender, sender.draws(k), AllRecovered(sender, tiers, accounts)[k], tiers[k], accounts[k])
    {
      DepositCarriesItsDraw(sender, scanPrivkey, tiers, sent, k);
      DepositIsMade(sender, scanPrivkey, k, tiers[k]);
      assert MadeFor(sender, tiers, sent, k);
    }
    TotalIsSum(AllRecovered(sender, tiers, accounts), tiers);
  }

  predicate NullifiersApart(a: ScannedDeposit, b: ScannedDeposit, p: Poseidon) {
    && a.noteData.nullifier != b.noteData.nullifier
    && (p.one(a.noteData.nullifier) != p.one(b.noteData.nullifier) ==>
          NullifierHashOf(p, a.noteData.nullifier) != NullifierHashOf(p, b.noteData.nullifier))
  }

  /** No two of them carry one nullifier, nor one nullifier hash unless Poseidon collides on the
      two, so the program pays every one of them. */
  ghost predicate EachPayable(p: Poseidon, own: seq<ScannedDeposit>) {
    forall i, j :: 0 <= i < |own| && 0 <= j < |own| && i != j ==> NullifiersApart(own[i], own[j], p)
  }

  lemma RecoveredArePayable(sender: Sender, own: seq<ScannedDeposit>, tiers: seq<int>, accounts: seq<NoteAccount>)
    requires FieldValued(sender.poseidon) && AllRecoveredAs(sender, own, tiers, accounts) && FreshNullifiers(sender, |tiers|)
    ensures EachPayable(sender.poseidon, own)
  {
    forall i: nat, j: nat | i < |own| && j < |own| && i != j ensures NullifiersApart(own[i], own[j], sender.poseidon) {
      assert RecoveredAs(sender, sender.draws(i), own[i], tiers[i], accounts[i]);
      assert RecoveredAs(sender, sender.draws(j), own[j], tiers[j], accounts[j]);
      DrawnNullifiersDiffer(sender, |tiers|, i, j);
      if sender.poseidon.one(own[i].noteData.nullifier) != sender.poseidon.one(own[j].noteData.nullifier) {
        HashesDiffer(sender.poseidon, own[i].noteData.nullifier, own[j].noteData.nullifier);
      }
    }
  }

  /** What a scan finds is one recovered deposit for each tier, with the commitments of their own
      accounts and amounts that add up, and beyond that what the other accounts yield. If the draws'
      nullifiers differ, each of them can be paid. */
  ghost predicate FindsDeposit(sender: Sender, found: seq<ScannedDeposit>, amount: int, tiers: seq<int>,
                               accounts: seq<NoteAccount>, foundInOthers: seq<ScannedDeposit>)
  {
    exists own :: RecoveredAmong(sender, found, amount, tiers, accounts, foundInOthers, own)
  }

  ghost predicate RecoveredAmong(sender: Sender, found: seq<ScannedDeposit>, amount: int, tiers: seq<int>,
                                 accounts: seq<NoteAccount>, foundInOthers: seq<ScannedDeposit>, own: seq<ScannedDeposit>)
  {
    && multiset(found) == multiset(own + foundInOthers)
    && AllRecoveredAs(sender, own, tiers, accounts) && Total(own, AmountFound) == amount
    && (FieldValued(sender.poseidon) && FreshNullifiers(sender, |tiers|) ==> EachPayable(sender.poseidon, own))
  }

  /** From end to end: after a deposit, the recipient's scan of any ledger that holds its accounts,
      in whatever order and among whatever others, earlier deposits to the same recipient included,
      recovers the whole deposit. The amount found grows by exactly what was deposited. */
  lemma EndToEnd(sender: Sender, scanPrivkey: Key, amount: int, token: Token, sent: seq<Deposit>,
                 accounts: seq<NoteAccount>, others: seq<seq<Byte>>, ledger: seq<seq<Byte>>)
    requires Reachable(sender, scanPrivkey) && DepositOutcome(sender, amount, token) == Deposited(sent)
    requires Hold(accounts, sent) && LedgerOf(ledger, accounts, others)
    ensures TokenSplit(amount, token).Ok?
    ensures var finder := ChainFinder(sender.suite, scanPrivkey);
      var found, foundInOthers := Collect(ledger, finder), Collect(others, finder);
      && FindsDeposit(sender, found, amount, TokenSplit(amount, token).value, accounts, foundInOthers)
      && |found| == |sent| + |foundInOthers|
      && Total(found, AmountFound) == amount + Total(foundInOthers, AmountFound)
  {
    DepositedAll(sender, scanPrivkey, amount, token, sent);
    var tiers := TokenSplit(amount, token).value;
    var own := AllRecovered(sender, tiers, accounts);
    LedgerScanAnyOrder(sender, scanPrivkey, tiers, sent, accounts, others, ledger);
    DepositsRecoveredAs(sender, scanPrivkey, tiers, sent, accounts);
    if FieldValued(sender.poseidon) && FreshNullifiers(sender, |tiers|) {
      RecoveredArePayable(sender, own, tiers, accounts);
    }
    var finder := ChainFinder(sender.suite, scanPrivkey);
    var found, foundInOthers := Collect(ledger, finder), Collect(others, finder);
    assert RecoveredAmong(sender, found, amount, tiers, accounts, foundInOthers, own);
    assert |multiset(found)| == |found| && |multiset(own + foundInOthers)| == |own + foundInOthers|;
    TotalOfPermutation(found, own + foundInOthers, AmountFound);
    TotalConcat(own, foundInOthers, AmountFound);
  }

  function SpendableAmount(d: Spendable): int { d.amount }

  lemma {:induction false} MappedPermutation<T, U>(a: seq<T>, b: seq<T>, f: T -> U)
    requires multiset(a) == multiset(b)
    ensures multiset(Mapped(a, f)) == multiset(Mapped(b, f))
  {
    MappedIsCollect(a, f);
    MappedIsCollect(b, f);
    CollectOfPermutation(a, b, (x: T) => Some(f(x)));
  }

  lemma {:induction false} MappedIsCollect<T, U>(s: seq<T>, f: T -> U)
    ensures Mapped(s, f) == Collect(s, (x: T) => Some(f(x)))
  {
    if s != [] { MappedIsCollect(s[..|s| - 1], f); }
  }

  /** The same through the gateway's index, which the client scans first, over whatever
      transactions the accounts came in: the spendable deposits are those of the recovered
      deposits and of what the other accounts yield, and their total grows by the amount. */
  lemma EndToEndThroughIndex(sender: Sender, scanPrivkey: Key, amount: int, token: Token, sent: seq<Deposit>,
                             accounts: seq<NoteAccount>, others: seq<seq<Byte>>, txs: seq<Transaction>)
    requires Reachable(sender, scanPrivkey) && DepositOutcome(sender, amount, token) == Deposited(sent)
    requires Hold(accounts, sent) && LedgerOf(Mapped(BatchEntries(txs), DataOf), accounts, others)
    requires Distinct(BatchEntries(txs))
    ensures TokenSplit(amount, token).Ok?
    ensures var tiers, foundInOthers := TokenSplit(amount, token).value, Collect(others, ChainFinder(sender.suite, scanPrivkey));
      var spendable := Mapped(Collect(IndexAll([], BatchEntries(txs)), IndexFinder(sender.suite, scanPrivkey)), SpendableOf);
      && (exists own, found :: RecoveredAmong(sender, found, amount, tiers, accounts, foundInOthers, own)
                               && multiset(spendable) == multiset(Mapped(own + foundInOthers, SpendableOf)))
      && |spendable| == |sent| + |foundInOthers|
      && Total(spendable, SpendableAmount) == amount + Total(foundInOthers, AmountFound)
  {
    var ledger, finder := Mapped(BatchEntries(txs), DataOf), ChainFinder(sender.suite, scanPrivkey);
    EndToEnd(sender, scanPrivkey, amount, token, sent, accounts, others, ledger);
    IndexScanIsChainScan(sender.suite, scanPrivkey, BatchEntries(txs));
    var found, foundInOthers, tiers := Collect(ledger, finder), Collect(others, finder), TokenSplit(amount, token).value;
    MappedAt(found, SpendableOf);
    TotalMapped(found, SpendableOf, SpendableAmount, AmountFound);
    var own :| RecoveredAmong(sender, found, amount, tiers, accounts, foundInOthers, own);
    MappedPermutation(found, own + foundInOthers, SpendableOf);
  }

  /** The root a withdrawal of a scanned deposit proves against is that of the ledger's own
      commitment at the ledger's own leaf. */
  lemma RecoveredRoot(p: Poseidon, depth: nat, d: ScannedDeposit, a: NoteAccount)
    requires FieldValued(p) && CommitmentMatches(p, d, a)
    ensures BytesValue(a.commitment).Some?
    ensures DepositRoot(p, depth, d.noteData, d.leafIndex)
         == TreeRoot(p.two, OneLeaf(depth, a.leafIndex % Pow(2, depth), BytesValue(a.commitment).value), depth)
  {
    Bytes32RoundTrip(p.three(d.noteData.secret, d.noteData.nullifier, d.noteData.amount));
  }
}
