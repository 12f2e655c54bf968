/** The gateway's index of deposits, which the same transaction may be fed to more than once. */
module Indexer {
  import opened Base
  import opened Bytes
  import opened Cipher
  import opened Scanning

  predicate Has(rows: seq<IndexedDeposit>, commitment: string) {
    exists i :: 0 <= i < |rows| && rows[i].commitment == commitment
  }

  /** An upsert that updates nothing: the first row of a commitment stays. */
  function Upsert(rows: seq<IndexedDeposit>, row: IndexedDeposit): seq<IndexedDeposit> {
    if Has(rows, row.commitment) then rows else rows + [row]
  }

  function IndexOne(rows: seq<IndexedDeposit>, e: Entry): seq<IndexedDeposit> {
    if RowOf(e).None? then rows else Upsert(rows, RowOf(e).value)
  }

  function IndexAll(rows: seq<IndexedDeposit>, entries: seq<Entry>): seq<IndexedDeposit> {
    if entries == [] then rows
    else IndexOne(IndexAll(rows, entries[..|entries| - 1]), entries[|entries| - 1])
  }

  datatype Transaction = Transaction(signature: string, failed: bool, accounts: seq<seq<Byte>>)

  /** Every account of a transaction, in order. */
  function EntriesOf(tx: Transaction): seq<Entry> {
    seq(|tx.accounts|, k requires 0 <= k < |tx.accounts| => Entry(tx.accounts[k], tx.signature))
  }

  /** What the query answers newest first is processed oldest first, failed transactions left out. */
  function BatchEntries(txs: seq<Transaction>): seq<Entry> {
    if txs == [] then []
    else BatchEntries(txs[1..]) + if txs[0].failed then [] else EntriesOf(txs[0])
  }

  ghost predicate Unique(rows: seq<IndexedDeposit>) {
    forall i, j :: 0 <= i < j < |rows| ==> rows[i].commitment != rows[j].commitment
  }

  lemma {:induction false} IndexAllConcat(rows: seq<IndexedDeposit>, a: seq<Entry>, b: seq<Entry>)
    ensures IndexAll(rows, a + b) == IndexAll(IndexAll(rows, a), b)
  {
    if b == [] {
      assert a + b == a;
    } else {
      var last := |b| - 1;
      assert (a + b)[..|a + b| - 1] == a + b[..last];
      IndexAllConcat(rows, a, b[..last]);
    }
  }

  class DepositIndexer {
    var rows: seq<IndexedDeposit>

    constructor ()
      ensures rows == []
    {
      rows := [];
    }

    /** The accounts of the transaction that the program owns; one that does not parse is skipped. */
    method ProcessTransaction(tx: Transaction)
      modifies this
      ensures rows == IndexAll(old(rows), EntriesOf(tx))
    {
      ghost var entries := EntriesOf(tx);
      for i := 0 to |tx.accounts|
        invariant rows == IndexAll(old(rows), entries[..i])
      {
        var row := IndexRow(tx.accounts[i], tx.signature);
        if row.Some? && !Has(rows, row.value.commitment) {
          rows := rows + [row.value];
        }
        assert entries[..i + 1][..i] == entries[..i];
      }
      assert entries[..|entries|] == entries;
    }

    /** The loop of a poll. */
    method ProcessBatch(txs: seq<Transaction>)
      modifies this
      ensures rows == IndexAll(old(rows), BatchEntries(txs))
    {
      for i := |txs| downto 0
        invariant rows == IndexAll(old(rows), BatchEntries(txs[i..]))
      {
        assert txs[i..][1..] == txs[i + 1..] && BatchEntries(txs[i + 1..]) + [] == BatchEntries(txs[i + 1..]);
        if !txs[i].failed {
          ProcessTransaction(txs[i]);
          IndexAllConcat(old(rows), BatchEntries(txs[i + 1..]), EntriesOf(txs[i]));
        }
      }
    }
  }

  lemma HasAfter(rows: seq<IndexedDeposit>, row: IndexedDeposit)
    ensures Has(Upsert(rows, row), row.commitment)
  {
    if !Has(rows, row.commitment) {
      assert (rows + [row])[|rows|] == row;
    }
  }

  lemma HasMore(rows: seq<IndexedDeposit>, more: seq<IndexedDeposit>, commitment: string)
    requires rows <= more && Has(rows, commitment)
    ensures Has(more, commitment)
  {
    var i :| 0 <= i < |rows| && rows[i].commitment == commitment;
    assert more[i] == rows[i];
  }

  /** Indexing only adds rows, never two of one commitment, and every account that parses is there. */
  lemma {:induction false} IndexAllAdds(rows: seq<IndexedDeposit>, entries: seq<Entry>)
    ensures rows <= IndexAll(rows, entries)
    ensures Unique(rows) ==> Unique(IndexAll(rows, entries))
    ensures forall k :: 0 <= k < |entries| && RowOf(entries[k]).Some? ==>
      Has(IndexAll(rows, entries), RowOf(entries[k]).value.commitment)
  {
    hide RowOf;
    if entries != [] {
      var front, e := entries[..|entries| - 1], entries[|entries| - 1];
      var before, after := IndexAll(rows, front), IndexAll(rows, entries);
      IndexAllAdds(rows, front);
      forall k | 0 <= k < |entries| && RowOf(entries[k]).Some?
        ensures Has(after, RowOf(entries[k]).value.commitment)
      {
        if k < |front| {
          assert front[k] == entries[k];
          HasMore(before, after, RowOf(entries[k]).value.commitment);
        } else {
          HasAfter(before, RowOf(e).value);
        }
      }
    }
  }

  /** A table that has the commitment of every account is left as it is. */
  lemma {:induction false} IndexAgain(rows: seq<IndexedDeposit>, entries: seq<Entry>)
    requires forall k :: 0 <= k < |entries| && RowOf(entries[k]).Some? ==> Has(rows, RowOf(entries[k]).value.commitment)
    ensures IndexAll(rows, entries) == rows
  {
    if entries != [] {
      var last := |entries| - 1;
      assert forall k :: 0 <= k < last ==> entries[..last][k] == entries[k];
      IndexAgain(rows, entries[..last]);
    }
  }

  lemma CommitmentIgnoresSignature(data: seq<Byte>, a: string, b: string)
    ensures IndexRow(data, a).Some? == IndexRow(data, b).Some?
    ensures IndexRow(data, a).Some? ==> IndexRow(data, a).value.commitment == IndexRow(data, b).value.commitment
  {
  }

  /** Processing accounts again, even under other signatures and after others, changes nothing. */
  lemma ReprocessingIsIdempotent(rows: seq<IndexedDeposit>, entries: seq<Entry>, others: seq<Entry>, again: seq<Entry>)
    requires Mapped(again, DataOf) == Mapped(entries, DataOf)
    ensures var once := IndexAll(IndexAll(rows, entries), others); IndexAll(once, again) == once
  {
    var first := IndexAll(rows, entries);
    var once := IndexAll(first, others);
    IndexAllAdds(rows, entries);
    IndexAllAdds(first, others);
    MappedAt(again, DataOf);
    MappedAt(entries, DataOf);
    forall k | 0 <= k < |again| && RowOf(again[k]).Some? ensures Has(once, RowOf(again[k]).value.commitment) {
      assert again[k].data == Mapped(entries, DataOf)[k] == entries[k].data;
      CommitmentIgnoresSignature(entries[k].data, entries[k].signature, again[k].signature);
      HasMore(first, once, RowOf(again[k]).value.commitment);
    }
    IndexAgain(once, again);
  }

  /** Accounts with commitments of their own all get their row, in order. */
  ghost predicate Distinct(entries: seq<Entry>) {
    Unique(Collect(entries, RowOf))
  }

  lemma {:induction false} DistinctAreAllIndexed(entries: seq<Entry>)
    requires Distinct(entries)
    ensures IndexAll([], entries) == Collect(entries, RowOf)
  {
    if entries != [] {
      var front, e := entries[..|entries| - 1], entries[|entries| - 1];
      var rows := Collect(front, RowOf);
      assert rows <= Collect(entries, RowOf);
      DistinctAreAllIndexed(front);
      if RowOf(e).Some? {
        NotYetThere(rows, RowOf(e).value);
      }
    }
  }

  lemma NotYetThere(rows: seq<IndexedDeposit>, row: IndexedDeposit)
    requires Unique(rows + [row])
    ensures !Has(rows, row.commitment)
  {
    var all := rows + [row];
    forall i | 0 <= i < |rows| ensures rows[i].commitment != row.commitment {
      assert all[i] == rows[i] && all[|rows|] == row;
    }
  }

  /** Exactly then: of two accounts with one commitment the index keeps the first. */
  lemma AllIndexedIff(entries: seq<Entry>)
    ensures IndexAll([], entries) == Collect(entries, RowOf) <==> Distinct(entries)
  {
    IndexAllAdds([], entries);
    if Distinct(entries) {
      DistinctAreAllIndexed(entries);
    }
  }

  /** So, unless two accounts share a commitment, scanning the index finds what scanning the
      accounts finds. */
  lemma IndexScanIsChainScan(suite: Suite, scanPrivkey: Key, entries: seq<Entry>)
    requires Distinct(entries)
    ensures Mapped(Collect(IndexAll([], entries), IndexFinder(suite, scanPrivkey)), SpendableOf)
         == Mapped(Collect(Mapped(entries, DataOf), ChainFinder(suite, scanPrivkey)), SpendableOf)
  {
    DistinctAreAllIndexed(entries);
    ScannersAgree(suite, scanPrivkey, entries);
  }

  // ---- What a batch leaves in the index ------------------------------------------------------------------

  /** Older transactions come first, failed ones not at all. */
  lemma {:induction false} BatchConcat(newer: seq<Transaction>, older: seq<Transaction>)
    ensures BatchEntries(newer + older) == BatchEntries(older) + BatchEntries(newer)
  {
    if newer == [] {
      assert newer + older == older;
    } else {
      assert (newer + older)[1..] == newer[1..] + older;
      BatchConcat(newer[1..], older);
    }
  }

  lemma BatchOfOne(tx: Transaction)
    ensures |BatchEntries([tx])| == if tx.failed then 0 else |tx.accounts|
    ensures !tx.failed ==> forall k :: 0 <= k < |tx.accounts| ==> BatchEntries([tx])[k] == Entry(tx.accounts[k], tx.signature)
  {
    assert BatchEntries([tx][1..]) == [];
  }

  /** Account `k` of transaction `i`, which did not fail, parses and holds the commitment. */
  predicate Holds(txs: seq<Transaction>, i: nat, k: nat, commitment: string) {
    && i < |txs| && !txs[i].failed && k < |txs[i].accounts|
    && var row := RowOf(Entry(txs[i].accounts[k], txs[i].signature));
       row.Some? && row.value.commitment == commitment
  }

  ghost predicate EntryHolds(entries: seq<Entry>, commitment: string) {
    exists e :: e in entries && RowOf(e).Some? && RowOf(e).value.commitment == commitment
  }

  lemma {:induction false} BatchHolds(txs: seq<Transaction>, commitment: string)
    ensures EntryHolds(BatchEntries(txs), commitment) <==> exists i, k :: Holds(txs, i, k, commitment)
  {
    if txs != [] {
      var rest := txs[1..];
      BatchHolds(rest, commitment);
      FirstHolds(txs, commitment);
      hide Holds, EntryHolds, BatchEntries;
      forall i: nat, k: nat | Holds(txs, i, k, commitment) && i > 0 ensures Holds(rest, i - 1, k, commitment) {
        LaterHolds(txs, i - 1, k, commitment);
      }
      forall i: nat, k: nat | Holds(rest, i, k, commitment) ensures Holds(txs, i + 1, k, commitment) {
        LaterHolds(txs, i, k, commitment);
      }
    } else {
      assert BatchEntries(txs) == [];
    }
  }

  lemma LaterHolds(txs: seq<Transaction>, i: nat, k: nat, commitment: string)
    requires txs != []
    ensures Holds(txs, i + 1, k, commitment) <==> Holds(txs[1..], i, k, commitment)
  {
    hide RowOf;
    assert i + 1 < |txs| ==> txs[1..][i] == txs[i + 1];
  }

  lemma FirstHolds(txs: seq<Transaction>, commitment: string)
    requires txs != []
    ensures EntryHolds(BatchEntries(txs), commitment) <==>
      EntryHolds(BatchEntries(txs[1..]), commitment) || exists k :: Holds(txs, 0, k, commitment)
  {
    hide RowOf;
    var own := if txs[0].failed then [] else EntriesOf(txs[0]);
    assert BatchEntries(txs) == BatchEntries(txs[1..]) + own;
    EntryHoldsConcat(BatchEntries(txs[1..]), own, commitment);
    OwnHolds(txs, own, commitment);
  }

  lemma EntryHoldsConcat(a: seq<Entry>, b: seq<Entry>, commitment: string)
    ensures EntryHolds(a + b, commitment) <==> EntryHolds(a, commitment) || EntryHolds(b, commitment)
  {
    hide RowOf;
    if EntryHolds(a, commitment) {
      var e :| e in a && RowOf(e).Some? && RowOf(e).value.commitment == commitment;
      assert e in a + b;
    }
    if EntryHolds(b, commitment) {
      var e :| e in b && RowOf(e).Some? && RowOf(e).value.commitment == commitment;
      assert e in a + b;
    }
  }

  lemma OwnHolds(txs: seq<Transaction>, own: seq<Entry>, commitment: string)
    requires txs != [] && own == if txs[0].failed then [] else EntriesOf(txs[0])
    ensures EntryHolds(own, commitment) <==> exists k :: Holds(txs, 0, k, commitment)
  {
    hide RowOf;
    if EntryHolds(own, commitment) {
      var e :| e in own && RowOf(e).Some? && RowOf(e).value.commitment == commitment;
      var k :| 0 <= k < |own| && own[k] == e;
      assert Holds(txs, 0, k, commitment);
    }
    if exists k :: Holds(txs, 0, k, commitment) {
      var k: nat :| Holds(txs, 0, k, commitment);
      var e := Entry(txs[0].accounts[k], txs[0].signature);
      assert own[k] == e && e in own;
    }
  }

  lemma {:induction false} IndexedHolds(entries: seq<Entry>, commitment: string)
    ensures Has(IndexAll([], entries), commitment) <==> EntryHolds(entries, commitment)
  {
    if entries != [] {
      var front, e := entries[..|entries| - 1], entries[|entries| - 1];
      IndexedHolds(front, commitment);
      var before := IndexAll([], front);
      assert entries == front + [e];
      OneHolds(before, e, commitment);
    }
  }

  lemma OneHolds(rows: seq<IndexedDeposit>, e: Entry, commitment: string)
    ensures Has(IndexOne(rows, e), commitment) <==>
      Has(rows, commitment) || (RowOf(e).Some? && RowOf(e).value.commitment == commitment)
  {
    if RowOf(e).Some? {
      HasAfter(rows, RowOf(e).value);
      if Has(rows, commitment) { HasMore(rows, Upsert(rows, RowOf(e).value), commitment); }
    }
  }

  /** After a batch the index has a commitment exactly when some transaction that did not fail holds
      an account with it. */
  lemma BatchIndexes(txs: seq<Transaction>, commitment: string)
    ensures Has(IndexAll([], BatchEntries(txs)), commitment) <==> exists i, k :: Holds(txs, i, k, commitment)
  {
    IndexedHolds(BatchEntries(txs), commitment);
    BatchHolds(txs, commitment);
  }

  /** A row is that of the first entry with its commitment, signature included. */
  ghost predicate FirstOf(entries: seq<Entry>, row: IndexedDeposit, k: nat) {
    && k < |entries| && RowOf(entries[k]) == Some(row)
    && forall l :: 0 <= l < k && RowOf(entries[l]).Some? ==> RowOf(entries[l]).value.commitment != row.commitment
  }

  lemma FirstStays(entries: seq<Entry>, row: IndexedDeposit, k: nat)
    requires entries != [] && FirstOf(entries[..|entries| - 1], row, k)
    ensures FirstOf(entries, row, k)
  {
    hide RowOf;
    var front := entries[..|entries| - 1];
    assert forall l :: 0 <= l < |front| ==> front[l] == entries[l];
  }

  lemma {:induction false} RowsAreFirst(entries: seq<Entry>, i: nat)
    requires i < |IndexAll([], entries)|
    ensures exists k :: FirstOf(entries, IndexAll([], entries)[i], k)
  {
    hide RowOf;
    var last := |entries| - 1;
    var front, e := entries[..last], entries[last];
    var before := IndexAll([], front);
    assert IndexAll([], entries) == IndexOne(before, e);
    if i < |before| {
      assert IndexAll([], entries)[i] == before[i];
      RowsAreFirst(front, i);
      var k :| FirstOf(front, before[i], k);
      FirstStays(entries, before[i], k);
    } else {
      IndexAllAdds([], front);
      assert RowOf(e).Some? && !Has(before, RowOf(e).value.commitment) && IndexAll([], entries)[i] == RowOf(e).value;
      forall l | 0 <= l < last && RowOf(entries[l]).Some? ensures RowOf(entries[l]).value.commitment != RowOf(e).value.commitment {
        assert front[l] == entries[l] && Has(before, RowOf(front[l]).value.commitment);
      }
      assert FirstOf(entries, RowOf(e).value, last);
    }
  }
}
