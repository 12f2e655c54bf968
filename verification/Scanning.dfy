/** The recipient: trial decryption of every deposit on chain or in the index. */
module Scanning {
  import opened Base
  import opened Bytes
  import opened Cipher
  import opened DepositAccounts
  import opened Notes
  import Base64

  datatype ScannedDeposit = ScannedDeposit(
    id: string,
    commitment: string,
    leafIndex: nat,
    amount: int,
    token: string,
    timestamp: int,
    txSignature: string,
    noteData: DepositNoteData
  )

  // ---- On chain ----------------------------------------------------------------------------------------

  predicate OccursAt(s: string, part: string, i: nat) {
    i + |part| <= |s| && s[i..i + |part|] == part
  }

  predicate Includes(s: string, part: string) {
    exists i | 0 <= i <= |s| :: OccursAt(s, part, i)
  }

  function TokenLabel(mint: string): string {
    if Includes(mint, "So") then "SOL" else "USDC"
  }

  function ChainDeposit(parsed: ParsedNote, note: DepositNoteData): ScannedDeposit {
    ScannedDeposit(parsed.commitment, parsed.commitment, parsed.leafIndex, note.amount, TokenLabel(note.tokenMint),
                   parsed.timestamp, "", note)
  }

  /** What one account's data yields. */
  function FoundOnChain(suite: Suite, scanPrivkey: Key, data: seq<Byte>): Option<ScannedDeposit> {
    var parsed := ScanParse(data);
    if parsed.None? then None
    else
      var note := DecryptedNote(suite, parsed.value.encryptedNote, scanPrivkey);
      if note.Err? then None else Some(ChainDeposit(parsed.value, note.value))
  }

  function ChainFinder(suite: Suite, scanPrivkey: Key): seq<Byte> -> Option<ScannedDeposit> {
    data => FoundOnChain(suite, scanPrivkey, data)
  }

  /** The body of the loop; every exception in it is caught and the account skipped. */
  method TryAccount(suite: Suite, data: seq<Byte>, scanPrivkey: Key) returns (found: Option<ScannedDeposit>)
    ensures found == ChainFinder(suite, scanPrivkey)(data)
    ensures found.Some? <==> ScanParse(data).Some? && DecryptedNote(suite, ScanParse(data).value.encryptedNote, scanPrivkey).Ok?
    ensures found.Some? ==>
      var parsed := ScanParse(data).value;
      var note := DecryptedNote(suite, parsed.encryptedNote, scanPrivkey).value;
      found.value == ScannedDeposit(parsed.commitment, parsed.commitment, parsed.leafIndex, note.amount,
        if exists i | 0 <= i <= |note.tokenMint| :: OccursAt(note.tokenMint, "So", i) then "SOL" else "USDC",
        parsed.timestamp, "", note)
  {
    hide ScanParse, DecryptedNote, OccursAt;
    var parsed := ScanParse(data);
    if parsed.None? { return None; }
    var note := DecryptNote(suite, parsed.value.encryptedNote, scanPrivkey);
    return if note.Err? then None else Some(ChainDeposit(parsed.value, note.value));
  }

  method ScanDepositsOnChain(suite: Suite, accounts: seq<seq<Byte>>, scanPrivkey: Key) returns (found: seq<ScannedDeposit>)
    ensures found == Collect(accounts, ChainFinder(suite, scanPrivkey))
  {
    found := [];
    for i := 0 to |accounts|
      invariant found == Collect(accounts[..i], ChainFinder(suite, scanPrivkey))
    {
      CollectNext(accounts, i, ChainFinder(suite, scanPrivkey));
      var deposit := TryAccount(suite, accounts[i], scanPrivkey);
      if deposit.Some? {
        found := found + [deposit.value];
      }
    }
    assert accounts[..|accounts|] == accounts;
  }

  // ---- Through the index ---------------------------------------------------------------------------------

  datatype IndexedDeposit = IndexedDeposit(
    commitment: string,
    leafIndex: nat,
    encryptedNote: string,
    timestamp: int,
    txSignature: string
  )

  /** The row the indexer writes for an account, if it parses. */
  function IndexRow(data: seq<Byte>, signature: string): Option<IndexedDeposit> {
    var parsed := GatewayParse(data);
    if parsed.None? then None
    else Some(IndexedDeposit(parsed.value.commitment, parsed.value.leafIndex, Base64.Encode(parsed.value.encryptedNote),
                             parsed.value.timestamp, signature))
  }

  function FoundIndexed(suite: Suite, scanPrivkey: Key, dep: IndexedDeposit): Option<ScannedDeposit> {
    var note := DecryptedNote(suite, Base64.Decode(dep.encryptedNote), scanPrivkey);
    if note.Err? then None else Some(IndexDeposit(dep, note.value))
  }

  function IndexDeposit(dep: IndexedDeposit, note: DepositNoteData): ScannedDeposit {
    ScannedDeposit(dep.commitment, dep.commitment, dep.leafIndex, note.amount, "USDC", dep.timestamp, dep.txSignature, note)
  }

  function IndexFinder(suite: Suite, scanPrivkey: Key): IndexedDeposit -> Option<ScannedDeposit> {
    dep => FoundIndexed(suite, scanPrivkey, dep)
  }

  method TryIndexed(suite: Suite, dep: IndexedDeposit, scanPrivkey: Key) returns (found: Option<ScannedDeposit>)
    ensures found == IndexFinder(suite, scanPrivkey)(dep)
    ensures var note := DecryptedNote(suite, Base64.Decode(dep.encryptedNote), scanPrivkey);
      && (found.Some? <==> note.Ok?)
      && (found.Some? ==> found.value == ScannedDeposit(dep.commitment, dep.commitment, dep.leafIndex, note.value.amount, "USDC",
            dep.timestamp, dep.txSignature, note.value))
  {
    var note := DecryptNote(suite, Base64.Decode(dep.encryptedNote), scanPrivkey);
    return if note.Err? then None else Some(IndexDeposit(dep, note.value));
  }

  method ScanForDeposits(suite: Suite, deposits: seq<IndexedDeposit>, scanPrivkey: Key) returns (found: seq<ScannedDeposit>)
    ensures found == Collect(deposits, IndexFinder(suite, scanPrivkey))
  {
    found := [];
    for i := 0 to |deposits|
      invariant found == Collect(deposits[..i], IndexFinder(suite, scanPrivkey))
    {
      CollectNext(deposits, i, IndexFinder(suite, scanPrivkey));
      var deposit := TryIndexed(suite, deposits[i], scanPrivkey);
      if deposit.Some? {
        found := found + [deposit.value];
      }
    }
    assert deposits[..|deposits|] == deposits;
  }

  /** What a withdrawal uses of a scanned deposit. */
  datatype Spendable = Spendable(commitment: string, leafIndex: nat, amount: int, timestamp: int, note: DepositNoteData)

  function SpendableOf(d: ScannedDeposit): Spendable {
    Spendable(d.commitment, d.leafIndex, d.amount, d.timestamp, d.noteData)
  }

  /** An account of a transaction, with the transaction's signature. */
  datatype Entry = Entry(data: seq<Byte>, signature: string)

  function DataOf(e: Entry): seq<Byte> { e.data }

  function RowOf(e: Entry): Option<IndexedDeposit> { IndexRow(e.data, e.signature) }

  function EntryFinder(suite: Suite, scanPrivkey: Key): Entry -> Option<ScannedDeposit> {
    (e: Entry) => FoundOnChain(suite, scanPrivkey, e.data)
  }

  /** The row of an account holds what the account does, its note as base64, and the signature. */
  lemma IndexRowIs(data: seq<Byte>, signature: string)
    ensures var row, parsed := IndexRow(data, signature), ScanParse(data);
      && (row.Some? <==> parsed.Some?)
      && (row.Some? ==> row.value.commitment == parsed.value.commitment && row.value.leafIndex == parsed.value.leafIndex
                        && row.value.timestamp == parsed.value.timestamp && row.value.txSignature == signature
                        && Base64.Decode(row.value.encryptedNote) == parsed.value.encryptedNote)
  {
    ParsersAgree(data);
    if GatewayParse(data).Some? {
      Base64.RoundTrip(GatewayParse(data).value.encryptedNote);
    }
  }

  /** Through the index, base64 and back, an account yields what it yields on chain. */
  lemma IndexedYieldsSame(suite: Suite, scanPrivkey: Key, e: Entry)
    ensures StagesAgree(e, RowOf, IndexFinder(suite, scanPrivkey), EntryFinder(suite, scanPrivkey), SpendableOf)
  {
    ParsersAgree(e.data);
    if GatewayParse(e.data).Some? {
      Base64.RoundTrip(GatewayParse(e.data).value.encryptedNote);
    }
  }

  /** Scanning the index of any accounts finds, in order, the deposits scanning the accounts does. */
  lemma ScannersAgree(suite: Suite, scanPrivkey: Key, entries: seq<Entry>)
    ensures Mapped(Collect(Collect(entries, RowOf), IndexFinder(suite, scanPrivkey)), SpendableOf)
         == Mapped(Collect(Mapped(entries, DataOf), ChainFinder(suite, scanPrivkey)), SpendableOf)
  {
    forall i | 0 <= i < |entries|
      ensures StagesAgree(entries[i], RowOf, IndexFinder(suite, scanPrivkey), EntryFinder(suite, scanPrivkey), SpendableOf)
    {
      IndexedYieldsSame(suite, scanPrivkey, entries[i]);
    }
    CollectInStages(entries, RowOf, IndexFinder(suite, scanPrivkey), EntryFinder(suite, scanPrivkey), SpendableOf);
    CollectMapped(entries, DataOf, ChainFinder(suite, scanPrivkey), EntryFinder(suite, scanPrivkey));
  }
}
