/** The depositor: one commitment and one encrypted note for every tier of an amount. */
module Deposits {
  import opened Base
  import opened Bytes
  import opened Cipher
  import opened Notes
  import opened Numerals
  import opened Tiers
  import opened Withdrawal
  import Utf8

  type RandomBytes31 = s: seq<Byte> | |s| == 31 witness seq(31, _ => 0)

  type Nonce = s: seq<Byte> | |s| == 12 witness seq(12, _ => 0)

  /** The random numbers one deposit uses. */
  datatype Draw = Draw(secret: RandomBytes31, nullifier: RandomBytes31, ephemeralPrivkey: Key, nonce: Nonce)

  /** `confirms(i)` says whether transaction `i` is built, signed, sent and confirmed. */
  datatype Sender = Sender(
    suite: Suite,
    poseidon: Poseidon,
    draws: nat -> Draw,
    confirms: nat -> bool,
    tokenMint: string,
    scanPubkey: Key
  )

  datatype Deposit = Deposit(amount: int, commitment: seq<Byte>, encryptedNote: seq<Byte>)

  datatype Outcome =
    | BelowMinimum
    | Unsplittable(remainder: int)
    | KeyRefused(sent: seq<Deposit>)
    | Interrupted(sent: seq<Deposit>)
    | Deposited(sent: seq<Deposit>)

  // ---- Random numbers --------------------------------------------------------------------------------

  function BigEndianValue(s: seq<Byte>): nat {
    if s == [] then 0 else BigEndianValue(s[..|s| - 1]) * 256 + s[|s| - 1]
  }

  /** `value = (value << 8n) | BigInt(b)` over the bytes. */
  method GenerateSecureRandom(bytes: RandomBytes31) returns (value: nat)
    ensures value == BigEndianValue(bytes)
  {
    value := 0;
    for i := 0 to |bytes|
      invariant value == BigEndianValue(bytes[..i])
    {
      TwoTo8();
      BitOrShifted(value, bytes[i], 8);
      value := BitOr(value * 256, bytes[i]);
      assert bytes[..i + 1][..i] == bytes[..i];
    }
    assert bytes[..|bytes|] == bytes;
  }

  /** 31 random bytes stay below 2^248, so below the field. */
  lemma {:induction false} BigEndianBelow(s: seq<Byte>)
    ensures BigEndianValue(s) < Pow(256, |s|)
  {
    if s != [] {
      BigEndianBelow(s[..|s| - 1]);
    }
  }

  /** Different random bytes are different numbers. */
  lemma {:induction false} BigEndianInjective(s: seq<Byte>, t: seq<Byte>)
    requires |s| == |t| && BigEndianValue(s) == BigEndianValue(t)
    ensures s == t
  {
    if s != [] {
      var last := |s| - 1;
      DivModUnique(BigEndianValue(s), 256, BigEndianValue(s[..last]), s[last]);
      DivModUnique(BigEndianValue(t), 256, BigEndianValue(t[..last]), t[last]);
      BigEndianInjective(s[..last], t[..last]);
      assert s == s[..last] + [s[last]] && t == t[..last] + [t[last]];
    }
  }

  // ---- One deposit -------------------------------------------------------------------------------------

  function NoteFor(sender: Sender, i: nat, tier: int): (note: DepositNoteData)
    ensures |note.ephemeralPubkey| == EPHEMERAL_PK_LENGTH
  {
    var draw := sender.draws(i);
    DepositNoteData(BigEndianValue(draw.secret), BigEndianValue(draw.nullifier), tier, sender.tokenMint,
                    sender.suite.publicKey(draw.ephemeralPrivkey))
  }

  /** None when X25519 refuses the recipient's key. */
  function DepositFor(sender: Sender, i: nat, tier: int): Option<Deposit> {
    var note, draw := NoteFor(sender, i, tier), sender.draws(i);
    var stealth := DeriveStealthAddress(sender.suite, draw.ephemeralPrivkey, sender.scanPubkey, i);
    if stealth.None? then None
    else Some(Deposit(
      tier,
      CommitmentOf(sender.poseidon, note.secret, note.nullifier, note.amount),
      EncryptedNote(sender.suite, note, stealth.value.sharedSecret, draw.nonce)))
  }

  // ---- The whole deposit ---------------------------------------------------------------------------------

  /** The loop from deposit `i` on. */
  function Continue(sender: Sender, tiers: seq<int>, i: nat, sent: seq<Deposit>): Outcome
    requires i <= |tiers|
    decreases |tiers| - i
  {
    if i == |tiers| then Deposited(sent)
    else
      var next := DepositFor(sender, i, tiers[i]);
      if next.None? then KeyRefused(sent)
      else if !sender.confirms(i) then Interrupted(sent)
      else Continue(sender, tiers, i + 1, sent + [next.value])
  }

  /** The split of an amount over the token's table, whose tiers are all positive. */
  function TokenSplit(amount: int, token: Token): Result<seq<int>, int> {
    SortKeepsPositive(TiersOf(token));
    SplitOutcome(amount, TiersOf(token))
  }

  function DepositOutcome(sender: Sender, amount: int, token: Token): Outcome {
    if amount < MinDeposit(token) then BelowMinimum
    else match TokenSplit(amount, token)
      case Err(remainder) => Unsplittable(remainder)
      case Ok(tiers) => Continue(sender, tiers, 0, [])
  }

  /** executeDeposit; an outcome other than the last is an exception, and `sent` what it leaves confirmed. */
  method ExecuteDeposit(sender: Sender, amount: int, token: Token) returns (outcome: Outcome)
    ensures outcome == DepositOutcome(sender, amount, token)
  {
    if amount < MinDeposit(token) { return BelowMinimum; }
    var split := SplitIntoTiers(amount, TiersOf(token));
    if split.Err? { return Unsplittable(split.error); }
    outcome := DepositTiers(sender, split.value);
  }

  /** The loop over the tiers. */
  method DepositTiers(sender: Sender, tiers: seq<int>) returns (outcome: Outcome)
    ensures outcome == Continue(sender, tiers, 0, [])
  {
    var sent := [];
    for i := 0 to |tiers|
      invariant Continue(sender, tiers, i, sent) == Continue(sender, tiers, 0, [])
    {
      var next := OneDeposit(sender, i, tiers[i]);
      if next.None? { return KeyRefused(sent); }
      if !sender.confirms(i) { return Interrupted(sent); }
      sent := sent + [next.value];
    }
    return Deposited(sent);
  }

  lemma NonceOf(suite: Suite, encrypted: seq<Byte>, key: Key, nonce: seq<Byte>, text: seq<Byte>)
    requires |encrypted| >= 32 && IsSealing(suite, key, nonce, text, encrypted[32..])
    ensures |encrypted| >= 44 && encrypted[32..44] == nonce
  {
    assert encrypted[32..44] == encrypted[32..][..12];
  }

  method OneDeposit(sender: Sender, i: nat, tier: int) returns (deposit: Option<Deposit>)
    ensures deposit == DepositFor(sender, i, tier)
    ensures deposit.None? <==> sender.suite.sharedSecret(sender.draws(i).ephemeralPrivkey, sender.scanPubkey).None?
    ensures deposit.Some? ==> UsesDraw(sender, sender.draws(i), tier, deposit.value)
  {
    hide IsSealing;
    var draw := sender.draws(i);
    var secret := GenerateSecureRandom(draw.secret);
    var nullifier := GenerateSecureRandom(draw.nullifier);
    var commitment := ComputeCommitment(sender.poseidon, secret, nullifier, tier);
    var stealth := DeriveStealthAddress(sender.suite, draw.ephemeralPrivkey, sender.scanPubkey, i);
    if stealth.None? { return None; }
    var note := DepositNoteData(secret, nullifier, tier, sender.tokenMint, stealth.value.ephemeralPubkey);
    var encrypted := EncryptNote(sender.suite, note, stealth.value.sharedSecret, draw.nonce);
    NonceOf(sender.suite, encrypted, sender.suite.sha256(stealth.value.sharedSecret + Utf8.Encode("skaus_note_key")), draw.nonce, SerializeNote(note));
    return Some(Deposit(tier, commitment, encrypted));
  }

  /** What a deposit is made of: the draw's own numbers, key and nonce, and nobody else's. */
  ghost predicate UsesDraw(sender: Sender, draw: Draw, tier: int, d: Deposit) {
    && d.amount == tier
    && d.commitment == Bytes32BE(sender.poseidon.three(BigEndianValue(draw.secret), BigEndianValue(draw.nullifier), tier))
    && |d.encryptedNote| >= 44 && d.encryptedNote[..32] == sender.suite.publicKey(draw.ephemeralPrivkey)
    && d.encryptedNote[32..44] == draw.nonce
  }

  /** Whether a preview says "nothing left over" is whether the deposit would be split. */
  method PreviewDeposit(amount: int, token: Token) returns (depositCount: nat, remainder: int)
    ensures TokenSplit(amount, token).Ok? <==> remainder <= 0
    ensures TokenSplit(amount, token).Ok? ==> depositCount == |TokenSplit(amount, token).value|
    ensures TokenSplit(amount, token).Err? ==> remainder == TokenSplit(amount, token).error
  {
    var deposits, rest := SplitIntoTiersWithRemainder(amount, TiersOf(token));
    return |deposits|, rest;
  }

  ghost predicate Reachable(sender: Sender, scanPrivkey: Key) {
    DhAgrees(sender.suite) && sender.scanPubkey == sender.suite.publicKey(scanPrivkey)
  }

  lemma DepositIsMade(sender: Sender, scanPrivkey: Key, i: nat, tier: int)
    requires Reachable(sender, scanPrivkey)
    ensures DepositFor(sender, i, tier).Some?
    ensures DecryptedNote(sender.suite, DepositFor(sender, i, tier).value.encryptedNote, scanPrivkey) == Ok(NoteFor(sender, i, tier))
  {
    var draw := sender.draws(i);
    assert Exchanges(sender.suite, draw.ephemeralPrivkey, scanPrivkey);
    RecipientReadsNote(sender.suite, NoteFor(sender, i, tier), draw.nonce, draw.ephemeralPrivkey, scanPrivkey);
  }

  /** The note of deposit `i`, made of the numbers of draw `i`. */
  function DrawnNote(sender: Sender, draw: Draw, tier: int): DepositNoteData {
    DepositNoteData(BigEndianValue(draw.secret), BigEndianValue(draw.nullifier), tier, sender.tokenMint,
                    sender.suite.publicKey(draw.ephemeralPrivkey))
  }

  /** The recipient reads from deposit `k` the numbers of draw `k`. */
  lemma DepositCarriesItsDraw(sender: Sender, scanPrivkey: Key, tiers: seq<int>, sent: seq<Deposit>, k: nat)
    requires Reachable(sender, scanPrivkey) && MadeFirst(sender, tiers, sent) && k < |sent|
    ensures DecryptedNote(sender.suite, sent[k].encryptedNote, scanPrivkey) == Ok(DrawnNote(sender, sender.draws(k), tiers[k]))
    ensures sent[k].commitment
         == Bytes32BE(sender.poseidon.three(BigEndianValue(sender.draws(k).secret), BigEndianValue(sender.draws(k).nullifier), tiers[k]))
  {
    assert MadeFor(sender, tiers, sent, k);
    DepositIsMade(sender, scanPrivkey, k, tiers[k]);
  }

  ghost predicate FreshNullifiers(sender: Sender, n: nat) {
    forall i: nat, j: nat :: i < j < n ==> sender.draws(i).nullifier != sender.draws(j).nullifier
  }

  lemma DrawnNullifiersDiffer(sender: Sender, n: nat, i: nat, j: nat)
    requires FreshNullifiers(sender, n) && i < n && j < n && i != j
    ensures BigEndianValue(sender.draws(i).nullifier) != BigEndianValue(sender.draws(j).nullifier)
  {
    if BigEndianValue(sender.draws(i).nullifier) == BigEndianValue(sender.draws(j).nullifier) {
      BigEndianInjective(sender.draws(i).nullifier, sender.draws(j).nullifier);
    }
  }

  /** Different nullifiers have different hashes, unless Poseidon collides on the two. */
  lemma HashesDiffer(p: Poseidon, m: int, n: int)
    requires FieldValued(p) && (p.one(m) == p.one(n) ==> m == n) && m != n
    ensures NullifierHashOf(p, m) != NullifierHashOf(p, n)
  {
    Bytes32RoundTrip(p.one(m));
    Bytes32RoundTrip(p.one(n));
  }

  lemma {:induction false} HexSpells(s: seq<Byte>)
    ensures AllDigits(BytesToHex(s), 16) && Spelled(BytesToHex(s), 16) == BigEndianValue(s)
  {
    if s != [] {
      var last := |s| - 1;
      assert s == s[..last] + [s[last]];
      HexSpells(s[..last]);
      HexAppend(s[..last], s[last]);
      ByteHexIs(s[last]);
      DigitCharIs(s[last] / 16, 16);
      DigitCharIs(s[last] % 16, 16);
      SpelledAppend(BytesToHex(s[..last]), DigitChar(s[last] / 16), 16);
      SpelledAppend(BytesToHex(s[..last]) + [DigitChar(s[last] / 16)], DigitChar(s[last] % 16), 16);
      assert BytesToHex(s) == BytesToHex(s[..last]) + [DigitChar(s[last] / 16)] + [DigitChar(s[last] % 16)];
    }
  }

  /** Commitments and hashes are written with the most significant byte first. */
  lemma WrittenBigEndian(value: nat)
    requires value < TWO_TO_256
    ensures BigEndianValue(Bytes32BE(value)) == value
  {
    Bytes32RoundTrip(value);
    HexSpells(Bytes32BE(value));
    HexRoundTrip(Bytes32BE(value));
    HexDigitsAreDigits(BytesToHex(Bytes32BE(value)));
  }

  /** Deposit `k` of a run is the one made for tier `k`. */
  ghost predicate MadeFor(sender: Sender, tiers: seq<int>, sent: seq<Deposit>, k: nat)
    requires k < |tiers| && k < |sent|
  {
    DepositFor(sender, k, tiers[k]) == Some(sent[k])
  }

  /** The first deposits are those of the first tiers, each confirmed. */
  ghost predicate MadeFirst(sender: Sender, tiers: seq<int>, sent: seq<Deposit>) {
    |sent| <= |tiers| && forall k: nat :: k < |sent| ==> MadeFor(sender, tiers, sent, k) && sender.confirms(k)
  }

  lemma MadeNext(sender: Sender, tiers: seq<int>, sent: seq<Deposit>, d: Deposit)
    requires MadeFirst(sender, tiers, sent) && |sent| < |tiers|
    requires DepositFor(sender, |sent|, tiers[|sent|]) == Some(d) && sender.confirms(|sent|)
    ensures MadeFirst(sender, tiers, sent + [d])
  {
    forall k: nat | k < |sent| + 1 ensures MadeFor(sender, tiers, sent + [d], k) && sender.confirms(k) {
      if k < |sent| { assert MadeFor(sender, tiers, sent, k); }
    }
  }

  /** The outcome of a loop: it ends well exactly when it reaches the last tier, and stops at the
      first refused key or unconfirmed transaction. */
  ghost predicate EndsRight(sender: Sender, tiers: seq<int>, outcome: Outcome) {
    && (outcome.Deposited? || outcome.KeyRefused? || outcome.Interrupted?)
    && MadeFirst(sender, tiers, outcome.sent) && (outcome.Deposited? <==> |outcome.sent| == |tiers|)
    && (outcome.KeyRefused? ==> DepositFor(sender, |outcome.sent|, tiers[|outcome.sent|]).None?)
    && (outcome.Interrupted? ==> !sender.confirms(|outcome.sent|))
  }

  lemma {:induction false} ContinueMakes(sender: Sender, tiers: seq<int>, i: nat, sent: seq<Deposit>)
    requires i == |sent| && MadeFirst(sender, tiers, sent)
    ensures EndsRight(sender, tiers, Continue(sender, tiers, i, sent))
    decreases |tiers| - i
  {
    hide DepositFor;
    if i < |tiers| {
      var next := DepositFor(sender, i, tiers[i]);
      if next.Some? && sender.confirms(i) {
        MadeNext(sender, tiers, sent, next.value);
        ContinueMakes(sender, tiers, i + 1, sent + [next.value]);
      }
    }
  }
}
