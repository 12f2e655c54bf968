/** Deposit notes: their text, their encryption and their framing; stealth addresses. */
module Notes {
  import opened Base
  import opened Bytes
  import opened Cipher
  import opened Numerals
  import Json
  import Utf8

  datatype DepositNoteData = DepositNoteData(
    secret: int,
    nullifier: int,
    amount: int,
    tokenMint: string,
    ephemeralPubkey: seq<Byte>
  )

  datatype NoteError = TooShort | BadKey | BadTag | BadPayload

  const EPHEMERAL_PK_LENGTH: nat := 32

  // ---- Text of a note ----------------------------------------------------------------------------

  function NoteJson(note: DepositNoteData): Json.Value {
    Json.Object([
      Json.Field("secret", Json.Text(Decimal(note.secret))),
      Json.Field("nullifier", Json.Text(Decimal(note.nullifier))),
      Json.Field("amount", Json.Text(Decimal(note.amount))),
      Json.Field("tokenMint", Json.Text(note.tokenMint)),
      Json.Field("ephemeralPubkey", Json.Text(BytesToHex(note.ephemeralPubkey)))
    ])
  }

  function SerializeNote(note: DepositNoteData): seq<Byte> {
    Utf8.Encode(Json.Print(NoteJson(note)))
  }

  /** `v.name`, undefined unless `v` is an object that has it. */
  function Property(v: Json.Value, name: string): Option<Json.Value> {
    if v.Object? then Json.Lookup(v.fields, name) else None
  }

  /** A parsed value as text, the way arrays are joined. */
  function ToText(v: Json.Value): string
    decreases v, 1
  {
    match v
    case Null => "null"
    case Bool(b) => if b then "true" else "false"
    case Number(n) => Decimal(n)
    case Text(s) => s
    case Array(elements) => JoinText(elements)
    case Object(_) => "[object Object]"
  }

  function JoinText(elements: seq<Json.Value>): string
    decreases elements, 0
  {
    if elements == [] then ""
    else
      var first := if elements[0].Null? then "" else ToText(elements[0]);
      if |elements| == 1 then first else first + "," + JoinText(elements[1..])
  }

  /** `BigInt(v)` of a parsed value; None is an exception. */
  function BigIntOf(v: Option<Json.Value>): Option<int> {
    match v
    case None => None
    case Some(Null) => None
    case Some(Bool(b)) => Some(if b then 1 else 0)
    case Some(Number(n)) => Some(n)
    case Some(Text(s)) => ParseBigInt(s)
    case Some(Array(elements)) => ParseBigInt(JoinText(elements))
    case Some(Object(_)) => None
  }

  function NoteFromJson(json: Json.Value): Option<DepositNoteData> {
    var secret := BigIntOf(Property(json, "secret"));
    var nullifier := BigIntOf(Property(json, "nullifier"));
    var amount := BigIntOf(Property(json, "amount"));
    var mint, key := Property(json, "tokenMint"), Property(json, "ephemeralPubkey");
    if secret.None? || nullifier.None? || amount.None? then None
    else if mint.None? || !mint.value.Text? || key.None? || !key.value.Text? then None
    else Some(DepositNoteData(secret.value, nullifier.value, amount.value, mint.value.s, HexBytes(key.value.s)))
  }

  function DeserializeNote(data: seq<Byte>): Option<DepositNoteData> {
    var text := Utf8.Decode(data);
    var json := if text.None? then None else Json.Parse(text.value);
    if json.None? then None else NoteFromJson(json.value)
  }

  lemma NoteJsonProperties(note: DepositNoteData)
    ensures var json := NoteJson(note);
      && Property(json, "secret") == Some(Json.Text(Decimal(note.secret)))
      && Property(json, "nullifier") == Some(Json.Text(Decimal(note.nullifier)))
      && Property(json, "amount") == Some(Json.Text(Decimal(note.amount)))
      && Property(json, "tokenMint") == Some(Json.Text(note.tokenMint))
      && Property(json, "ephemeralPubkey") == Some(Json.Text(BytesToHex(note.ephemeralPubkey)))
  {
    var fields := NoteJson(note).fields;
    assert fields[0].name[0] == 's' && fields[1].name[0] == 'n' && fields[2].name[0] == 'a';
    assert fields[3].name[0] == 't' && fields[4].name[0] == 'e';
    Json.LookupAt(fields, 0);
    Json.LookupAt(fields, 1);
    Json.LookupAt(fields, 2);
    Json.LookupAt(fields, 3);
    Json.LookupAt(fields, 4);
  }

  lemma NoteFromItsJson(note: DepositNoteData)
    ensures NoteFromJson(NoteJson(note)) == Some(note)
  {
    NoteJsonProperties(note);
    BigIntRoundTrip(note.secret);
    BigIntRoundTrip(note.nullifier);
    BigIntRoundTrip(note.amount);
    HexRoundTrip(note.ephemeralPubkey);
  }

  lemma PrintedObjectStarts(v: Json.Value)
    requires v.Object?
    ensures Json.Print(v) != "" && Json.Print(v)[0] == '{'
  {
  }

  function MemberOf(f: Json.Field): string {
    Json.Member(f.name, Json.Print(f.value))
  }

  lemma FiveMembers(fields: seq<Json.Field>)
    requires |fields| == 5 && forall k :: 0 <= k < 5 ==> Json.Plain(fields[k].name)
    ensures Json.Print(Json.Object(fields)) == "{" + (MemberOf(fields[0]) + ("," + (MemberOf(fields[1]) + ("," +
      (MemberOf(fields[2]) + ("," + (MemberOf(fields[3]) + ("," + MemberOf(fields[4])))))))))+ "}"
  {
    hide Json.Member, Json.PrintFields, Json.Plain;
    assert fields[0..] == fields;
    Json.MemberText(fields, 0);
    Json.MemberText(fields, 1);
    Json.MemberText(fields, 2);
    Json.MemberText(fields, 3);
    Json.MemberText(fields, 4);
    LastMember(MemberOf(fields[4]));
  }

  lemma LastMember(s: string)
    ensures s + "" == s
  {
  }

  lemma PlainWords()
    ensures Json.Plain("secret") && Json.Plain("nullifier") && Json.Plain("amount")
    ensures Json.Plain("tokenMint") && Json.Plain("ephemeralPubkey")
  {
  }

  lemma PlainNames(note: DepositNoteData)
    ensures NoteJson(note).Object? && |NoteJson(note).fields| == 5
    ensures forall k :: 0 <= k < 5 ==> Json.Plain(NoteJson(note).fields[k].name)
  {
    hide Decimal, BytesToHex, Json.Plain;
    PlainWords();
  }

  lemma NoteMembers(note: DepositNoteData)
    ensures var fields := NoteJson(note).fields;
      && MemberOf(fields[0]) == Json.Member("secret", Json.Quote(Decimal(note.secret)))
      && MemberOf(fields[1]) == Json.Member("nullifier", Json.Quote(Decimal(note.nullifier)))
      && MemberOf(fields[2]) == Json.Member("amount", Json.Quote(Decimal(note.amount)))
      && MemberOf(fields[3]) == Json.Member("tokenMint", Json.Quote(note.tokenMint))
      && MemberOf(fields[4]) == Json.Member("ephemeralPubkey", Json.Quote(BytesToHex(note.ephemeralPubkey)))
  {
    hide Decimal, BytesToHex, Json.Quote, Json.Member, Json.PrintFields, Json.Plain;
  }

  /** The text of a note, as JSON.stringify writes it. */
  lemma NoteTextIs(note: DepositNoteData)
    ensures Json.Print(NoteJson(note)) == "{"
      + (Json.Member("secret", Json.Quote(Decimal(note.secret))) + ("," +
        (Json.Member("nullifier", Json.Quote(Decimal(note.nullifier))) + ("," +
        (Json.Member("amount", Json.Quote(Decimal(note.amount))) + ("," +
        (Json.Member("tokenMint", Json.Quote(note.tokenMint)) + ("," +
        Json.Member("ephemeralPubkey", Json.Quote(BytesToHex(note.ephemeralPubkey))))))))))) + "}"
  {
    hide Decimal, BytesToHex, Json.Quote, Json.Member, Json.Print, Json.Plain, NoteJson, MemberOf;
    PlainNames(note);
    NoteMembers(note);
    FiveMembers(NoteJson(note).fields);
  }

  /** Reading a note's bytes gives back every field, for every note. */
  lemma SerializedNoteReads(note: DepositNoteData)
    ensures DeserializeNote(SerializeNote(note)) == Some(note) && SerializeNote(note) != []
  {
    var text := Json.Print(NoteJson(note));
    PrintedObjectStarts(NoteJson(note));
    Utf8.RoundTripIff(text);
    Utf8.DecodeEncodedChar(text[0], Utf8.Encode(text[1..]));
    Json.RoundTrip(NoteJson(note));
    NoteFromItsJson(note);
  }

  // ---- Encryption ------------------------------------------------------------------------------------

  function NoteKey(suite: Suite, sharedSecret: Key): Key {
    suite.sha256(sharedSecret + Utf8.Encode("skaus_note_key"))
  }

  function EncryptedNote(suite: Suite, note: DepositNoteData, sharedSecret: Key, nonce: seq<Byte>): seq<Byte> {
    note.ephemeralPubkey + Sealed(suite, NoteKey(suite, sharedSecret), nonce, SerializeNote(note))
  }

  method EncryptNote(suite: Suite, noteData: DepositNoteData, sharedSecret: Key, nonce: seq<Byte>)
    returns (result: seq<Byte>)
    requires |noteData.ephemeralPubkey| == EPHEMERAL_PK_LENGTH && |nonce| == NONCE_LENGTH
    ensures result == EncryptedNote(suite, noteData, sharedSecret, nonce)
    ensures result[..32] == noteData.ephemeralPubkey
    ensures IsSealing(suite, suite.sha256(sharedSecret + Utf8.Encode("skaus_note_key")), nonce, SerializeNote(noteData), result[32..])
  {
    hide Utf8.Encode, SerializeNote, IsSealing, Enciphers, XorStream;
    var key := NoteKey(suite, sharedSecret);
    var plaintext := SerializeNote(noteData);
    var ciphertext := XorCipher(suite, plaintext, key, nonce);
    var tag := ComputeTag(suite, key, nonce, ciphertext);
    var start := EPHEMERAL_PK_LENGTH + NONCE_LENGTH;
    var buffer := new Byte[start + |ciphertext| + TAG_LENGTH](_ => 0);
    Set(buffer, noteData.ephemeralPubkey, 0);
    assert buffer[..EPHEMERAL_PK_LENGTH] == noteData.ephemeralPubkey;
    Set(buffer, nonce, EPHEMERAL_PK_LENGTH);
    assert buffer[..start] == noteData.ephemeralPubkey + nonce;
    Set(buffer, ciphertext, start);
    assert buffer[..start + |ciphertext|] == noteData.ephemeralPubkey + nonce + ciphertext;
    Set(buffer, tag, start + |ciphertext|);
    result := buffer[..];
    Framed(noteData.ephemeralPubkey, nonce, ciphertext, tag);
    assert result == noteData.ephemeralPubkey + nonce + ciphertext + tag;
    SealedIs(suite, key, nonce, plaintext);
    assert result[32..] == Sealed(suite, key, nonce, plaintext);
  }

  lemma Framed(key: seq<Byte>, nonce: seq<Byte>, ciphertext: seq<Byte>, tag: seq<Byte>)
    ensures key + nonce + ciphertext + tag == key + (nonce + ciphertext + tag)
  {
  }

  function NoteResult(plaintext: Option<seq<Byte>>): Result<DepositNoteData, NoteError> {
    if plaintext.None? then Err(BadTag)
    else
      var note := DeserializeNote(plaintext.value);
      if note.None? then Err(BadPayload) else Ok(note.value)
  }

  function DecryptedNote(suite: Suite, encrypted: seq<Byte>, scanPrivkey: Key): Result<DepositNoteData, NoteError> {
    if |encrypted| < EPHEMERAL_PK_LENGTH + NONCE_LENGTH + TAG_LENGTH + 1 then Err(TooShort)
    else
      var sharedSecret := suite.sharedSecret(scanPrivkey, encrypted[..EPHEMERAL_PK_LENGTH]);
      if sharedSecret.None? then Err(BadKey)
      else NoteResult(Opened(suite, NoteKey(suite, sharedSecret.value), encrypted[EPHEMERAL_PK_LENGTH..]))
  }

  method DecryptNote(suite: Suite, encrypted: seq<Byte>, scanPrivkey: Key)
    returns (note: Result<DepositNoteData, NoteError>)
    ensures note == DecryptedNote(suite, encrypted, scanPrivkey)
  {
    if |encrypted| < EPHEMERAL_PK_LENGTH + NONCE_LENGTH + TAG_LENGTH + 1 { return Err(TooShort); }
    var ephemeralPubkey := encrypted[..EPHEMERAL_PK_LENGTH];
    var rest := encrypted[EPHEMERAL_PK_LENGTH..];
    var sharedSecret := suite.sharedSecret(scanPrivkey, ephemeralPubkey);
    if sharedSecret.None? { return Err(BadKey); }
    var plaintext := Open(suite, NoteKey(suite, sharedSecret.value), rest);
    return NoteResult(plaintext);
  }

  /** Whoever computes the sender's shared secret reads the note, for every note and nonce. */
  lemma NoteRoundTrip(suite: Suite, note: DepositNoteData, sharedSecret: Key, nonce: seq<Byte>, scanPrivkey: Key)
    requires |note.ephemeralPubkey| == EPHEMERAL_PK_LENGTH && |nonce| == NONCE_LENGTH
    requires suite.sharedSecret(scanPrivkey, note.ephemeralPubkey) == Some(sharedSecret)
    ensures DecryptedNote(suite, EncryptedNote(suite, note, sharedSecret, nonce), scanPrivkey) == Ok(note)
  {
    var body := Sealed(suite, NoteKey(suite, sharedSecret), nonce, SerializeNote(note));
    var encrypted := note.ephemeralPubkey + body;
    assert encrypted[..EPHEMERAL_PK_LENGTH] == note.ephemeralPubkey && encrypted[EPHEMERAL_PK_LENGTH..] == body;
    SealedOpens(suite, NoteKey(suite, sharedSecret), nonce, SerializeNote(note));
    SerializedNoteReads(note);
  }

  /** The recipient reads what the sender wrote: only the agreement of the two shared secrets is used. */
  lemma RecipientReadsNote(suite: Suite, note: DepositNoteData, nonce: seq<Byte>, ephemeralPrivkey: Key, scanPrivkey: Key)
    requires DhAgrees(suite) && |nonce| == NONCE_LENGTH
    requires note.ephemeralPubkey == suite.publicKey(ephemeralPrivkey)
    ensures var sent := suite.sharedSecret(ephemeralPrivkey, suite.publicKey(scanPrivkey));
      sent.Some? && DecryptedNote(suite, EncryptedNote(suite, note, sent.value, nonce), scanPrivkey) == Ok(note)
  {
    assert Exchanges(suite, ephemeralPrivkey, scanPrivkey);
    var sent := suite.sharedSecret(ephemeralPrivkey, suite.publicKey(scanPrivkey));
    NoteRoundTrip(suite, note, sent.value, nonce, scanPrivkey);
  }

  /** `body` is the sealing, under its own nonce, of a text that reads as `note`. */
  ghost predicate Seals(suite: Suite, key: Key, body: seq<Byte>, plaintext: seq<Byte>, note: DepositNoteData)
    requires |body| >= NONCE_LENGTH
  {
    body == Sealed(suite, key, body[..NONCE_LENGTH], plaintext) && DeserializeNote(plaintext) == Some(note)
  }

  lemma BodyReadsIff(suite: Suite, key: Key, body: seq<Byte>, note: DepositNoteData)
    requires |body| >= NONCE_LENGTH + TAG_LENGTH
    ensures NoteResult(Opened(suite, key, body)) == Ok(note) <==> exists plaintext :: Seals(suite, key, body, plaintext, note)
  {
    forall plaintext
      ensures Opened(suite, key, body) == Some(plaintext) <==> body == Sealed(suite, key, body[..NONCE_LENGTH], plaintext)
    {
      OpensIffSealed(suite, key, body, plaintext);
    }
    if NoteResult(Opened(suite, key, body)) == Ok(note) {
      assert Seals(suite, key, body, Opened(suite, key, body).value, note);
    }
  }

  /** Long enough, from a key X25519 accepts, and sealed under the secret shared with that key. */
  ghost predicate Authentic(suite: Suite, encrypted: seq<Byte>, scanPrivkey: Key, note: DepositNoteData) {
    && |encrypted| > EPHEMERAL_PK_LENGTH + NONCE_LENGTH + TAG_LENGTH
    && var secret := suite.sharedSecret(scanPrivkey, encrypted[..EPHEMERAL_PK_LENGTH]);
       && secret.Some?
       && exists plaintext :: Seals(suite, NoteKey(suite, secret.value), encrypted[EPHEMERAL_PK_LENGTH..], plaintext, note)
  }

  /** Exactly the authentic notes decrypt: a changed key, nonce, ciphertext or tag must be a sealing
      again. */
  lemma DecryptsIffAuthentic(suite: Suite, encrypted: seq<Byte>, scanPrivkey: Key, note: DepositNoteData)
    ensures DecryptedNote(suite, encrypted, scanPrivkey) == Ok(note) <==> Authentic(suite, encrypted, scanPrivkey, note)
  {
    hide Opened, Seals, NoteResult, NoteKey;
    if |encrypted| > EPHEMERAL_PK_LENGTH + NONCE_LENGTH + TAG_LENGTH {
      var secret := suite.sharedSecret(scanPrivkey, encrypted[..EPHEMERAL_PK_LENGTH]);
      if secret.Some? {
        BodyReadsIff(suite, NoteKey(suite, secret.value), encrypted[EPHEMERAL_PK_LENGTH..], note);
      }
    }
  }

  /** What is refused, and as what. */
  lemma NoteRefusals(suite: Suite, encrypted: seq<Byte>, scanPrivkey: Key)
    ensures DecryptedNote(suite, encrypted, scanPrivkey) == Err(TooShort) <==> |encrypted| < 61
    ensures |encrypted| >= 61 ==>
      var result, secret := DecryptedNote(suite, encrypted, scanPrivkey), suite.sharedSecret(scanPrivkey, encrypted[..32]);
      && (result == Err(BadKey) <==> secret.None?)
      && (result == Err(BadTag) <==> secret.Some? && Opened(suite, NoteKey(suite, secret.value), encrypted[32..]).None?)
  {
    hide Opened, NoteKey, DeserializeNote;
  }

  // ---- Stealth addresses -----------------------------------------------------------------------------

  datatype StealthAddress = StealthAddress(ephemeralPubkey: Key, sharedSecret: Key, depositTag: Key)

  /** The index enters by its low 32 bits, negative ones too. */
  function TagInput(sharedSecret: Key, depositIndex: int): seq<Byte> {
    sharedSecret + LittleEndian(depositIndex % 0x1_0000_0000, 4)
  }

  function DepositTag(suite: Suite, sharedSecret: Key, depositIndex: int): Key {
    suite.sha256(TagInput(sharedSecret, depositIndex))
  }

  function DeriveStealthAddress(suite: Suite, ephemeralPrivkey: Key, scanPubkey: Key, depositIndex: int): Option<StealthAddress> {
    var sharedSecret := suite.sharedSecret(ephemeralPrivkey, scanPubkey);
    if sharedSecret.None? then None
    else Some(StealthAddress(suite.publicKey(ephemeralPrivkey), sharedSecret.value, DepositTag(suite, sharedSecret.value, depositIndex)))
  }

  function RecoverStealthSpendKey(suite: Suite, scanPrivkey: Key, ephemeralPubkey: Key, depositIndex: int): Option<(Key, Key)> {
    var sharedSecret := suite.sharedSecret(scanPrivkey, ephemeralPubkey);
    if sharedSecret.None? then None
    else Some((sharedSecret.value, DepositTag(suite, sharedSecret.value, depositIndex)))
  }

  lemma ByteStep(n: int, low: int, q: int)
    requires n == low + 256 * q
    ensures n % 256 == low % 256 && n / 256 == low / 256 + q
  {
  }

  lemma Shifts(n: int)
    ensures n / 256 / 256 == n / 0x1_0000 && n / 0x1_0000 / 256 == n / 0x100_0000
  {
  }

  /** The wrap to 32 bits leaves the four low bytes, for negative indices too. */
  lemma LowBytes(n: int)
    ensures var low := n % 0x1_0000_0000;
      && low % 256 == n % 256 && low / 256 % 256 == n / 256 % 256
      && low / 0x1_0000 % 256 == n / 0x1_0000 % 256 && low / 0x100_0000 % 256 == n / 0x100_0000 % 256
  {
    var low, q := n % 0x1_0000_0000, n / 0x1_0000_0000;
    Shifts(n);
    Shifts(low);
    ByteStep(n, low, 0x100_0000 * q);
    ByteStep(n / 256, low / 256, 0x1_0000 * q);
    ByteStep(n / 0x1_0000, low / 0x1_0000, 256 * q);
    ByteStep(n / 0x100_0000, low / 0x100_0000, q);
  }

  /** What a stealth address is made of: the ephemeral public key, the shared secret, and the hash of
      the secret and the index as four bytes. */
  lemma StealthIs(suite: Suite, ephemeralPrivkey: Key, scanPubkey: Key, depositIndex: int)
    ensures var secret := suite.sharedSecret(ephemeralPrivkey, scanPubkey);
      var address := DeriveStealthAddress(suite, ephemeralPrivkey, scanPubkey, depositIndex);
      && (address.None? <==> secret.None?)
      && (secret.Some? ==> address.value == StealthAddress(suite.publicKey(ephemeralPrivkey), secret.value,
            suite.sha256(secret.value + [depositIndex % 256, depositIndex / 256 % 256, depositIndex / 0x1_0000 % 256, depositIndex / 0x100_0000 % 256])))
  {
    FourBytes(depositIndex % 0x1_0000_0000);
    LowBytes(depositIndex);
  }

  /** Sender and recipient derive one secret and one tag, whatever the index. */
  lemma StealthAgrees(suite: Suite, ephemeralPrivkey: Key, scanPrivkey: Key, depositIndex: int)
    requires DhAgrees(suite)
    ensures var sent := DeriveStealthAddress(suite, ephemeralPrivkey, suite.publicKey(scanPrivkey), depositIndex);
      && sent.Some?
      && RecoverStealthSpendKey(suite, scanPrivkey, sent.value.ephemeralPubkey, depositIndex)
           == Some((sent.value.sharedSecret, sent.value.depositTag))
  {
    assert Exchanges(suite, ephemeralPrivkey, scanPrivkey);
  }

  /** Unless the hash collides on the two tag inputs, the tags of one secret tell apart exactly the
      indices that differ in their low 32 bits. */
  lemma TagsTellIndicesApart(suite: Suite, sharedSecret: Key, i: int, j: int)
    requires suite.sha256(TagInput(sharedSecret, i)) == suite.sha256(TagInput(sharedSecret, j)) ==>
      TagInput(sharedSecret, i) == TagInput(sharedSecret, j)
    ensures DepositTag(suite, sharedSecret, i) == DepositTag(suite, sharedSecret, j)
       <==> i % 0x1_0000_0000 == j % 0x1_0000_0000
  {
    var m, n := i % 0x1_0000_0000, j % 0x1_0000_0000;
    if DepositTag(suite, sharedSecret, i) == DepositTag(suite, sharedSecret, j) {
      var a, b := TagInput(sharedSecret, i), TagInput(sharedSecret, j);
      assert a[32..] == LittleEndian(m, 4) && b[32..] == LittleEndian(n, 4);
      FourBytesSpell(m);
      FourBytesSpell(n);
    }
  }
}
