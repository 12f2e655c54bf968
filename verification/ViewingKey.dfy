/** Viewing credentials for auditors: scoped keys, their text and their encryption. */
module ViewingKey {
  import opened Base
  import opened Bytes
  import opened Cipher
  import opened Notes
  import opened Numerals
  import Json
  import Utf8

  datatype ViewingScope = ViewingScope(
    startTime: int,
    endTime: int,
    tokenMints: Option<seq<string>>,
    maxAmount: Option<int>
  )

  datatype ViewingCredential = ViewingCredential(scopedKey: seq<Byte>, scope: ViewingScope, issuedTo: seq<Byte>, issuedAt: int)

  datatype EncryptedViewingCredential =
    EncryptedViewingCredential(ephemeralPubkey: Key, ciphertext: seq<Byte>, issuedAt: int)

  datatype ViewingError = RefusedKey | InvalidTag | InvalidPayload

  // ---- Scoped keys ---------------------------------------------------------------------------------

  function Join(parts: seq<string>): string {
    if parts == [] then ""
    else if |parts| == 1 then parts[0]
    else parts[0] + "," + Join(parts[1..])
  }

  function MintsText(scope: ViewingScope): string {
    if scope.tokenMints.None? then "" else Join(scope.tokenMints.value)
  }

  function LimitText(scope: ViewingScope): string {
    if scope.maxAmount.None? then "" else Decimal(scope.maxAmount.value)
  }

  function ScopeText(scope: ViewingScope): string {
    "skaus-view-scope:" + Fields(Decimal(scope.startTime), Decimal(scope.endTime), MintsText(scope), LimitText(scope))
  }

  function Fields(start: string, end: string, mints: string, limit: string): string {
    start + ":" + (end + ":" + (mints + ":" + limit))
  }

  function DeriveScopedKey(suite: Suite, viewKey: seq<Byte>, scope: ViewingScope): Key {
    suite.hkdf(viewKey, suite.sha256(Utf8.Encode(ScopeText(scope))))
  }

  predicate Without(s: string, mark: char) {
    forall i :: 0 <= i < |s| ==> s[i] != mark
  }

  lemma SplitAtFirst(a: string, x: string, b: string, y: string, mark: char)
    requires Without(a, mark) && Without(b, mark) && a + [mark] + x == b + [mark] + y
    ensures a == b && x == y
  {
    var s := a + [mark] + x;
    assert s[|a|] == mark && s[|b|] == mark;
    assert forall i :: 0 <= i < |a| ==> s[i] == a[i];
    assert forall i :: 0 <= i < |b| ==> s[i] == b[i];
    assert |a| == |b|;
    assert a == s[..|a|] && b == s[..|b|] && x == s[|a| + 1..] && y == s[|b| + 1..];
  }

  lemma SplitAtLast(a: string, x: string, b: string, y: string, mark: char)
    requires Without(x, mark) && Without(y, mark) && a + [mark] + x == b + [mark] + y
    ensures a == b && x == y
  {
    var s := a + [mark] + x;
    assert s[|a|] == mark && s[|b|] == mark;
    assert forall i :: |a| < i < |s| ==> s[i] == x[i - |a| - 1];
    assert forall i :: |b| < i < |s| ==> s[i] == y[i - |b| - 1];
    assert |a| == |b|;
    assert a == s[..|a|] && b == s[..|b|] && x == s[|a| + 1..] && y == s[|b| + 1..];
  }

  lemma DecimalWithoutMark(n: int)
    ensures Decimal(n) != "" && Without(Decimal(n), ':')
  {
    var digits := Digits(if n < 0 then -n else n, 10);
    DigitsSpell(if n < 0 then -n else n, 10);
    forall i | 0 <= i < |digits| ensures digits[i] != ':' {
      assert IsDigit(digits[i], 10);
    }
  }

  lemma DecimalInjective(m: int, n: int)
    requires Decimal(m) == Decimal(n)
    ensures m == n
  {
    BigIntRoundTrip(m);
    BigIntRoundTrip(n);
  }

  lemma FieldsSplit(s: string, e: string, m: string, l: string, s': string, e': string, m': string, l': string)
    requires Without(s, ':') && Without(e, ':') && Without(l, ':')
    requires Without(s', ':') && Without(e', ':') && Without(l', ':')
    requires Fields(s, e, m, l) == Fields(s', e', m', l')
    ensures s == s' && e == e' && m == m' && l == l'
  {
    SplitAtFirst(s, e + ":" + (m + ":" + l), s', e' + ":" + (m' + ":" + l'), ':');
    SplitAtFirst(e, m + ":" + l, e', m' + ":" + l', ':');
    SplitAtLast(m, l, m', l', ':');
  }

  lemma LimitDetermined(a: ViewingScope, b: ViewingScope)
    requires LimitText(a) == LimitText(b)
    ensures a.maxAmount == b.maxAmount
  {
    if a.maxAmount.Some? { DecimalWithoutMark(a.maxAmount.value); }
    if b.maxAmount.Some? { DecimalWithoutMark(b.maxAmount.value); }
    if a.maxAmount.Some? && b.maxAmount.Some? {
      DecimalInjective(a.maxAmount.value, b.maxAmount.value);
    }
  }

  lemma LimitWithoutMark(scope: ViewingScope)
    ensures Without(LimitText(scope), ':')
  {
    if scope.maxAmount.Some? { DecimalWithoutMark(scope.maxAmount.value); }
  }

  /** The scope text determines everything but how the mints were joined, whatever characters the
      mints hold. */
  lemma ScopeTextDetermines(a: ViewingScope, b: ViewingScope)
    ensures ScopeText(a) == ScopeText(b)
       <==> a.startTime == b.startTime && a.endTime == b.endTime && MintsText(a) == MintsText(b) && a.maxAmount == b.maxAmount
  {
    if ScopeText(a) == ScopeText(b) {
      var x := Fields(Decimal(a.startTime), Decimal(a.endTime), MintsText(a), LimitText(a));
      var y := Fields(Decimal(b.startTime), Decimal(b.endTime), MintsText(b), LimitText(b));
      var prefix := "skaus-view-scope:";
      assert x == (prefix + x)[|prefix|..] && y == (prefix + y)[|prefix|..];
      DecimalWithoutMark(a.startTime);
      DecimalWithoutMark(a.endTime);
      DecimalWithoutMark(b.startTime);
      DecimalWithoutMark(b.endTime);
      LimitWithoutMark(a);
      LimitWithoutMark(b);
      FieldsSplit(Decimal(a.startTime), Decimal(a.endTime), MintsText(a), LimitText(a),
                  Decimal(b.startTime), Decimal(b.endTime), MintsText(b), LimitText(b));
      DecimalInjective(a.startTime, b.startTime);
      DecimalInjective(a.endTime, b.endTime);
      LimitDetermined(a, b);
    }
  }

  predicate PlainMints(mints: seq<string>) {
    forall i :: 0 <= i < |mints| ==> mints[i] != "" && Without(mints[i], ',')
  }

  /** Lists of non-empty mints without commas are told apart by their joined text. */
  lemma {:induction false} JoinInjective(a: seq<string>, b: seq<string>)
    requires PlainMints(a) && PlainMints(b) && Join(a) == Join(b)
    ensures a == b
  {
    JoinSize(a);
    JoinSize(b);
    if |a| > 1 && |b| > 1 {
      SplitAtFirst(a[0], Join(a[1..]), b[0], Join(b[1..]), ',');
      JoinInjective(a[1..], b[1..]);
      assert a == [a[0]] + a[1..] && b == [b[0]] + b[1..];
    }
  }

  lemma JoinSize(a: seq<string>)
    requires PlainMints(a)
    ensures Join(a) == "" <==> a == []
    ensures Without(Join(a), ',') <==> |a| <= 1
  {
    if a != [] { assert a[0] != ""; }
    if |a| > 1 { assert Join(a)[|a[0]|] == ','; }
  }

  lemma Utf8Injective(s: string, t: string)
    requires Utf8.Encode(s) == Utf8.Encode(t)
    ensures s == t
  {
    Utf8.DecodeAllEncoded(s);
    Utf8.DecodeAllEncoded(t);
  }

  /** No token filter and an empty one have one text. */
  function Mints(scope: ViewingScope): seq<string> {
    if scope.tokenMints.None? then [] else scope.tokenMints.value
  }

  /** The hash and the key derivation tell the two scope texts apart, if they differ at all. */
  ghost predicate NoCollision(suite: Suite, viewKey: seq<Byte>, a: ViewingScope, b: ViewingScope) {
    var x, y := Utf8.Encode(ScopeText(a)), Utf8.Encode(ScopeText(b));
    && (suite.sha256(x) == suite.sha256(y) ==> x == y)
    && (suite.hkdf(viewKey, suite.sha256(x)) == suite.hkdf(viewKey, suite.sha256(y)) ==> suite.sha256(x) == suite.sha256(y))
  }

  /** Two scopes share a key exactly when their windows, limits and joined mints are the same,
      whatever the mints are. The second half needs no hypothesis about the hashes. */
  lemma ScopedKeysEqualIff(suite: Suite, viewKey: seq<Byte>, a: ViewingScope, b: ViewingScope)
    ensures SameScopeText(a, b) ==> DeriveScopedKey(suite, viewKey, a) == DeriveScopedKey(suite, viewKey, b)
    ensures NoCollision(suite, viewKey, a, b) ==>
      (DeriveScopedKey(suite, viewKey, a) == DeriveScopedKey(suite, viewKey, b) <==> SameScopeText(a, b))
  {
    ScopeTextDetermines(a, b);
    if Utf8.Encode(ScopeText(a)) == Utf8.Encode(ScopeText(b)) {
      Utf8Injective(ScopeText(a), ScopeText(b));
    }
  }

  predicate SameScopeText(a: ViewingScope, b: ViewingScope) {
    a.startTime == b.startTime && a.endTime == b.endTime && a.maxAmount == b.maxAmount && MintsText(a) == MintsText(b)
  }

  /** Between lists of non-empty mints without commas, the joined mints are the same exactly when
      the lists are, no filter counting as the empty list. */
  lemma ScopedKeysDifferIff(suite: Suite, viewKey: seq<Byte>, a: ViewingScope, b: ViewingScope)
    requires NoCollision(suite, viewKey, a, b) && PlainMints(Mints(a)) && PlainMints(Mints(b))
    ensures DeriveScopedKey(suite, viewKey, a) == DeriveScopedKey(suite, viewKey, b)
       <==> a.startTime == b.startTime && a.endTime == b.endTime && Mints(a) == Mints(b) && a.maxAmount == b.maxAmount
  {
    ScopedKeysEqualIff(suite, viewKey, a, b);
    if MintsText(a) == MintsText(b) {
      JoinInjective(Mints(a), Mints(b));
    }
  }

  /** For any two scopes there is a suite without a collision between them. */
  lemma NoCollisionIsPossible(a: ViewingScope, b: ViewingScope, viewKey: seq<Byte>)
    ensures exists suite :: NoCollision(suite, viewKey, a, b)
  {
    var x := Utf8.Encode(ScopeText(a));
    var zero: Key := seq(32, _ => 0);
    var one: Key := seq(32, _ => 1);
    assert zero[0] != one[0];
    var suite := Suite(
      (data: seq<Byte>) => if data == x then zero else one,
      (k: Key) => k,
      (k: Key, p: Key) => Some(k),
      (k: seq<Byte>, data: seq<Byte>) => if data == zero then zero else one);
    assert NoCollision(suite, viewKey, a, b);
  }

  /** "Different scopes produce independent keys" fails for every suite: an absent filter and an
      empty one, and one mint with a comma and two mints, share a key. */
  lemma DistinctScopesShareKeys(suite: Suite, viewKey: seq<Byte>)
    ensures var scope := (mints: Option<seq<string>>) => ViewingScope(0, 1, mints, None);
      && DeriveScopedKey(suite, viewKey, scope(None)) == DeriveScopedKey(suite, viewKey, scope(Some([])))
      && DeriveScopedKey(suite, viewKey, scope(Some(["a,b"]))) == DeriveScopedKey(suite, viewKey, scope(Some(["a", "b"])))
  {
    assert Join(["a", "b"]) == "a" + "," + Join(["b"]) == "a,b";
  }

  // ---- Text of a credential ------------------------------------------------------------------------

  function MintsJson(mints: Option<seq<string>>): Json.Value {
    match mints
    case None => Json.Null
    case Some(list) => Json.Array(seq(|list|, i requires 0 <= i < |list| => Json.Text(list[i])))
  }

  function LimitJson(limit: Option<int>): Json.Value {
    match limit
    case None => Json.Null
    case Some(n) => Json.Text(Decimal(n))
  }

  function ScopeJson(scope: ViewingScope): Json.Value {
    Json.Object([
      Json.Field("startTime", Json.Number(scope.startTime)),
      Json.Field("endTime", Json.Number(scope.endTime)),
      Json.Field("tokenMints", MintsJson(scope.tokenMints)),
      Json.Field("maxAmount", LimitJson(scope.maxAmount))
    ])
  }

  function CredentialJson(c: ViewingCredential): Json.Value {
    Json.Object([
      Json.Field("scopedKey", Json.Text(BytesToHex(c.scopedKey))),
      Json.Field("scope", ScopeJson(c.scope)),
      Json.Field("issuedTo", Json.Text(BytesToHex(c.issuedTo))),
      Json.Field("issuedAt", Json.Number(c.issuedAt))
    ])
  }

  function SerializeCredential(c: ViewingCredential): seq<Byte> {
    Utf8.Encode(Json.Print(CredentialJson(c)))
  }

  predicate AllText(elements: seq<Json.Value>) {
    forall i :: 0 <= i < |elements| ==> elements[i].Text?
  }

  /** `v ?? undefined`. */
  function MintsFrom(v: Option<Json.Value>): Option<Option<seq<string>>> {
    if v.None? || v.value.Null? then Some(None)
    else if v.value.Array? && AllText(v.value.elements) then
      var list := v.value.elements;
      Some(Some(seq(|list|, i requires 0 <= i < |list| => list[i].s)))
    else None
  }

  /** Only null stands for an absent limit. */
  function LimitFrom(v: Option<Json.Value>): Option<Option<int>> {
    if v == Some(Json.Null) then Some(None)
    else
      var n := BigIntOf(v);
      if n.None? then None else Some(n)
  }

  function NumberFrom(v: Option<Json.Value>): Option<int> {
    if v.Some? && v.value.Number? then Some(v.value.n) else None
  }

  function BytesFrom(v: Option<Json.Value>): Option<seq<Byte>> {
    if v.Some? && v.value.Text? then Some(HexBytes(v.value.s)) else None
  }

  function ScopeFrom(json: Json.Value): Option<ViewingScope> {
    var start, end := NumberFrom(Property(json, "startTime")), NumberFrom(Property(json, "endTime"));
    var mints, limit := MintsFrom(Property(json, "tokenMints")), LimitFrom(Property(json, "maxAmount"));
    if start.None? || end.None? || mints.None? || limit.None? then None
    else Some(ViewingScope(start.value, end.value, mints.value, limit.value))
  }

  function CredentialFrom(json: Json.Value): Option<ViewingCredential> {
    var key, issuedTo := BytesFrom(Property(json, "scopedKey")), BytesFrom(Property(json, "issuedTo"));
    var issuedAt, inner := NumberFrom(Property(json, "issuedAt")), Property(json, "scope");
    var scope := if inner.None? then None else ScopeFrom(inner.value);
    if key.None? || issuedTo.None? || issuedAt.None? || scope.None? then None
    else Some(ViewingCredential(key.value, scope.value, issuedTo.value, issuedAt.value))
  }

  function DeserializeCredential(data: seq<Byte>): Option<ViewingCredential> {
    var text := Utf8.Decode(data);
    var json := if text.None? then None else Json.Parse(text.value);
    if json.None? then None else CredentialFrom(json.value)
  }

  lemma MintsRoundTrip(mints: Option<seq<string>>)
    ensures MintsFrom(Some(MintsJson(mints))) == Some(mints)
  {
    if mints.Some? {
      var list := MintsJson(mints).elements;
      assert AllText(list);
      assert seq(|list|, i requires 0 <= i < |list| => list[i].s) == mints.value;
    }
  }

  lemma LimitRoundTrip(limit: Option<int>)
    ensures LimitFrom(Some(LimitJson(limit))) == Some(limit)
  {
    if limit.Some? { BigIntRoundTrip(limit.value); }
  }

  lemma ScopeRoundTrip(scope: ViewingScope)
    ensures ScopeFrom(ScopeJson(scope)) == Some(scope)
  {
    var fields := ScopeJson(scope).fields;
    assert fields[0].name[0] == 's' && fields[1].name[0] == 'e' && fields[2].name[0] == 't' && fields[3].name[0] == 'm';
    Json.LookupAt(fields, 0);
    Json.LookupAt(fields, 1);
    Json.LookupAt(fields, 2);
    Json.LookupAt(fields, 3);
    MintsRoundTrip(scope.tokenMints);
    LimitRoundTrip(scope.maxAmount);
  }

  lemma CredentialFields(c: ViewingCredential)
    ensures var json := CredentialJson(c);
      && Property(json, "scopedKey") == Some(Json.Text(BytesToHex(c.scopedKey)))
      && Property(json, "scope") == Some(ScopeJson(c.scope))
      && Property(json, "issuedTo") == Some(Json.Text(BytesToHex(c.issuedTo)))
      && Property(json, "issuedAt") == Some(Json.Number(c.issuedAt))
  {
    hide BytesToHex, ScopeJson;
    var fields := CredentialJson(c).fields;
    assert |fields[0].name| == 9 && |fields[1].name| == 5 && fields[2].name[6] == 'T' && fields[3].name[6] == 'A';
    Json.LookupAt(fields, 0);
    Json.LookupAt(fields, 1);
    Json.LookupAt(fields, 2);
    Json.LookupAt(fields, 3);
  }

  lemma CredentialFromItsJson(c: ViewingCredential)
    ensures CredentialFrom(CredentialJson(c)) == Some(c)
  {
    hide Property, CredentialJson, BytesToHex, HexBytes, ScopeJson, ScopeFrom;
    CredentialFields(c);
    HexRoundTrip(c.scopedKey);
    HexRoundTrip(c.issuedTo);
    ScopeRoundTrip(c.scope);
  }

  /** Reading a credential's bytes gives back every field, absent ones as absent and an empty
      filter as empty. */
  lemma SerializedCredentialReads(c: ViewingCredential)
    ensures DeserializeCredential(SerializeCredential(c)) == Some(c)
  {
    var text := Json.Print(CredentialJson(c));
    PrintedObjectStarts(CredentialJson(c));
    Utf8.RoundTripIff(text);
    Json.RoundTrip(CredentialJson(c));
    CredentialFromItsJson(c);
  }

  // ---- Issuing and reading ---------------------------------------------------------------------------

  function AuditKey(suite: Suite, rawSecret: Key): Key {
    suite.sha256(rawSecret + Utf8.Encode("skaus_viewing_key"))
  }

  function Issued(suite: Suite, viewKey: seq<Byte>, auditorPubkey: Key, scope: ViewingScope, issuedAt: int): ViewingCredential {
    ViewingCredential(DeriveScopedKey(suite, viewKey, scope), scope, auditorPubkey, issuedAt)
  }

  function EncryptedFor(suite: Suite, payload: seq<Byte>, auditorPubkey: Key, ephemeralPrivkey: Key, nonce: seq<Byte>)
    : Option<seq<Byte>>
  {
    var secret := suite.sharedSecret(ephemeralPrivkey, auditorPubkey);
    if secret.None? then None else Some(Sealed(suite, AuditKey(suite, secret.value), nonce, payload))
  }

  method EncryptForAuditor(suite: Suite, payload: seq<Byte>, auditorPubkey: Key, ephemeralPrivkey: Key, nonce: seq<Byte>)
    returns (ciphertext: Option<seq<Byte>>)
    requires |nonce| == NONCE_LENGTH
    ensures ciphertext == EncryptedFor(suite, payload, auditorPubkey, ephemeralPrivkey, nonce)
    ensures var secret := suite.sharedSecret(ephemeralPrivkey, auditorPubkey);
      && (ciphertext.None? <==> secret.None?)
      && (secret.Some? ==>
            IsSealing(suite, suite.sha256(secret.value + Utf8.Encode("skaus_viewing_key")), nonce, payload, ciphertext.value))
  {
    hide Utf8.Encode, IsSealing, Enciphers, XorStream;
    var rawSecret := suite.sharedSecret(ephemeralPrivkey, auditorPubkey);
    if rawSecret.None? { return None; }
    var encKey := AuditKey(suite, rawSecret.value);
    var encrypted := XorCipher(suite, payload, encKey, nonce);
    var tag := ComputeTag(suite, encKey, nonce, encrypted);
    var buffer := new Byte[NONCE_LENGTH + |encrypted| + TAG_LENGTH](_ => 0);
    Set(buffer, nonce, 0);
    assert buffer[..NONCE_LENGTH] == nonce;
    Set(buffer, encrypted, NONCE_LENGTH);
    assert buffer[..NONCE_LENGTH + |encrypted|] == nonce + encrypted;
    Set(buffer, tag, NONCE_LENGTH + |encrypted|);
    assert buffer[..] == nonce + encrypted + tag;
    SealedIs(suite, encKey, nonce, payload);
    return Some(buffer[..]);
  }

  /** The random ephemeral key, the random nonce and the clock are parameters. */
  function IssueViewingCredential(suite: Suite, viewKey: seq<Byte>, auditorPubkey: Key, scope: ViewingScope,
                                  issuedAt: int, ephemeralPrivkey: Key, nonce: seq<Byte>): Option<EncryptedViewingCredential>
  {
    var payload := SerializeCredential(Issued(suite, viewKey, auditorPubkey, scope, issuedAt));
    var ciphertext := EncryptedFor(suite, payload, auditorPubkey, ephemeralPrivkey, nonce);
    if ciphertext.None? then None
    else Some(EncryptedViewingCredential(suite.publicKey(ephemeralPrivkey), ciphertext.value, issuedAt))
  }

  function CredentialResult(plaintext: Option<seq<Byte>>): Result<ViewingCredential, ViewingError> {
    if plaintext.None? then Err(InvalidTag)
    else
      var c := DeserializeCredential(plaintext.value);
      if c.None? then Err(InvalidPayload) else Ok(c.value)
  }

  function DecryptedCredential(suite: Suite, credential: EncryptedViewingCredential, auditorPrivkey: Key)
    : Result<ViewingCredential, ViewingError>
  {
    var secret := suite.sharedSecret(auditorPrivkey, credential.ephemeralPubkey);
    if secret.None? then Err(RefusedKey)
    else CredentialResult(Opened(suite, AuditKey(suite, secret.value), credential.ciphertext))
  }

  method DecryptViewingCredential(suite: Suite, credential: EncryptedViewingCredential, auditorPrivkey: Key)
    returns (result: Result<ViewingCredential, ViewingError>)
    ensures result == DecryptedCredential(suite, credential, auditorPrivkey)
  {
    var rawSecret := suite.sharedSecret(auditorPrivkey, credential.ephemeralPubkey);
    if rawSecret.None? { return Err(RefusedKey); }
    var plaintext := Open(suite, AuditKey(suite, rawSecret.value), credential.ciphertext);
    return CredentialResult(plaintext);
  }

  /** The auditor a credential is issued to reads exactly the scope, the scoped key and the time. */
  lemma CredentialRoundTrip(suite: Suite, viewKey: seq<Byte>, auditorPrivkey: Key, scope: ViewingScope,
                            issuedAt: int, ephemeralPrivkey: Key, nonce: seq<Byte>)
    requires DhAgrees(suite) && |nonce| == NONCE_LENGTH
    ensures var auditorPubkey := suite.publicKey(auditorPrivkey);
      var issued := IssueViewingCredential(suite, viewKey, auditorPubkey, scope, issuedAt, ephemeralPrivkey, nonce);
      && issued.Some?
      && DecryptedCredential(suite, issued.value, auditorPrivkey)
           == Ok(ViewingCredential(suite.hkdf(viewKey, suite.sha256(Utf8.Encode(ScopeText(scope)))), scope, auditorPubkey, issuedAt))
      && issued.value.issuedAt == issuedAt && issued.value.ephemeralPubkey == suite.publicKey(ephemeralPrivkey)
  {
    assert Exchanges(suite, ephemeralPrivkey, auditorPrivkey);
    var auditorPubkey := suite.publicKey(auditorPrivkey);
    var c := Issued(suite, viewKey, auditorPubkey, scope, issuedAt);
    var secret := suite.sharedSecret(ephemeralPrivkey, auditorPubkey).value;
    SealedOpens(suite, AuditKey(suite, secret), nonce, SerializeCredential(c));
    SerializedCredentialReads(c);
  }

  /** Exactly the sealings, under the secret shared with the auditor, of a text that reads as the
      credential. */
  ghost predicate AuthenticFor(suite: Suite, credential: EncryptedViewingCredential, auditorPrivkey: Key, c: ViewingCredential) {
    var secret := suite.sharedSecret(auditorPrivkey, credential.ephemeralPubkey);
    && secret.Some? && |credential.ciphertext| >= NONCE_LENGTH + TAG_LENGTH
    && exists plaintext :: DeserializeCredential(plaintext) == Some(c)
         && credential.ciphertext == Sealed(suite, AuditKey(suite, secret.value), credential.ciphertext[..NONCE_LENGTH], plaintext)
  }

  lemma ShortReadsNothing(suite: Suite, key: Key, message: seq<Byte>)
    requires |message| < NONCE_LENGTH + TAG_LENGTH
    ensures CredentialResult(Opened(suite, key, message)).Err?
  {
    if Opened(suite, key, message).Some? {
      assert Opened(suite, key, message).value == [];
      assert Json.Parse("") == None;
    }
  }

  lemma CredentialDecryptsIff(suite: Suite, credential: EncryptedViewingCredential, auditorPrivkey: Key, c: ViewingCredential)
    ensures DecryptedCredential(suite, credential, auditorPrivkey) == Ok(c) <==> AuthenticFor(suite, credential, auditorPrivkey, c)
  {
    hide Opened, Sealed, AuditKey, DeserializeCredential;
    var secret := suite.sharedSecret(auditorPrivkey, credential.ephemeralPubkey);
    if secret.Some? && |credential.ciphertext| < NONCE_LENGTH + TAG_LENGTH {
      ShortReadsNothing(suite, AuditKey(suite, secret.value), credential.ciphertext);
    }
    if secret.Some? && |credential.ciphertext| >= NONCE_LENGTH + TAG_LENGTH {
      var key, message := AuditKey(suite, secret.value), credential.ciphertext;
      forall plaintext
        ensures Opened(suite, key, message) == Some(plaintext) <==> message == Sealed(suite, key, message[..NONCE_LENGTH], plaintext)
      {
        OpensIffSealed(suite, key, message, plaintext);
      }
    }
  }

  /** What is wrong with a credential that does not decrypt: the key, the tag or the text. */
  lemma CredentialRefusals(suite: Suite, credential: EncryptedViewingCredential, auditorPrivkey: Key)
    ensures var secret := suite.sharedSecret(auditorPrivkey, credential.ephemeralPubkey);
      var result := DecryptedCredential(suite, credential, auditorPrivkey);
      && (result == Err(RefusedKey) <==> secret.None?)
      && (secret.Some? ==> (result == Err(InvalidTag) <==> Opened(suite, AuditKey(suite, secret.value), credential.ciphertext).None?))
  {
    hide Opened, AuditKey, DeserializeCredential;
  }

  /** The text that is hashed into a scoped key. */
  lemma ScopeTextIs(start: int, end: int, first: string, second: string, limit: int)
    ensures ScopeText(ViewingScope(start, end, Some([first, second]), Some(limit)))
         == "skaus-view-scope:" + (Decimal(start) + ":" + (Decimal(end) + ":" + (first + "," + second + ":" + Decimal(limit))))
    ensures ScopeText(ViewingScope(start, end, None, None))
         == "skaus-view-scope:" + (Decimal(start) + ":" + (Decimal(end) + ":" + ("" + ":" + "")))
  {
    assert Join([first, second]) == first + "," + Join([second]) == first + "," + second;
  }

  /** The text of a credential, as JSON.stringify writes it. */
  lemma CredentialTextIs(c: ViewingCredential)
    ensures Json.Print(CredentialJson(c)) == "{"
      + (Json.Member("scopedKey", Json.Quote(BytesToHex(c.scopedKey))) + ("," +
        (Json.Member("scope", Json.Print(ScopeJson(c.scope))) + ("," +
        (Json.Member("issuedTo", Json.Quote(BytesToHex(c.issuedTo))) + ("," +
        Json.Member("issuedAt", Decimal(c.issuedAt)))))))) + "}"
    ensures Json.Print(ScopeJson(c.scope)) == "{"
      + (Json.Member("startTime", Decimal(c.scope.startTime)) + ("," +
        (Json.Member("endTime", Decimal(c.scope.endTime)) + ("," +
        (Json.Member("tokenMints", Json.Print(MintsJson(c.scope.tokenMints))) + ("," +
        Json.Member("maxAmount", if c.scope.maxAmount.None? then "null" else Json.Quote(Decimal(c.scope.maxAmount.value))))))))) + "}"
  {
    CredentialMembers(c);
    ScopeMembers(c.scope);
    hide Decimal, BytesToHex, Json.Quote, Json.Member, Json.Print, Json.Plain, CredentialJson, ScopeJson, MintsJson, MemberOf;
    FourMembers(CredentialJson(c).fields);
    FourMembers(ScopeJson(c.scope).fields);
  }

  lemma CredentialMembers(c: ViewingCredential)
    ensures CredentialJson(c).Object? && |CredentialJson(c).fields| == 4
    ensures forall k :: 0 <= k < 4 ==> Json.Plain(CredentialJson(c).fields[k].name)
    ensures var fields := CredentialJson(c).fields;
      && MemberOf(fields[0]) == Json.Member("scopedKey", Json.Quote(BytesToHex(c.scopedKey)))
      && MemberOf(fields[1]) == Json.Member("scope", Json.Print(ScopeJson(c.scope)))
      && MemberOf(fields[2]) == Json.Member("issuedTo", Json.Quote(BytesToHex(c.issuedTo)))
      && MemberOf(fields[3]) == Json.Member("issuedAt", Decimal(c.issuedAt))
  {
    hide Decimal, BytesToHex, Json.Quote, Json.Member, Json.PrintFields, ScopeJson;
  }

  lemma ScopeMembers(scope: ViewingScope)
    ensures ScopeJson(scope).Object? && |ScopeJson(scope).fields| == 4
    ensures forall k :: 0 <= k < 4 ==> Json.Plain(ScopeJson(scope).fields[k].name)
    ensures var fields := ScopeJson(scope).fields;
      && MemberOf(fields[0]) == Json.Member("startTime", Decimal(scope.startTime))
      && MemberOf(fields[1]) == Json.Member("endTime", Decimal(scope.endTime))
      && MemberOf(fields[2]) == Json.Member("tokenMints", Json.Print(MintsJson(scope.tokenMints)))
      && MemberOf(fields[3]) == Json.Member("maxAmount", if scope.maxAmount.None? then "null" else Json.Quote(Decimal(scope.maxAmount.value)))
  {
    hide Decimal, Json.Quote, Json.Member, Json.PrintFields, MintsJson;
  }

  lemma FourMembers(fields: seq<Json.Field>)
    requires |fields| == 4 && forall k :: 0 <= k < 4 ==> Json.Plain(fields[k].name)
    ensures Json.Print(Json.Object(fields)) == "{" + (MemberOf(fields[0]) + ("," + (MemberOf(fields[1]) + ("," +
      (MemberOf(fields[2]) + ("," + MemberOf(fields[3]))))))) + "}"
  {
    hide Json.Member, Json.PrintFields, Json.Plain;
    assert fields[0..] == fields;
    Json.MemberText(fields, 0);
    Json.MemberText(fields, 1);
    Json.MemberText(fields, 2);
    Json.MemberText(fields, 3);
    LastMember(MemberOf(fields[3]));
  }
}
