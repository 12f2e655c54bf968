/** The hash-based stream cipher and tag that notes and viewing credentials share. */
module Cipher {
  import opened Base
  import opened Bytes

  /** SHA-256, X25519 and HKDF as uninterpreted functions. X25519 refuses some public keys. */
  datatype Suite = Suite(
    sha256: seq<Byte> -> Key,
    publicKey: Key -> Key,
    sharedSecret: (Key, Key) -> Option<Key>,
    hkdf: (seq<Byte>, seq<Byte>) -> Key
  )

  /** Both sides of a key exchange compute one secret (section 6.1 of RFC 7748). */
  ghost predicate DhAgrees(suite: Suite) {
    forall a, b :: Exchanges(suite, a, b)
  }

  predicate Exchanges(suite: Suite, a: Key, b: Key) {
    && suite.sharedSecret(a, suite.publicKey(b)).Some?
    && suite.sharedSecret(a, suite.publicKey(b)) == suite.sharedSecret(b, suite.publicKey(a))
  }

  const NONCE_LENGTH: nat := 12
  const TAG_LENGTH: nat := 16

  // ---- Byte buffers ----------------------------------------------------------------------------

  /** `buffer.set(s, offset)`. */
  method Set(buffer: array<Byte>, s: seq<Byte>, offset: nat)
    requires offset + |s| <= buffer.Length
    modifies buffer
    ensures buffer[..] == old(buffer[..offset]) + s + old(buffer[offset + |s|..])
  {
    for i := 0 to |s|
      invariant buffer[..offset] == old(buffer[..offset])
      invariant buffer[offset..offset + i] == s[..i]
      invariant buffer[offset + |s|..] == old(buffer[offset + |s|..])
    {
      buffer[offset + i] := s[i];
      assert buffer[offset..offset + (i + 1)] == buffer[offset..offset + i] + [s[i]];
      assert s[..i + 1] == s[..i] + [s[i]];
    }
    assert buffer[..] == buffer[..offset] + buffer[offset..offset + |s|] + buffer[offset + |s|..];
  }

  /** `s.slice(start, end)`: negative positions count from the end, and both are clamped. */
  function Slice(s: seq<Byte>, start: int, end: int): seq<Byte> {
    var from, to := Clamp(start, |s|), Clamp(end, |s|);
    if from <= to then s[from..to] else []
  }

  function Clamp(position: int, length: nat): (r: nat)
    ensures r <= length
    ensures 0 <= position <= length ==> r == position
  {
    if position + length < 0 then 0
    else if position < 0 then length + position
    else if position > length then length
    else position
  }

  // ---- Stream cipher ---------------------------------------------------------------------------

  /** Byte `i` of the key stream: one hash per byte, indexed by its position in a 32-byte block. */
  function StreamByte(suite: Suite, key: Key, nonce: seq<Byte>, i: nat): Byte {
    suite.sha256(key + nonce + LittleEndian(i, 4))[i % 32]
  }

  function XorStream(suite: Suite, data: seq<Byte>, key: Key, nonce: seq<Byte>): seq<Byte> {
    seq(|data|, i requires 0 <= i < |data| => Xor(data[i], StreamByte(suite, key, nonce, i)))
  }

  /** Every byte is combined with one of the hash of key, nonce and the byte's own position, which
      enters as four bytes. */
  ghost predicate Enciphers(suite: Suite, key: Key, nonce: seq<Byte>, data: seq<Byte>, result: seq<Byte>) {
    |result| == |data| && forall i :: 0 <= i < |data| ==>
      result[i] == Xor(data[i], suite.sha256(key + nonce + [i % 256, i / 256 % 256, i / 0x1_0000 % 256, i / 0x100_0000 % 256])[i % 32])
  }

  lemma EncipheredAt(suite: Suite, key: Key, nonce: seq<Byte>, data: seq<Byte>, result: seq<Byte>, i: nat)
    requires Enciphers(suite, key, nonce, data, result) && i < |data|
    ensures result[i] == Xor(data[i], suite.sha256(key + nonce + [i % 256, i / 256 % 256, i / 0x1_0000 % 256, i / 0x100_0000 % 256])[i % 32])
  {
  }

  method XorCipher(suite: Suite, data: seq<Byte>, key: Key, nonce: seq<Byte>) returns (result: seq<Byte>)
    ensures result == XorStream(suite, data, key, nonce) && Enciphers(suite, key, nonce, data, result)
  {
    var buffer := new Byte[|data|](_ => 0);
    for i := 0 to |data|
      invariant forall k :: 0 <= k < i ==> buffer[k] == Xor(data[k], StreamByte(suite, key, nonce, k))
    {
      var block := BlockInput(key, nonce, i);
      buffer[i] := Xor(data[i], suite.sha256(block)[i % 32]);
    }
    result := buffer[..];
    StreamIs(suite, data, key, nonce);
  }

  /** Byte by byte: the hash of key, nonce and the byte's own position. */
  lemma StreamIs(suite: Suite, data: seq<Byte>, key: Key, nonce: seq<Byte>)
    ensures Enciphers(suite, key, nonce, data, XorStream(suite, data, key, nonce))
  {
    forall i | 0 <= i < |data|
      ensures XorStream(suite, data, key, nonce)[i]
        == Xor(data[i], suite.sha256(key + nonce + [i % 256, i / 256 % 256, i / 0x1_0000 % 256, i / 0x100_0000 % 256])[i % 32])
    {
      FourBytes(i);
    }
  }

  lemma PositionsDiffer(key: Key, nonce: seq<Byte>, i: nat, j: nat)
    requires i < 0x1_0000_0000 && j < 0x1_0000_0000 && i != j
    ensures key + nonce + LittleEndian(i, 4) != key + nonce + LittleEndian(j, 4)
  {
    FourBytesSpell(i);
    FourBytesSpell(j);
    var a, b := key + nonce + LittleEndian(i, 4), key + nonce + LittleEndian(j, 4);
    var n := |key + nonce|;
    assert a[n..] == LittleEndian(i, 4) && b[n..] == LittleEndian(j, 4);
  }

  lemma FourBytesSpell(n: nat)
    requires n < 0x1_0000_0000
    ensures LittleEndianValue(LittleEndian(n, 4)) == n
  {
    assert Pow(256, 2) == 0x1_0000;
    PowAdd(256, 2, 2);
    LittleEndianRoundTrip(n, 4);
  }

  function Constant(b: Byte): Key {
    seq(32, _ => b)
  }

  /** The stream never repeats by construction: for any two positions below 2^32 and any two bytes,
      some suite makes these the stream's bytes there. */
  lemma StreamIsFree(key: Key, nonce: seq<Byte>, n: nat, i: nat, j: nat, x: Byte, y: Byte) returns (suite: Suite)
    requires i < n && j < n && i < 0x1_0000_0000 && j < 0x1_0000_0000 && i != j
    ensures var stream := XorStream(suite, seq(n, _ => 0), key, nonce); |stream| == n && stream[i] == x && stream[j] == y
  {
    PositionsDiffer(key, nonce, i, j);
    var at := key + nonce + LittleEndian(i, 4);
    suite := Suite((data: seq<Byte>) => if data == at then Constant(x) else Constant(y),
                   (k: Key) => k, (k: Key, p: Key) => Some(k), (k: seq<Byte>, data: seq<Byte>) => Constant(0));
    XorWithZero(x);
    XorWithZero(y);
  }

  method BlockInput(key: Key, nonce: seq<Byte>, i: nat) returns (input: seq<Byte>)
    ensures input == key + nonce + LittleEndian(i, 4)
  {
    var n := |key| + |nonce|;
    var buffer := new Byte[n + 4](_ => 0);
    Set(buffer, key, 0);
    Set(buffer, nonce, |key|);
    assert buffer[..n] == key + nonce;
    buffer[n] := i % 256;
    buffer[n + 1] := i / 256 % 256;
    buffer[n + 2] := i / 0x1_0000 % 256;
    buffer[n + 3] := i / 0x100_0000 % 256;
    FourBytes(i);
    assert buffer[..n] == key + nonce;
    input := buffer[..];
    assert input == buffer[..n] + [buffer[n], buffer[n + 1], buffer[n + 2], buffer[n + 3]];
  }

  lemma FourBytes(i: nat)
    ensures LittleEndian(i, 4) == [i % 256, i / 256 % 256, i / 0x1_0000 % 256, i / 0x100_0000 % 256]
  {
    assert LittleEndian(i, 4) == [i % 256] + LittleEndian(i / 256, 3);
    assert LittleEndian(i / 256, 3) == [i / 256 % 256] + LittleEndian(i / 256 / 256, 2);
    assert i / 256 / 256 == i / 0x1_0000 && i / 0x1_0000 / 256 == i / 0x100_0000;
    assert LittleEndian(i / 0x1_0000, 2) == [i / 0x1_0000 % 256] + LittleEndian(i / 0x100_0000, 1);
    assert LittleEndian(i / 0x100_0000, 1) == [i / 0x100_0000 % 256];
  }

  /** The cipher is its own inverse. */
  lemma XorStreamTwice(suite: Suite, data: seq<Byte>, key: Key, nonce: seq<Byte>)
    ensures XorStream(suite, XorStream(suite, data, key, nonce), key, nonce) == data
  {
    var once := XorStream(suite, data, key, nonce);
    forall i | 0 <= i < |data| ensures XorStream(suite, once, key, nonce)[i] == data[i] {
      XorUndo(data[i], StreamByte(suite, key, nonce, i));
    }
  }

  // ---- Tag ---------------------------------------------------------------------------------------

  function Tag(suite: Suite, key: Key, nonce: seq<Byte>, ciphertext: seq<Byte>): (r: seq<Byte>)
    ensures |r| == TAG_LENGTH
  {
    suite.sha256(key + nonce + ciphertext)[..TAG_LENGTH]
  }

  method ComputeTag(suite: Suite, key: Key, nonce: seq<Byte>, ciphertext: seq<Byte>) returns (tag: seq<Byte>)
    ensures tag == Tag(suite, key, nonce, ciphertext) == suite.sha256(key + nonce + ciphertext)[..16]
  {
    var buffer := new Byte[|key| + |nonce| + |ciphertext|](_ => 0);
    Set(buffer, key, 0);
    Set(buffer, nonce, |key|);
    assert buffer[..|key| + |nonce|] == key + nonce;
    Set(buffer, ciphertext, |key| + |nonce|);
    assert buffer[..] == key + nonce + ciphertext;
    tag := suite.sha256(buffer[..])[..TAG_LENGTH];
  }

  function Or(a: Byte, b: Byte): (r: Byte)
    ensures r == 0 <==> a == 0 && b == 0
  {
    BitOrZero(a, b);
    TwoTo8();
    BitOrBelow(a, b, 8);
    BitOr(a, b)
  }

  method ConstantTimeEqual(a: seq<Byte>, b: seq<Byte>) returns (equal: bool)
    ensures equal <==> a == b
  {
    if |a| != |b| { return false; }
    var result: Byte := 0;
    for i := 0 to |a|
      invariant result == 0 <==> a[..i] == b[..i]
    {
      result := Or(result, Xor(a[i], b[i]));
      assert a[..i + 1] == a[..i] + [a[i]] && b[..i + 1] == b[..i] + [b[i]];
    }
    assert a[..|a|] == a && b[..|b|] == b;
    return result == 0;
  }

  // ---- Sealed messages -----------------------------------------------------------------------------

  /** nonce, ciphertext, tag. */
  function Sealed(suite: Suite, key: Key, nonce: seq<Byte>, plaintext: seq<Byte>): seq<Byte> {
    var ciphertext := XorStream(suite, plaintext, key, nonce);
    nonce + ciphertext + Tag(suite, key, nonce, ciphertext)
  }

  /** The plaintext, unless the tag is not the one the rest of the message has. */
  function Opened(suite: Suite, key: Key, message: seq<Byte>): Option<seq<Byte>> {
    var nonce := Slice(message, 0, NONCE_LENGTH);
    var ciphertext := Slice(message, NONCE_LENGTH, |message| - TAG_LENGTH);
    if Slice(message, |message| - TAG_LENGTH, |message|) == Tag(suite, key, nonce, ciphertext)
    then Some(XorStream(suite, ciphertext, key, nonce))
    else None
  }

  method Open(suite: Suite, key: Key, message: seq<Byte>) returns (plaintext: Option<seq<Byte>>)
    ensures plaintext == Opened(suite, key, message)
    ensures var n := |message| - 16; n >= 12 ==>
      (plaintext.Some? <==> message[n..] == suite.sha256(key + message[..12] + message[12..n])[..16])
  {
    var nonce := Slice(message, 0, NONCE_LENGTH);
    var ciphertext := Slice(message, NONCE_LENGTH, |message| - TAG_LENGTH);
    var tag := Slice(message, |message| - TAG_LENGTH, |message|);
    var expectedTag := ComputeTag(suite, key, nonce, ciphertext);
    var genuine := ConstantTimeEqual(tag, expectedTag);
    if !genuine { return None; }
    var text := XorCipher(suite, ciphertext, key, nonce);
    return Some(text);
  }

  /** A sealing, byte by byte: the nonce, the enciphered plaintext, and the first half of the hash
      of key, nonce and what was made. */
  ghost predicate IsSealing(suite: Suite, key: Key, nonce: seq<Byte>, plaintext: seq<Byte>, message: seq<Byte>) {
    var n := |plaintext|;
    && |nonce| == 12 && |message| == 12 + n + 16 && message[..12] == nonce
    && var ciphertext := message[12..12 + n];
    && Enciphers(suite, key, nonce, plaintext, ciphertext)
    && message[12 + n..] == suite.sha256(key + nonce + ciphertext)[..16]
  }

  lemma SealedIs(suite: Suite, key: Key, nonce: seq<Byte>, plaintext: seq<Byte>)
    requires |nonce| == NONCE_LENGTH
    ensures IsSealing(suite, key, nonce, plaintext, Sealed(suite, key, nonce, plaintext))
  {
    StreamIs(suite, plaintext, key, nonce);
    var ciphertext := XorStream(suite, plaintext, key, nonce);
    var message := Sealed(suite, key, nonce, plaintext);
    assert message[..12] == nonce && message[12..12 + |plaintext|] == ciphertext;
    assert message[12 + |plaintext|..] == Tag(suite, key, nonce, ciphertext);
  }

  /** A message whose ciphertext or nonce was changed opens exactly when the truncated hashes of the
      genuine and the changed one are the same. */
  lemma ChangedOpensIff(suite: Suite, key: Key, nonce: seq<Byte>, ciphertext: seq<Byte>, nonce': seq<Byte>, ciphertext': seq<Byte>)
    requires |nonce| == |nonce'| == NONCE_LENGTH
    ensures Opened(suite, key, nonce' + ciphertext' + Tag(suite, key, nonce, ciphertext)).Some?
       <==> suite.sha256(key + nonce' + ciphertext')[..16] == suite.sha256(key + nonce + ciphertext)[..16]
  {
    var message := nonce' + ciphertext' + Tag(suite, key, nonce, ciphertext);
    assert message[..NONCE_LENGTH] == nonce' && message[NONCE_LENGTH..|message| - TAG_LENGTH] == ciphertext';
    assert message[|message| - TAG_LENGTH..] == Tag(suite, key, nonce, ciphertext);
  }

  /** ... and for every change there is a suite that notices it. */
  lemma ChangeIsNoticed(key: Key, nonce: seq<Byte>, ciphertext: seq<Byte>, nonce': seq<Byte>, ciphertext': seq<Byte>)
    returns (suite: Suite)
    requires |nonce| == |nonce'| == NONCE_LENGTH && (nonce != nonce' || ciphertext != ciphertext')
    ensures Opened(suite, key, nonce' + ciphertext' + Tag(suite, key, nonce, ciphertext)) == None
  {
    var genuine := key + nonce + ciphertext;
    assert genuine[|key|..|key| + NONCE_LENGTH] == nonce && genuine[|key| + NONCE_LENGTH..] == ciphertext;
    var changed := key + nonce' + ciphertext';
    assert changed[|key|..|key| + NONCE_LENGTH] == nonce' && changed[|key| + NONCE_LENGTH..] == ciphertext';
    suite := Suite((data: seq<Byte>) => if data == genuine then Constant(0) else Constant(1),
                   (k: Key) => k, (k: Key, p: Key) => Some(k), (k: seq<Byte>, data: seq<Byte>) => Constant(0));
    assert genuine != changed && suite.sha256(genuine) == Constant(0) && suite.sha256(changed) == Constant(1);
    assert Constant(0)[..16][0] == 0 && Constant(1)[..16][0] == 1;
    hide Opened, Tag;
    ChangedOpensIff(suite, key, nonce, ciphertext, nonce', ciphertext');
  }

  /** A message of at least a nonce and a tag opens exactly when it is the sealing, under its own
      nonce, of what it opens to. */
  lemma OpensIffSealed(suite: Suite, key: Key, message: seq<Byte>, plaintext: seq<Byte>)
    requires |message| >= NONCE_LENGTH + TAG_LENGTH
    ensures Opened(suite, key, message) == Some(plaintext)
       <==> message == Sealed(suite, key, message[..NONCE_LENGTH], plaintext)
  {
    var nonce := message[..NONCE_LENGTH];
    var ciphertext, tag := message[NONCE_LENGTH..|message| - TAG_LENGTH], message[|message| - TAG_LENGTH..];
    assert message == nonce + ciphertext + tag;
    XorStreamTwice(suite, ciphertext, key, nonce);
    XorStreamTwice(suite, plaintext, key, nonce);
    if message == Sealed(suite, key, nonce, plaintext) {
      SameParts(nonce, ciphertext, tag, XorStream(suite, plaintext, key, nonce),
                Tag(suite, key, nonce, XorStream(suite, plaintext, key, nonce)));
    }
  }

  lemma SameParts(nonce: seq<Byte>, c: seq<Byte>, t: seq<Byte>, c': seq<Byte>, t': seq<Byte>)
    requires nonce + c + t == nonce + c' + t' && |t| == |t'|
    ensures c == c' && t == t'
  {
    var whole := nonce + c + t;
    assert c == whole[|nonce|..|nonce| + |c|] && c' == whole[|nonce|..|nonce| + |c'|];
    assert t == whole[|nonce| + |c|..] && t' == whole[|nonce| + |c'|..];
  }

  /** Sealing then opening gives back the plaintext, for every key, nonce and plaintext. */
  lemma SealedOpens(suite: Suite, key: Key, nonce: seq<Byte>, plaintext: seq<Byte>)
    requires |nonce| == NONCE_LENGTH
    ensures Opened(suite, key, Sealed(suite, key, nonce, plaintext)) == Some(plaintext)
  {
    var message := Sealed(suite, key, nonce, plaintext);
    assert message[..NONCE_LENGTH] == nonce;
    OpensIffSealed(suite, key, message, plaintext);
  }

  /** A message shorter than a tag never opens. */
  lemma ShortNeverOpens(suite: Suite, key: Key, message: seq<Byte>)
    requires |message| < TAG_LENGTH
    ensures Opened(suite, key, message) == None
  {
  }

  /** The tag is a function of the rest: two messages that open and differ only in it are one. */
  lemma TagIsForced(suite: Suite, key: Key, body: seq<Byte>, tag: seq<Byte>, tag': seq<Byte>)
    requires |body| >= NONCE_LENGTH && |tag| == |tag'| == TAG_LENGTH
    requires Opened(suite, key, body + tag).Some? && Opened(suite, key, body + tag').Some?
    ensures tag == tag'
  {
    var a, b := body + tag, body + tag';
    assert a[..|body|] == body == b[..|body|] && a[|body|..] == tag && b[|body|..] == tag';
    assert a[..NONCE_LENGTH] == body[..NONCE_LENGTH] == b[..NONCE_LENGTH];
    assert a[NONCE_LENGTH..|body|] == body[NONCE_LENGTH..] == b[NONCE_LENGTH..|body|];
  }
}
