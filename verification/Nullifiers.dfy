/** A job's nullifier is text; what the program spends is the 32 bytes the text decodes to. */
module Nullifiers {
  import opened Base
  import opened Bytes
  import opened Numerals

  /** The bytes the executor sends, or nothing where it throws. */
  function HashOf(text: string): Option<Key> {
    var bytes := BufferFromHex(text);
    if |bytes| == 32 then Some(bytes) else None
  }

  predicate Names(text: string, hash: Key) {
    HashOf(text) == Some(hash)
  }

  /** Two texts of one nullifier. */
  predicate Respelled(a: string, b: string) {
    a != b && HashOf(a).Some? && HashOf(a) == HashOf(b)
  }

  function LowerChar(c: char): char {
    if 'A' <= c <= 'F' then c - 'A' + 'a' else c
  }

  function Lowered(text: string): string {
    seq(|text|, i requires 0 <= i < |text| => LowerChar(text[i]))
  }

  lemma LowerPair(high: char, low: char)
    requires IsDigit(high, 16) && IsDigit(low, 16)
    ensures ByteHex(PairValue(high, low)) == [LowerChar(high), LowerChar(low)]
    ensures IsDigit(LowerChar(high), 16) && IsDigit(LowerChar(low), 16)
    ensures PairValue(LowerChar(high), LowerChar(low)) == PairValue(high, low)
  {
    var b := PairValue(high, low);
    ByteHexIs(b);
    assert b / 16 == DigitValue(high).value && b % 16 == DigitValue(low).value;
  }

  lemma DecodedPair(high: char, low: char, rest: string)
    requires IsDigit(high, 16) && IsDigit(low, 16)
    ensures BufferFromHex([high, low] + rest) == [PairValue(high, low)] + BufferFromHex(rest)
  {
    assert ([high, low] + rest)[2..] == rest;
  }

  lemma PrintedByte(b: Byte, rest: seq<Byte>)
    ensures BytesToHex([b] + rest) == ByteHex(b) + BytesToHex(rest)
  {
    assert ([b] + rest)[1..] == rest;
  }

  lemma LoweredPair(h: string)
    requires |h| >= 2
    ensures h == [h[0], h[1]] + h[2..] && Lowered(h) == [LowerChar(h[0]), LowerChar(h[1])] + Lowered(h[2..])
  {
  }

  /** Hex text decodes to bytes whose own text is it in lower case. */
  lemma {:induction false} DecodesToLower(h: string)
    requires AllDigits(h, 16) && |h| % 2 == 0
    ensures |BufferFromHex(h)| == |h| / 2
    ensures BytesToHex(BufferFromHex(h)) == Lowered(h) && BufferFromHex(Lowered(h)) == BufferFromHex(h)
  {
    if h != "" {
      hide BufferFromHex, BytesToHex, Lowered, LowerChar, PairValue, ByteHex;
      LowerPair(h[0], h[1]);
      LoweredPair(h);
      DecodesToLower(h[2..]);
      DecodedPair(h[0], h[1], h[2..]);
      DecodedPair(LowerChar(h[0]), LowerChar(h[1]), Lowered(h[2..]));
      PrintedByte(PairValue(h[0], h[1]), BufferFromHex(h[2..]));
    }
  }

  lemma {:induction false} DecodesInFull(h: string)
    requires |h| % 2 == 0
    ensures |BufferFromHex(h)| <= |h| / 2
    ensures |BufferFromHex(h)| == |h| / 2 ==> AllDigits(h, 16)
  {
    if h != "" {
      DecodesInFull(h[2..]);
      assert |BufferFromHex(h)| == |h| / 2 ==> forall i :: 2 <= i < |h| ==> h[i] == h[2..][i - 2];
    }
  }

  /** Of the texts of 64 characters that a job can have, exactly the hex ones can be sent. */
  lemma SendableIff(text: string)
    requires |text| == 64
    ensures HashOf(text).Some? <==> AllDigits(text, 16)
  {
    DecodesInFull(text);
    if AllDigits(text, 16) { DecodesToLower(text); }
  }

  /** Two of them are one nullifier exactly when they differ in case only. */
  lemma OneNullifierIff(a: string, b: string)
    requires |a| == |b| == 64 && HashOf(a).Some? && HashOf(b).Some?
    ensures HashOf(a) == HashOf(b) <==> Lowered(a) == Lowered(b)
  {
    SendableIff(a);
    SendableIff(b);
    DecodesToLower(a);
    DecodesToLower(b);
  }
}
