/** Byte strings: hex, big- and little-endian integers, exclusive or. */
module Bytes {
  import opened Base
  import opened Numerals
  import opened Strings

  type Byte = b: int | 0 <= b < 256

  type Key = s: seq<Byte> | |s| == 32 witness seq(32, _ => 0)

  // ---- Hex ----------------------------------------------------------------------------------

  /** `b.toString(16).padStart(2, '0')`. */
  function ByteHex(b: Byte): string {
    PadStart(Digits(b, 16), 2)
  }

  function BytesToHex(s: seq<Byte>): string {
    if s == [] then "" else ByteHex(s[0]) + BytesToHex(s[1..])
  }

  /** `parseInt(pair, 16)` stored in a byte: the longest hex prefix after white space and a
      sign, or zero when there is none. */
  function PairValue(high: char, low: char): Byte {
    if IsDigit(high, 16) then
      if IsDigit(low, 16) then DigitValue(high).value * 16 + DigitValue(low).value else DigitValue(high).value
    else if !IsDigit(low, 16) then 0
    else if high == '+' || IsSpace(high) then DigitValue(low).value
    else if high == '-' then (256 - DigitValue(low).value) % 256
    else 0
  }

  function HexBytes(hex: string): seq<Byte> {
    seq(|hex| / 2, i requires 0 <= i < |hex| / 2 => PairValue(hex[2 * i], hex[2 * i + 1]))
  }

  method HexToBytes(hex: string) returns (bytes: seq<Byte>)
    ensures bytes == HexBytes(hex)
  {
    var buffer := new Byte[|hex| / 2](_ => 0);
    for i := 0 to buffer.Length
      invariant forall k :: 0 <= k < i ==> buffer[k] == PairValue(hex[2 * k], hex[2 * k + 1])
    {
      buffer[i] := PairValue(hex[2 * i], hex[2 * i + 1]);
    }
    bytes := buffer[..];
  }

  lemma ByteHexIs(b: Byte)
    ensures ByteHex(b) == [DigitChar(b / 16), DigitChar(b % 16)]
  {
    if b < 16 {
      assert Digits(b, 16) == [DigitChar(b)];
      assert ByteHex(b) == Zeros(1) + Digits(b, 16);
    } else {
      assert Digits(b, 16) == Digits(b / 16, 16) + [DigitChar(b % 16)];
    }
  }

  lemma PairRoundTrip(b: Byte)
    ensures |ByteHex(b)| == 2 && PairValue(ByteHex(b)[0], ByteHex(b)[1]) == b
  {
    ByteHexIs(b);
    DigitCharIs(b / 16, 16);
    DigitCharIs(b % 16, 16);
  }

  lemma HexBytesCons(high: char, low: char, hex: string)
    ensures HexBytes([high, low] + hex) == [PairValue(high, low)] + HexBytes(hex)
  {
    var whole := [high, low] + hex;
    forall i | 0 < i < |whole| / 2 ensures HexBytes(whole)[i] == HexBytes(hex)[i - 1] {
      assert whole[2 * i] == hex[2 * (i - 1)] && whole[2 * i + 1] == hex[2 * (i - 1) + 1];
    }
  }

  lemma {:induction false} HexRoundTrip(s: seq<Byte>)
    ensures |BytesToHex(s)| == 2 * |s| && HexBytes(BytesToHex(s)) == s
  {
    if s != [] {
      hide ByteHex, PairValue, HexBytes;
      var h := ByteHex(s[0]);
      PairRoundTrip(s[0]);
      HexRoundTrip(s[1..]);
      assert h == [h[0], h[1]] && s == [s[0]] + s[1..];
      HexBytesCons(h[0], h[1], BytesToHex(s[1..]));
    }
  }

  // ---- Big-endian integers through hex -------------------------------------------------------

  /** `value.toString(16)`, with a sign when negative. */
  function HexText(value: int): string {
    if value < 0 then "-" + Digits(-value, 16) else Digits(value, 16)
  }

  /** The first 32 bytes of the padded hex text. */
  function Bytes32BE(value: int): (r: seq<Byte>)
    ensures |r| == 32
  {
    HexBytes(PadStart(HexText(value), 64)[..64])
  }

  method BigintToBytes32BE(value: int) returns (bytes: seq<Byte>)
    ensures bytes == Bytes32BE(value)
  {
    var hex := PadStart(HexText(value), 64);
    var buffer := new Byte[32](_ => 0);
    for i := 0 to 32
      invariant forall k :: 0 <= k < i ==> buffer[k] == PairValue(hex[2 * k], hex[2 * k + 1])
    {
      buffer[i] := PairValue(hex[2 * i], hex[2 * i + 1]);
    }
    bytes := buffer[..];
  }

  /** `Buffer.from(hex, 'hex')`: the pairs before the first one that is not hex. */
  function BufferFromHex(hex: string): seq<Byte> {
    if |hex| < 2 || !IsDigit(hex[0], 16) || !IsDigit(hex[1], 16) then []
    else [PairValue(hex[0], hex[1])] + BufferFromHex(hex[2..])
  }

  function BytesValue(bytes: seq<Byte>): Option<int> {
    ParseBigInt("0x" + if bytes == [] then "0" else BytesToHex(bytes))
  }

  method Bytes32ToBigint(bytes: seq<Byte>) returns (value: Option<int>)
    ensures value == BytesValue(bytes)
  {
    var hex := "";
    for i := 0 to |bytes|
      invariant hex == BytesToHex(bytes[..i])
    {
      hex := hex + ByteHex(bytes[i]);
      HexAppend(bytes[..i], bytes[i]);
      assert bytes[..i + 1] == bytes[..i] + [bytes[i]];
    }
    assert bytes[..|bytes|] == bytes;
    HexRoundTrip(bytes);
    value := ParseBigInt("0x" + if hex == "" then "0" else hex);
  }

  lemma {:induction false} HexAppend(s: seq<Byte>, b: Byte)
    ensures BytesToHex(s + [b]) == BytesToHex(s) + ByteHex(b)
  {
    if s == [] {
      assert [] + [b] == [b] && [b][1..] == [];
    } else {
      assert (s + [b])[1..] == s[1..] + [b];
      HexAppend(s[1..], b);
    }
  }

  predicate IsLowerHex(c: char) {
    IsDigit(c, 16) && c == DigitChar(DigitValue(c).value)
  }

  predicate AllLowerHex(s: string) {
    forall i :: 0 <= i < |s| ==> IsLowerHex(s[i])
  }

  lemma {:induction false} DigitsAreLower(n: nat)
    ensures AllLowerHex(Digits(n, 16))
  {
    if n >= 16 {
      DigitsAreLower(n / 16);
    }
  }

  lemma HexPair(high: char, low: char)
    requires IsLowerHex(high) && IsLowerHex(low)
    ensures ByteHex(PairValue(high, low)) == [high, low]
  {
    var b := PairValue(high, low);
    ByteHexIs(b);
    assert b / 16 == DigitValue(high).value && b % 16 == DigitValue(low).value;
  }

  /** Lower-case hex text of even length survives the way through bytes. */
  lemma {:induction false} TextRoundTrip(h: string)
    requires AllLowerHex(h) && |h| % 2 == 0
    ensures BytesToHex(HexBytes(h)) == h && BufferFromHex(h) == HexBytes(h)
  {
    if h != "" {
      assert h == [h[0], h[1]] + h[2..];
      HexBytesCons(h[0], h[1], h[2..]);
      HexPair(h[0], h[1]);
      TextRoundTrip(h[2..]);
    }
  }

  lemma HexDigitsAreDigits(h: string)
    requires AllDigits(h, 16) && h != ""
    ensures ParseBigInt("0x" + h) == Some(Spelled(h, 16))
  {
    var t := "0x" + h;
    forall i | 0 <= i < |h| ensures !IsSpace(h[i]) {
      DigitIsNotSpace(h[i], 16);
    }
    TrimKeeps(t);
    assert t[2..] == h;
  }

  lemma Padded(value: nat, width: nat)
    requires width > 0 && value < Pow(16, width)
    ensures var h := PadStart(Digits(value, 16), width);
      |h| == width && AllLowerHex(h) && AllDigits(h, 16) && Spelled(h, 16) == value
  {
    DigitsLength(value, width);
    DigitsSpell(value, 16);
    DigitsAreLower(value);
    PadStartSpells(Digits(value, 16), width, 16);
    assert IsLowerHex('0');
  }

  const TWO_TO_256: nat := 0x1_0000_0000_0000_0000_0000_0000_0000_0000_0000_0000_0000_0000_0000_0000_0000_0000

  lemma Square(k: nat, v: nat)
    requires Pow(16, k) == v
    ensures Pow(16, k + k) == v * v
  {
    PowAdd(16, k, k);
  }

  /** 32 bytes are 64 hex digits. */
  lemma HexDigitsOf32Bytes(width: nat)
    requires width == 64
    ensures Pow(16, width) == TWO_TO_256
  {
    assert Pow(16, 2) == 0x100;
    Square(2, 0x100);
    Square(4, 0x1_0000);
    Square(8, 0x1_0000_0000);
    Square(16, 0x1_0000_0000_0000_0000);
    Square(32, 0x1_0000_0000_0000_0000_0000_0000_0000_0000);
  }

  /** Below 2^256 the conversions undo each other, and both variants of the source agree. */
  lemma Bytes32RoundTrip(value: nat)
    requires value < TWO_TO_256
    ensures BytesValue(Bytes32BE(value)) == Some(value)
    ensures BufferFromHex(PadStart(HexText(value), 64)) == Bytes32BE(value)
  {
    var width: nat := 64;
    HexDigitsOf32Bytes(width);
    Padded(value, width);
    var h := PadStart(Digits(value, 16), width);
    assert h[..64] == h;
    TextRoundTrip(h);
    HexDigitsAreDigits(h);
  }

  /** Digit strings of one length that spell the same number are the same. */
  lemma {:induction false} SpelledInjective(a: string, b: string)
    requires AllLowerHex(a) && AllLowerHex(b) && |a| == |b|
    requires AllDigits(a, 16) && AllDigits(b, 16) && Spelled(a, 16) == Spelled(b, 16)
    ensures a == b
  {
    if a != "" {
      var last := |a| - 1;
      var x, y := DigitValue(a[last]).value, DigitValue(b[last]).value;
      DivModUnique(Spelled(a, 16), 16, Spelled(a[..last], 16), x);
      DivModUnique(Spelled(b, 16), 16, Spelled(b[..last], 16), y);
      SpelledInjective(a[..last], b[..last]);
      assert a == a[..last] + [a[last]] && b == b[..last] + [b[last]];
    }
  }

  lemma {:induction false} SpelledBelow(s: string)
    requires AllDigits(s, 16)
    ensures Spelled(s, 16) < Pow(16, |s|)
  {
    if s != "" {
      SpelledBelow(s[..|s| - 1]);
    }
  }

  lemma {:induction false} HexIsLower(bytes: seq<Byte>)
    ensures AllLowerHex(BytesToHex(bytes)) && AllDigits(BytesToHex(bytes), 16)
  {
    if bytes != [] {
      ByteHexIs(bytes[0]);
      DigitCharIs(bytes[0] / 16, 16);
      DigitCharIs(bytes[0] % 16, 16);
      HexIsLower(bytes[1..]);
    }
  }

  lemma PaddedAgain(h: string, width: nat)
    requires AllLowerHex(h) && AllDigits(h, 16) && |h| == width && width > 0
    ensures PadStart(Digits(Spelled(h, 16), 16), width) == h
  {
    SpelledBelow(h);
    Padded(Spelled(h, 16), width);
    SpelledInjective(h, PadStart(Digits(Spelled(h, 16), 16), width));
  }

  /** Every 32 bytes are the big-endian bytes of the number they spell. */
  lemma BigintRoundTrip(bytes: Key)
    ensures BytesValue(bytes).Some? && 0 <= BytesValue(bytes).value < TWO_TO_256
    ensures Bytes32BE(BytesValue(bytes).value) == bytes
  {
    var h := BytesToHex(bytes);
    var width: nat := 64;
    HexRoundTrip(bytes);
    HexIsLower(bytes);
    HexDigitsAreDigits(h);
    PaddedAgain(h, width);
    SpelledBelow(h);
    HexDigitsOf32Bytes(width);
    assert h[..64] == h;
  }

  // ---- Little-endian integers ------------------------------------------------------------------

  /** `n` in `width` bytes, least significant first, as writeUInt32LE and `(n >> 8 * k) & 0xff` do. */
  function LittleEndian(n: nat, width: nat): seq<Byte> {
    if width == 0 then [] else [n % 256] + LittleEndian(n / 256, width - 1)
  }

  function LittleEndianValue(s: seq<Byte>): nat {
    if s == [] then 0 else s[0] + 256 * LittleEndianValue(s[1..])
  }

  lemma {:induction false} LittleEndianRoundTrip(n: nat, width: nat)
    requires n < Pow(256, width)
    ensures |LittleEndian(n, width)| == width && LittleEndianValue(LittleEndian(n, width)) == n
  {
    if width > 0 {
      QuotientBelow(n, 256, Pow(256, width - 1));
      LittleEndianRoundTrip(n / 256, width - 1);
    }
  }

  lemma {:induction false} LittleEndianBelow(s: seq<Byte>)
    ensures LittleEndianValue(s) < Pow(256, |s|)
    ensures LittleEndian(LittleEndianValue(s), |s|) == s
  {
    if s != [] {
      LittleEndianBelow(s[1..]);
      DivModUnique(LittleEndianValue(s), 256, LittleEndianValue(s[1..]), s[0]);
    }
  }

  /** Two's complement reading of 8 bytes. */
  function Int64Value(s: seq<Byte>): int {
    var n := LittleEndianValue(s);
    if n >= 0x8000_0000_0000_0000 then n - 0x1_0000_0000_0000_0000 else n
  }

  // ---- Exclusive or ----------------------------------------------------------------------------

  /** The low `bits` bits of the exclusive or. */
  function XorBits(a: nat, b: nat, bits: nat): nat {
    if bits == 0 then 0 else (a % 2 + b % 2) % 2 + 2 * XorBits(a / 2, b / 2, bits - 1)
  }

  lemma {:induction false} XorBitsBelow(a: nat, b: nat, bits: nat)
    ensures XorBits(a, b, bits) < Pow(2, bits)
  {
    if bits > 0 { XorBitsBelow(a / 2, b / 2, bits - 1); }
  }

  lemma BitAndRest(x: nat, low: nat, rest: nat)
    requires low < 2 && x == low + 2 * rest
    ensures x % 2 == low && x / 2 == rest
  {
  }

  lemma XorBitsStep(a: nat, b: nat, bits: nat)
    requires bits > 0
    ensures XorBits(a, b, bits) == (a % 2 + b % 2) % 2 + 2 * XorBits(a / 2, b / 2, bits - 1)
  {
  }

  lemma HalfBelow(a: nat, bits: nat)
    requires bits > 0 && a < Pow(2, bits)
    ensures a / 2 < Pow(2, bits - 1)
  {
  }

  lemma {:induction false} XorBitsUndo(a: nat, b: nat, bits: nat)
    requires a < Pow(2, bits)
    ensures XorBits(XorBits(a, b, bits), b, bits) == a
  {
    if bits > 0 {
      HalfBelow(a, bits);
      hide Pow, XorBits;
      XorBitsStep(a, b, bits);
      BitAndRest(XorBits(a, b, bits), (a % 2 + b % 2) % 2, XorBits(a / 2, b / 2, bits - 1));
      XorBitsUndo(a / 2, b / 2, bits - 1);
      XorBitsStep(XorBits(a, b, bits), b, bits);
    }
  }

  /** The exclusive or of two numbers is zero only when they are equal. */
  lemma {:induction false} XorBitsZero(a: nat, b: nat, bits: nat)
    requires a < Pow(2, bits) && b < Pow(2, bits)
    ensures XorBits(a, b, bits) == 0 <==> a == b
  {
    if bits > 0 { XorBitsZero(a / 2, b / 2, bits - 1); }
  }

  lemma TwoTo8()
    ensures Pow(2, 8) == 256
  {
    PowAdd(2, 4, 4);
    assert Pow(2, 4) == 16;
  }

  function Xor(a: Byte, b: Byte): (r: Byte)
    ensures Xor(a, b) == 0 <==> a == b
  {
    XorBitsBelow(a, b, 8);
    XorBitsZero(a, b, 8);
    TwoTo8();
    XorBits(a, b, 8)
  }

  lemma XorUndo(a: Byte, b: Byte)
    ensures Xor(Xor(a, b), b) == a
  {
    TwoTo8();
    XorBitsUndo(a, b, 8);
  }

  function Bit(x: nat, k: nat): nat {
    x / Pow(2, k) % 2
  }

  lemma BitOfHalf(x: nat, k: nat)
    ensures Bit(x, k + 1) == Bit(x / 2, k)
  {
    var p := Pow(2, k);
    DivTwice(x, 2, p);
  }

  lemma Regroup(q: nat, b: nat, s: nat, a: nat)
    ensures (q * b + s) * a == q * (a * b) + s * a
  {
    MulAssociates(q, b, a);
  }

  lemma NonNegative(m: nat, n: nat)
    ensures m * n >= 0
  {
  }

  lemma Distribute(d: int, s: int, a: int)
    ensures a * (d + s + 1) == d * a + s * a + a
  {
  }

  lemma BelowProduct(s: nat, b: nat, t: nat, a: nat)
    requires s < b && t < a
    ensures 0 <= s * a + t < a * b
  {
    var d: nat := b - 1 - s;
    NonNegative(d, a);
    NonNegative(s, a);
    Distribute(d, s, a);
    assert d + s + 1 == b;
  }

  lemma DivTwice(x: nat, a: nat, b: nat)
    requires a > 0 && b > 0
    ensures a * b > 0 && x / (a * b) == x / a / b
  {
    var y, t := x / a, x % a;
    DivMod(x, a);
    DivMod(y, b);
    Regroup(y / b, b, y % b, a);
    BelowProduct(y % b, b, t, a);
    DivModUnique(x, a * b, y / b, y % b * a + t);
  }

  /** Bit by bit, exactly one of the two. */
  lemma {:induction false} XorBitIs(a: nat, b: nat, bits: nat, k: nat)
    requires k < bits
    ensures Bit(XorBits(a, b, bits), k) == if Bit(a, k) == Bit(b, k) then 0 else 1
  {
    var low, rest := (a % 2 + b % 2) % 2, XorBits(a / 2, b / 2, bits - 1);
    BitAndRest(XorBits(a, b, bits), low, rest);
    if k == 0 {
      assert Pow(2, 0) == 1;
    } else {
      hide Pow, XorBits, Bit;
      BitOfHalf(XorBits(a, b, bits), k - 1);
      BitOfHalf(a, k - 1);
      BitOfHalf(b, k - 1);
      XorBitIs(a / 2, b / 2, bits - 1, k - 1);
    }
  }

  lemma XorIsBitwise(a: Byte, b: Byte, k: nat)
    requires k < 8
    ensures Bit(Xor(a, b), k) == if Bit(a, k) == Bit(b, k) then 0 else 1
  {
    XorBitIs(a, b, 8, k);
  }

  lemma {:induction false} XorBitsWithZero(b: nat, bits: nat)
    requires b < Pow(2, bits)
    ensures XorBits(0, b, bits) == b
  {
    if bits > 0 {
      HalfBelow(b, bits);
      XorBitsWithZero(b / 2, bits - 1);
    }
  }

  lemma XorWithZero(b: Byte)
    ensures Xor(0, b) == b
  {
    TwoTo8();
    XorBitsWithZero(b, 8);
  }

  // ---- Inclusive or ----------------------------------------------------------------------------

  function BitOr(a: nat, b: nat): nat {
    if a == 0 && b == 0 then 0
    else (if a % 2 == 1 || b % 2 == 1 then 1 else 0) + 2 * BitOr(a / 2, b / 2)
  }

  /** Bit by bit, at least one of the two. */
  lemma {:induction false} BitOrIs(a: nat, b: nat, k: nat)
    ensures Bit(BitOr(a, b), k) == if Bit(a, k) == 0 && Bit(b, k) == 0 then 0 else 1
  {
    if a == 0 && b == 0 {
      assert 0 / Pow(2, k) == 0;
    } else {
      var low := if a % 2 == 1 || b % 2 == 1 then 1 else 0;
      BitAndRest(BitOr(a, b), low, BitOr(a / 2, b / 2));
      if k == 0 {
        assert Pow(2, 0) == 1;
      } else {
        hide Pow, BitOr, Bit;
        BitOfHalf(BitOr(a, b), k - 1);
        BitOfHalf(a, k - 1);
        BitOfHalf(b, k - 1);
        BitOrIs(a / 2, b / 2, k - 1);
      }
    }
  }

  lemma {:induction false} BitOrZero(a: nat, b: nat)
    ensures BitOr(a, b) == 0 <==> a == 0 && b == 0
  {
    if a != 0 || b != 0 { BitOrZero(a / 2, b / 2); }
  }

  lemma {:induction false} BitOrBelow(a: nat, b: nat, bits: nat)
    requires a < Pow(2, bits) && b < Pow(2, bits)
    ensures BitOr(a, b) < Pow(2, bits)
  {
    if bits > 0 { BitOrBelow(a / 2, b / 2, bits - 1); }
  }

  lemma {:induction false} BitOrNone(a: nat)
    ensures BitOr(a, 0) == a
  {
    if a != 0 { BitOrNone(a / 2); }
  }

  /** Or with the bits below a shifted number is addition. */
  lemma {:induction false} BitOrShifted(high: nat, low: nat, k: nat)
    requires low < Pow(2, k)
    ensures high * Pow(2, k) >= 0 && BitOr(high * Pow(2, k), low) == high * Pow(2, k) + low
  {
    if k == 0 {
      BitOrNone(high);
    } else {
      var half: nat := high * Pow(2, k - 1);
      assert high * Pow(2, k) == 2 * half by { MulAssociates(high, 2, Pow(2, k - 1)); }
      BitOrShifted(high, low / 2, k - 1);
      BitOrStep(half, low);
    }
  }

  lemma BitOrStep(half: nat, low: nat)
    ensures BitOr(2 * half, low) == low % 2 + 2 * BitOr(half, low / 2)
  {
  }
}
