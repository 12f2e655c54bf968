/** TextEncoder and TextDecoder. */
module Utf8 {
  import opened Base
  import opened Bytes

  function EncodeChar(c: char): seq<Byte> {
    var code := c as int;
    if code < 0x80 then [code]
    else if code < 0x800 then [0xC0 + code / 64, 0x80 + code % 64]
    else if code < 0x1_0000 then [0xE0 + code / 4096, 0x80 + code / 64 % 64, 0x80 + code % 64]
    else [0xF0 + code / 262144, 0x80 + code / 4096 % 64, 0x80 + code / 64 % 64, 0x80 + code % 64]
  }

  function Encode(s: string): seq<Byte> {
    if s == "" then [] else EncodeChar(s[0]) + Encode(s[1..])
  }

  predicate IsTail(b: Byte) { 0x80 <= b < 0xC0 }

  predicate IsScalar(code: int) { 0 <= code < 0xD800 || 0xE000 <= code < 0x11_0000 }

  /** What a byte carries beside its marker. */
  function Payload(b: Byte, marker: int): int {
    var n: int := b;
    n - marker
  }

  datatype Decoded = Malformed | Decoded(c: char, size: nat)

  function Scalar(code: int, least: int, size: nat): Decoded {
    if IsScalar(code) && code >= least then Decoded(code as char, size) else Malformed
  }

  /** The first character; overlong forms, surrogates and stray bytes are malformed. */
  function DecodeChar(s: seq<Byte>): (r: Decoded)
    requires s != []
    ensures r.Decoded? ==> 1 <= r.size <= |s|
  {
    if s[0] < 0x80 then Decoded(s[0] as char, 1)
    else if 0xC0 <= s[0] < 0xE0 && |s| >= 2 && IsTail(s[1]) then
      Scalar(Payload(s[0], 0xC0) * 64 + Payload(s[1], 0x80), 0x80, 2)
    else if 0xE0 <= s[0] < 0xF0 && |s| >= 3 && IsTail(s[1]) && IsTail(s[2]) then
      Scalar(Payload(s[0], 0xE0) * 4096 + Payload(s[1], 0x80) * 64 + Payload(s[2], 0x80), 0x800, 3)
    else if 0xF0 <= s[0] < 0xF8 && |s| >= 4 && IsTail(s[1]) && IsTail(s[2]) && IsTail(s[3]) then
      Scalar(Payload(s[0], 0xF0) * 262144 + Payload(s[1], 0x80) * 4096 + Payload(s[2], 0x80) * 64 + Payload(s[3], 0x80), 0x1_0000, 4)
    else Malformed
  }

  function DecodeAll(s: seq<Byte>): Option<string> {
    if s == [] then Some("")
    else
      var first := DecodeChar(s);
      if first.Malformed? then None
      else
        var tail := DecodeAll(s[first.size..]);
        if tail.None? then None else Some([first.c] + tail.value)
  }

  const BYTE_ORDER_MARK: seq<Byte> := [0xEF, 0xBB, 0xBF]

  /** The decoder drops a leading byte order mark. */
  function Decode(s: seq<Byte>): Option<string> {
    if BYTE_ORDER_MARK <= s then DecodeAll(s[3..]) else DecodeAll(s)
  }

  /** A code in groups of six bits. */
  lemma SixBits(code: nat)
    ensures code == code / 64 * 64 + code % 64
    ensures code / 64 == code / 4096 * 64 + code / 64 % 64
    ensures code / 4096 == code / 262144 * 64 + code / 4096 % 64
  {
  }

  lemma DecodeEncodedChar(c: char, rest: seq<Byte>)
    ensures EncodeChar(c) != []
    ensures DecodeChar(EncodeChar(c) + rest) == Decoded(c, |EncodeChar(c)|)
  {
    SixBits(c as int);
  }

  lemma {:induction false} DecodeAllEncoded(s: string)
    ensures DecodeAll(Encode(s)) == Some(s)
  {
    if s != "" {
      var head, tail := EncodeChar(s[0]), Encode(s[1..]);
      DecodeEncodedChar(s[0], tail);
      DecodeAllEncoded(s[1..]);
      assert (head + tail)[|head|..] == tail;
      assert s == [s[0]] + s[1..];
    }
  }

  lemma MarkIsDropped(s: string)
    requires s != "" && s[0] == '\U{FEFF}'
    ensures Decode(Encode(s)) == Some(s[1..])
  {
    var tail := Encode(s[1..]);
    assert EncodeChar(s[0]) == BYTE_ORDER_MARK;
    assert (BYTE_ORDER_MARK + tail)[3..] == tail;
    DecodeAllEncoded(s[1..]);
  }

  lemma MarkIsOneChar(c: char, tail: seq<Byte>)
    requires BYTE_ORDER_MARK <= EncodeChar(c) + tail
    ensures c == '\U{FEFF}'
  {
    var s := EncodeChar(c) + tail;
    assert s[0] == 0xEF && s[1] == 0xBB && s[2] == 0xBF;
    DecodeEncodedChar(c, tail);
  }

  /** Decoding undoes encoding exactly for text that does not start with a byte order mark. */
  lemma RoundTripIff(s: string)
    ensures Decode(Encode(s)) == Some(s) <==> s == "" || s[0] != '\U{FEFF}'
  {
    DecodeAllEncoded(s);
    if s != "" && s[0] == '\U{FEFF}' {
      MarkIsDropped(s);
      assert |s[1..]| != |s|;
    } else if s != "" && BYTE_ORDER_MARK <= Encode(s) {
      MarkIsOneChar(s[0], Encode(s[1..]));
    }
  }
}
