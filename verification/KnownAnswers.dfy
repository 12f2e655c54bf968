/** Fixed points of the encodings: what the standards and the language say of single values. */
module KnownAnswers {
  import opened Base
  import opened Bytes
  import opened Numerals
  import Base64
  import Json
  import Utf8

  /** Section 10 of RFC 4648: "f", "fo", "foo" and "foob". */
  lemma Base64Vectors()
    ensures Base64.Encode([0x66]) == "Zg==" && Base64.Encode([0x66, 0x6F]) == "Zm8="
    ensures Base64.Encode([0x66, 0x6F, 0x6F]) == "Zm9v" && Base64.Encode([0x66, 0x6F, 0x6F, 0x62]) == "Zm9vYg=="
  {
    assert Base64.Encode([0x66, 0x6F, 0x6F][3..]) == "";
    assert [0x66, 0x6F, 0x6F, 0x62][3..] == [0x62];
  }

  /** One character of each length, as section 3 of RFC 3629 lays them out. */
  lemma Utf8Vectors()
    ensures Utf8.EncodeChar('A') == [0x41] && Utf8.EncodeChar('\U{E9}') == [0xC3, 0xA9]
    ensures Utf8.EncodeChar('\U{20AC}') == [0xE2, 0x82, 0xAC] && Utf8.EncodeChar('\U{10348}') == [0xF0, 0x90, 0x8D, 0x88]
  {
  }

  lemma DecimalVectors()
    ensures Decimal(1207) == "1207" && Decimal(0) == "0" && Decimal(-35) == "-35"
  {
    assert Digits(1207, 10) == Digits(120, 10) + "7" && Digits(120, 10) == Digits(12, 10) + "0" && Digits(12, 10) == "1" + "2";
    assert Digits(35, 10) == "3" + "5";
  }

  lemma HexVectors()
    ensures ByteHex(0xAF) == "af" && ByteHex(7) == "07" && PairValue('A', 'f') == 0xAF
  {
    ByteHexIs(0xAF);
    ByteHexIs(7);
  }

  /** Section 7 of RFC 8259. */
  lemma JsonEscapes()
    ensures Json.EscapeChar('"') == "\\\"" && Json.EscapeChar('\\') == "\\\\" && Json.EscapeChar('\n') == "\\n"
    ensures Json.EscapeChar('\U{1F}') == "\\u001f" && Json.EscapeChar('x') == "x"
  {
  }
}
