/** Base64 text of a byte string, as the indexer stores notes and the scanner reads them. */
module Base64 {
  import opened Base
  import opened Bytes

  type Sextet = n: int | 0 <= n < 64

  function SextetChar(n: Sextet): char {
    if n < 26 then 'A' + n as char
    else if n < 52 then 'a' + (n - 26) as char
    else if n < 62 then '0' + (n - 52) as char
    else if n == 62 then '+' else '/'
  }

  function Encode(s: seq<Byte>): string {
    if s == [] then ""
    else if |s| == 1 then [SextetChar(s[0] / 4), SextetChar(s[0] % 4 * 16)] + "=="
    else if |s| == 2 then
      [SextetChar(s[0] / 4), SextetChar(s[0] % 4 * 16 + s[1] / 16), SextetChar(s[1] % 16 * 4)] + "="
    else
      [SextetChar(s[0] / 4), SextetChar(s[0] % 4 * 16 + s[1] / 16),
       SextetChar(s[1] % 16 * 4 + s[2] / 64), SextetChar(s[2] % 64)] + Encode(s[3..])
  }

  /** Both alphabets are read. */
  function CharSextet(c: char): Option<Sextet> {
    if 'A' <= c <= 'Z' then Some((c - 'A') as int)
    else if 'a' <= c <= 'z' then Some((c - 'a') as int + 26)
    else if '0' <= c <= '9' then Some((c - '0') as int + 52)
    else if c == '+' || c == '-' then Some(62)
    else if c == '/' || c == '_' then Some(63)
    else None
  }

  /** Characters outside the alphabet are skipped. */
  function Sextets(text: string): seq<Sextet> {
    if text == "" then []
    else if CharSextet(text[0]).None? then Sextets(text[1..])
    else [CharSextet(text[0]).value] + Sextets(text[1..])
  }

  /** Six bits and two. */
  function First(a: int, b: int): Byte
    requires 0 <= a < 64 && 0 <= b < 64
  {
    a * 4 + b / 16
  }

  /** Four bits and four. */
  function Second(b: int, c: int): Byte
    requires 0 <= b < 64 && 0 <= c < 64
  {
    b % 16 * 16 + c / 4
  }

  /** Two bits and six. */
  function Third(c: int, d: int): Byte
    requires 0 <= c < 64 && 0 <= d < 64
  {
    c % 4 * 64 + d
  }

  function Join(x: seq<Sextet>): seq<Byte> {
    if |x| < 2 then []
    else if |x| == 2 then [First(x[0], x[1])]
    else if |x| == 3 then [First(x[0], x[1]), Second(x[1], x[2])]
    else [First(x[0], x[1]), Second(x[1], x[2]), Third(x[2], x[3])] + Join(x[4..])
  }

  function Decode(text: string): seq<Byte> {
    Join(Sextets(text))
  }

  lemma CharRoundTrip(n: Sextet)
    ensures CharSextet(SextetChar(n)) == Some(n)
  {
  }

  lemma SextetsCons(n: Sextet, text: string)
    ensures Sextets([SextetChar(n)] + text) == [n] + Sextets(text)
  {
    CharRoundTrip(n);
  }

  lemma Two(a: Sextet, b: Sextet, text: string)
    ensures Sextets([SextetChar(a), SextetChar(b)] + text) == [a, b] + Sextets(text)
  {
    SextetsCons(b, text);
    SextetsCons(a, [SextetChar(b)] + text);
    assert [SextetChar(a), SextetChar(b)] + text == [SextetChar(a)] + ([SextetChar(b)] + text);
    assert [a, b] + Sextets(text) == [a] + ([b] + Sextets(text));
  }

  lemma Four(a: Sextet, b: Sextet, c: Sextet, d: Sextet, text: string)
    ensures Sextets([SextetChar(a), SextetChar(b), SextetChar(c), SextetChar(d)] + text) == [a, b, c, d] + Sextets(text)
  {
    var tail := [SextetChar(c), SextetChar(d)] + text;
    Two(c, d, text);
    Two(a, b, tail);
    assert [SextetChar(a), SextetChar(b), SextetChar(c), SextetChar(d)] + text == [SextetChar(a), SextetChar(b)] + tail;
    assert [a, b, c, d] + Sextets(text) == [a, b] + ([c, d] + Sextets(text));
  }

  lemma FirstBack(a: Byte, b: Byte)
    ensures First(a / 4, a % 4 * 16 + b / 16) == a
  {
  }

  lemma SecondBack(a: Byte, b: Byte, c: Byte)
    ensures Second(a % 4 * 16 + b / 16, b % 16 * 4 + c / 64) == b
  {
  }

  lemma OneByte(a: Byte)
    ensures Decode(Encode([a])) == [a]
  {
    Two(a / 4, a % 4 * 16, "==");
    assert Sextets("==") == Sextets("==" [1..]) == [];
    hide Sextets, SextetChar, First;
    FirstBack(a, 0);
  }

  lemma ThreeSextets(a: Sextet, b: Sextet, c: Sextet)
    ensures Sextets([SextetChar(a), SextetChar(b), SextetChar(c)] + "=") == [a, b, c]
  {
    assert Sextets("=") == [];
    SextetsCons(c, "=");
    Two(a, b, [SextetChar(c)] + "=");
    assert [SextetChar(a), SextetChar(b), SextetChar(c)] + "=" == [SextetChar(a), SextetChar(b)] + ([SextetChar(c)] + "=");
  }

  lemma TwoBytes(a: Byte, b: Byte)
    ensures Decode(Encode([a, b])) == [a, b]
  {
    hide Sextets, SextetChar, First, Second;
    ThreeSextets(a / 4, a % 4 * 16 + b / 16, b % 16 * 4);
    FirstBack(a, b);
    SecondBack(a, b, 0);
  }

  lemma ThirdBack(b: Byte, c: Byte)
    ensures Third(b % 16 * 4 + c / 64, c % 64) == c
  {
  }

  lemma ThreeBytes(a: Byte, b: Byte, c: Byte, tail: seq<Sextet>)
    ensures Join([a / 4, a % 4 * 16 + b / 16, b % 16 * 4 + c / 64, c % 64] + tail) == [a, b, c] + Join(tail)
  {
    var w, x, y, z: Sextet := a / 4, a % 4 * 16 + b / 16, b % 16 * 4 + c / 64, c % 64;
    FirstBack(a, b);
    SecondBack(a, b, c);
    ThirdBack(b, c);
    JoinFour(w, x, y, z, tail);
  }

  lemma JoinFour(w: Sextet, x: Sextet, y: Sextet, z: Sextet, tail: seq<Sextet>)
    ensures Join([w, x, y, z] + tail) == [First(w, x), Second(x, y), Third(y, z)] + Join(tail)
  {
    assert ([w, x, y, z] + tail)[4..] == tail;
  }

  /** Decoding undoes encoding, for every byte string. */
  lemma {:induction false} RoundTrip(s: seq<Byte>)
    ensures Decode(Encode(s)) == s
  {
    if |s| == 1 {
      OneByte(s[0]);
      assert s == [s[0]];
    } else if |s| == 2 {
      TwoBytes(s[0], s[1]);
      assert s == [s[0], s[1]];
    } else if |s| > 2 {
      hide Sextets, Join;
      RoundTrip(s[3..]);
      Four(s[0] / 4, s[0] % 4 * 16 + s[1] / 16, s[1] % 16 * 4 + s[2] / 64, s[2] % 64, Encode(s[3..]));
      ThreeBytes(s[0], s[1], s[2], Sextets(Encode(s[3..])));
      assert s == [s[0], s[1], s[2]] + s[3..];
    }
  }
}
