/** Numbers as text: `toString(radix)`, `padStart`, `BigInt` and `parseInt`. */
module Numerals {
  import opened Base
  import opened Strings

  function DigitChar(d: int): char
    requires 0 <= d < 16
  {
    if d < 10 then '0' + d as char else 'a' + (d - 10) as char
  }

  /** Value of a digit, upper or lower case. */
  function DigitValue(c: char): Option<nat> {
    if '0' <= c <= '9' then Some((c - '0') as int)
    else if 'a' <= c <= 'f' then Some((c - 'a') as int + 10)
    else if 'A' <= c <= 'F' then Some((c - 'A') as int + 10)
    else None
  }

  predicate IsDigit(c: char, radix: nat) {
    DigitValue(c).Some? && DigitValue(c).value < radix
  }

  predicate AllDigits(s: string, radix: nat) {
    forall i :: 0 <= i < |s| ==> IsDigit(s[i], radix)
  }

  /** `n.toString(radix)` for n >= 0. */
  function Digits(n: nat, radix: nat): string
    requires 2 <= radix <= 16
  {
    if n < radix then [DigitChar(n)] else Digits(n / radix, radix) + [DigitChar(n % radix)]
  }

  /** The number a digit string spells. */
  function Spelled(s: string, radix: nat): nat
    requires AllDigits(s, radix)
  {
    if s == "" then 0 else Spelled(s[..|s| - 1], radix) * radix + DigitValue(s[|s| - 1]).value
  }

  lemma DigitCharIs(d: int, radix: nat)
    requires 0 <= d < radix <= 16
    ensures DigitValue(DigitChar(d)) == Some(d) && IsDigit(DigitChar(d), radix)
  {
  }

  lemma {:induction false} DigitsSpell(n: nat, radix: nat)
    requires 2 <= radix <= 16
    ensures Digits(n, radix) != "" && AllDigits(Digits(n, radix), radix)
    ensures Spelled(Digits(n, radix), radix) == n
  {
    if n < radix {
      DigitCharIs(n, radix);
      assert [DigitChar(n)][..0] == "";
    } else {
      DigitsSpell(n / radix, radix);
      DigitCharIs(n % radix, radix);
      DivMod(n, radix);
      SpelledAppend(Digits(n / radix, radix), DigitChar(n % radix), radix);
    }
  }

  lemma SpelledAppend(s: string, c: char, radix: nat)
    requires AllDigits(s, radix) && IsDigit(c, radix)
    ensures AllDigits(s + [c], radix) && Spelled(s + [c], radix) == Spelled(s, radix) * radix + DigitValue(c).value
  {
    assert (s + [c])[..|s|] == s;
  }

  lemma QuotientBelow(n: nat, d: nat, m: nat)
    requires d > 0 && n < d * m
    ensures n / d < m
  {
    DivMod(n, d);
    var q := n / d;
    assert q >= m ==> (q - m) * d >= 0;
  }

  /** A number below 16^k has at most k hex digits. */
  lemma {:induction false} DigitsLength(n: nat, k: nat)
    requires k > 0 && n < Pow(16, k)
    ensures |Digits(n, 16)| <= k
  {
    if n >= 16 {
      assert k > 1 by { assert Pow(16, 1) == 16; }
      DigitsLength(n / 16, k - 1);
    }
  }

  function Zeros(n: nat): string {
    seq(n, _ => '0')
  }

  /** `s.padStart(width, '0')`. */
  function PadStart(s: string, width: nat): string {
    if |s| >= width then s else Zeros(width - |s|) + s
  }

  lemma {:induction false} LeadingZeros(n: nat, s: string, radix: nat)
    requires AllDigits(s, radix) && radix >= 1
    ensures AllDigits(Zeros(n) + s, radix) && Spelled(Zeros(n) + s, radix) == Spelled(s, radix)
    decreases |s|, n
  {
    assert DigitValue('0') == Some(0);
    if s == "" {
      assert Zeros(n) + s == Zeros(n);
      if n > 0 {
        assert Zeros(n)[..n - 1] == Zeros(n - 1) == Zeros(n - 1) + "";
        LeadingZeros(n - 1, s, radix);
      }
    } else {
      var last := |s| - 1;
      assert (Zeros(n) + s)[..n + last] == Zeros(n) + s[..last];
      LeadingZeros(n, s[..last], radix);
    }
  }

  lemma PadStartSpells(s: string, width: nat, radix: nat)
    requires AllDigits(s, radix) && radix >= 1
    ensures AllDigits(PadStart(s, width), radix) && Spelled(PadStart(s, width), radix) == Spelled(s, radix)
    ensures |s| <= width ==> |PadStart(s, width)| == width
  {
    if |s| < width {
      LeadingZeros(width - |s|, s, radix);
    }
  }

  // ---- BigInt -----------------------------------------------------------------------------

  /** `n.toString()` of a BigInt or an integer Number. */
  function Decimal(n: int): string {
    if n < 0 then "-" + Digits(-n, 10) else Digits(n, 10)
  }

  /** The digits of `s` in the given radix, if it has any and nothing else. */
  function ParseDigits(s: string, radix: nat): Option<nat> {
    if s != "" && AllDigits(s, radix) then Some(Spelled(s, radix)) else None
  }

  function Negated(n: int): Option<int> {
    Some(-n)
  }

  /** `BigInt(s)`: blank is zero, a prefix selects the radix, decimal may carry a sign. */
  function ParseBigInt(s: string): Option<int> {
    var t := Trim(s);
    if t == "" then Some(0)
    else if |t| >= 2 && t[0] == '0' && t[1] in "xX" then ParseDigits(t[2..], 16)
    else if |t| >= 2 && t[0] == '0' && t[1] in "oO" then ParseDigits(t[2..], 8)
    else if |t| >= 2 && t[0] == '0' && t[1] in "bB" then ParseDigits(t[2..], 2)
    else if t[0] == '+' then ParseDigits(t[1..], 10)
    else if t[0] == '-' then
      var digits := ParseDigits(t[1..], 10);
      if digits.Some? then Negated(digits.value) else None
    else ParseDigits(t, 10)
  }

  lemma DigitIsNotSpace(c: char, radix: nat)
    requires IsDigit(c, radix)
    ensures !IsSpace(c) && c != '-' && c != '+' && c != 'x' && c != 'X' && c != 'o' && c != 'O'
    ensures radix <= 10 ==> c != 'b' && c != 'B'
  {
  }

  lemma DecimalDigits(digits: string)
    requires AllDigits(digits, 10) && digits != ""
    ensures ParseBigInt(digits) == Some(Spelled(digits, 10))
    ensures ParseBigInt("-" + digits) == Negated(Spelled(digits, 10))
  {
    forall i | 0 <= i < |digits| ensures !IsSpace(digits[i]) && digits[i] !in "-+xXoObB" {
      DigitIsNotSpace(digits[i], 10);
    }
    TrimKeeps(digits);
    TrimKeeps("-" + digits);
    assert ("-" + digits)[1..] == digits;
  }

  lemma BigIntRoundTrip(n: int)
    ensures ParseBigInt(Decimal(n)) == Some(n)
  {
    DigitsSpell(if n < 0 then -n else n, 10);
    DecimalDigits(Digits(if n < 0 then -n else n, 10));
  }
}
