/** JSON text as `JSON.stringify` writes it and `JSON.parse` reads it. */
module Json {
  import opened Base
  import opened Numerals

  datatype Value =
    | Null
    | Bool(b: bool)
    | Number(n: int)
    | Text(s: string)
    | Array(elements: seq<Value>)
    | Object(fields: seq<Field>)

  datatype Field = Field(name: string, value: Value)

  // ---- Writing ---------------------------------------------------------------------------------

  /** Quotes, backslashes and controls are escaped, everything else stands for itself. */
  function EscapeChar(c: char): string {
    if c == '"' then "\\\""
    else if c == '\\' then "\\\\"
    else if c == '\U{8}' then "\\b"
    else if c == '\t' then "\\t"
    else if c == '\n' then "\\n"
    else if c == '\U{C}' then "\\f"
    else if c == '\r' then "\\r"
    else if c < ' ' then "\\u00" + [DigitChar(c as int / 16), DigitChar(c as int % 16)]
    else [c]
  }

  function Escape(s: string): string {
    if s == "" then "" else EscapeChar(s[0]) + Escape(s[1..])
  }

  function Quote(s: string): string {
    "\"" + Escape(s) + "\""
  }

  function Print(v: Value): string
    decreases v, 1
  {
    match v
    case Null => "null"
    case Bool(b) => if b then "true" else "false"
    case Number(n) => Decimal(n)
    case Text(s) => Quote(s)
    case Array(elements) => if elements == [] then "[]" else "[" + PrintElements(elements) + "]"
    case Object(fields) => if fields == [] then "{}" else "{" + PrintFields(fields) + "}"
  }

  function PrintElements(elements: seq<Value>): string
    requires elements != []
    decreases elements, 0
  {
    if |elements| == 1 then Print(elements[0])
    else Print(elements[0]) + "," + PrintElements(elements[1..])
  }

  function PrintFields(fields: seq<Field>): string
    requires fields != []
    decreases fields, 0
  {
    var first := Quote(fields[0].name) + ":" + Print(fields[0].value);
    if |fields| == 1 then first else first + "," + PrintFields(fields[1..])
  }

  /** Neither a quote nor a backslash nor a control character. */
  predicate Plain(s: string) {
    forall i :: 0 <= i < |s| ==> s[i] >= ' ' && s[i] != '"' && s[i] != '\\'
  }

  lemma {:induction false} PlainIsNotEscaped(s: string)
    requires Plain(s)
    ensures Escape(s) == s && Quote(s) == "\"" + s + "\""
  {
    if s != "" {
      PlainIsNotEscaped(s[1..]);
      assert s == [s[0]] + s[1..];
    }
  }

  /** One member of an object's text. */
  function Member(name: string, text: string): string {
    "\"" + name + "\"" + ":" + text
  }

  lemma MemberText(fields: seq<Field>, k: nat)
    requires k < |fields| && Plain(fields[k].name)
    ensures PrintFields(fields[k..])
         == Member(fields[k].name, Print(fields[k].value)) + if k == |fields| - 1 then "" else "," + PrintFields(fields[k + 1..])
  {
    PlainIsNotEscaped(fields[k].name);
    assert fields[k..][0] == fields[k] && fields[k..][1..] == fields[k + 1..];
    if k < |fields| - 1 {
      Associates(Member(fields[k].name, Print(fields[k].value)), ",", PrintFields(fields[k + 1..]));
    }
  }

  // ---- Reading -----------------------------------------------------------------------------------

  datatype Parsed<T> = Failed | Parsed(value: T, rest: string)

  predicate IsBlank(c: char) { c == ' ' || c == '\t' || c == '\n' || c == '\r' }

  function SkipBlanks(s: string): (r: string)
    ensures |r| <= |s|
  {
    if s != "" && IsBlank(s[0]) then SkipBlanks(s[1..]) else s
  }

  /** Four hex digits as a character; surrogates are not characters here. */
  function UnicodeEscape(s: string): Parsed<char> {
    if |s| < 4 || !AllDigits(s[..4], 16) then Failed
    else
      var code := Spelled(s[..4], 16);
      if code < 0xD800 then Parsed(code as char, s[4..])
      else if 0xE000 <= code <= 0xFFFF then Parsed(code as char, s[4..])
      else Failed
  }

  /** The character after a backslash. */
  function Unescape(s: string): Parsed<char> {
    if s == "" then Failed
    else match s[0]
      case '"' => Parsed('"', s[1..])
      case '\\' => Parsed('\\', s[1..])
      case '/' => Parsed('/', s[1..])
      case 'b' => Parsed('\U{8}', s[1..])
      case 't' => Parsed('\t', s[1..])
      case 'n' => Parsed('\n', s[1..])
      case 'f' => Parsed('\U{C}', s[1..])
      case 'r' => Parsed('\r', s[1..])
      case 'u' => UnicodeEscape(s[1..])
      case _ => Failed
  }

  /** The rest of a string literal, after its opening quote. */
  function ReadString(s: string): (r: Parsed<string>)
    ensures r.Parsed? ==> |r.rest| < |s|
    decreases |s|
  {
    if s == "" || s[0] < ' ' then Failed
    else if s[0] == '"' then Parsed("", s[1..])
    else
      var first := if s[0] == '\\' then Unescape(s[1..]) else Parsed(s[0], s[1..]);
      if first.Failed? || |first.rest| >= |s| then Failed
      else
        var tail := ReadString(first.rest);
        if tail.Failed? then Failed else Parsed([first.value] + tail.value, tail.rest)
  }

  function DigitSpan(s: string): (n: nat)
    ensures n <= |s|
  {
    if s != "" && '0' <= s[0] <= '9' then 1 + DigitSpan(s[1..]) else 0
  }

  lemma {:induction false} SpanIsDigits(s: string)
    ensures AllDigits(s[..DigitSpan(s)], 10)
  {
    if s != "" && '0' <= s[0] <= '9' {
      SpanIsDigits(s[1..]);
      assert s[..DigitSpan(s)] == [s[0]] + s[1..][..DigitSpan(s[1..])];
    }
  }

  /** An integer without superfluous leading zeros. */
  function ReadNatural(s: string): (r: Parsed<nat>)
    ensures r.Parsed? ==> |r.rest| < |s|
  {
    var n := DigitSpan(s);
    SpanIsDigits(s);
    if n == 0 || (n > 1 && s[0] == '0') then Failed else Parsed(Spelled(s[..n], 10), s[n..])
  }

  function Signed(digits: Parsed<nat>, negative: bool): Parsed<int> {
    match digits
    case Failed => Failed
    case Parsed(n, rest) => var m: int := n; Parsed(if negative then -m else m, rest)
  }

  function ReadNumber(s: string): (r: Parsed<int>)
    ensures r.Parsed? ==> |r.rest| < |s|
  {
    if s != "" && s[0] == '-' then Signed(ReadNatural(s[1..]), true) else Signed(ReadNatural(s), false)
  }

  function ReadLiteral(word: string, value: Value, s: string): (r: Parsed<Value>)
    requires word != ""
    ensures r.Parsed? ==> |r.rest| < |s|
  {
    if word <= s then Parsed(value, s[|word|..]) else Failed
  }

  function ReadValue(text: string): (r: Parsed<Value>)
    ensures r.Parsed? ==> |r.rest| < |text|
    decreases |text|, 2
  {
    var s := SkipBlanks(text);
    if s == "" then Failed
    else if s[0] == 'n' then ReadLiteral("null", Null, s)
    else if s[0] == 't' then ReadLiteral("true", Bool(true), s)
    else if s[0] == 'f' then ReadLiteral("false", Bool(false), s)
    else if s[0] == '"' then
      var t := ReadString(s[1..]);
      if t.Failed? then Failed else Parsed(Text(t.value), t.rest)
    else if s[0] == '[' then
      var t := SkipBlanks(s[1..]);
      if t != "" && t[0] == ']' then Parsed(Array([]), t[1..])
      else
        var es := ReadElements(t);
        if es.Failed? then Failed else Parsed(Array(es.value), es.rest)
    else if s[0] == '{' then
      var t := SkipBlanks(s[1..]);
      if t != "" && t[0] == '}' then Parsed(Object([]), t[1..])
      else
        var fs := ReadFields(t);
        if fs.Failed? then Failed else Parsed(Object(fs.value), fs.rest)
    else
      var n := ReadNumber(s);
      if n.Failed? then Failed else Parsed(Number(n.value), n.rest)
  }

  /** One element or more, and the closing bracket. */
  function ReadElements(text: string): (r: Parsed<seq<Value>>)
    ensures r.Parsed? ==> |r.rest| < |text| && r.value != []
    decreases |text|, 3
  {
    var first := ReadValue(text);
    if first.Failed? then Failed
    else
      var s := SkipBlanks(first.rest);
      if s != "" && s[0] == ']' then Parsed([first.value], s[1..])
      else if s != "" && s[0] == ',' then
        var tail := ReadElements(s[1..]);
        if tail.Failed? then Failed else Parsed([first.value] + tail.value, tail.rest)
      else Failed
  }

  /** One field or more, and the closing brace. */
  function ReadFields(text: string): (r: Parsed<seq<Field>>)
    ensures r.Parsed? ==> |r.rest| < |text| && r.value != []
    decreases |text|, 3
  {
    var s := SkipBlanks(text);
    if s == "" || s[0] != '"' then Failed
    else
      var name := ReadString(s[1..]);
      if name.Failed? then Failed
      else
        var colon := SkipBlanks(name.rest);
        if colon == "" || colon[0] != ':' then Failed
        else
          var value := ReadValue(colon[1..]);
          if value.Failed? then Failed
          else
            var first := Field(name.value, value.value);
            var next := SkipBlanks(value.rest);
            if next != "" && next[0] == '}' then Parsed([first], next[1..])
            else if next != "" && next[0] == ',' then
              var tail := ReadFields(next[1..]);
              if tail.Failed? then Failed else Parsed([first] + tail.value, tail.rest)
            else Failed
  }

  /** `JSON.parse`: one value and nothing after it but blanks. */
  function Parse(text: string): Option<Value> {
    var r := ReadValue(text);
    if r.Parsed? && SkipBlanks(r.rest) == "" then Some(r.value) else None
  }

  /** Property access on a parsed object: the last field of that name. */
  function Lookup(fields: seq<Field>, name: string): Option<Value> {
    if fields == [] then None
    else if fields[|fields| - 1].name == name then Some(fields[|fields| - 1].value)
    else Lookup(fields[..|fields| - 1], name)
  }

  lemma {:induction false} LookupAt(fields: seq<Field>, k: nat)
    requires k < |fields| && forall j :: k < j < |fields| ==> fields[j].name != fields[k].name
    ensures Lookup(fields, fields[k].name) == Some(fields[k].value)
  {
    if k < |fields| - 1 {
      LookupAt(fields[..|fields| - 1], k);
    }
  }

  // ---- Reading undoes writing -----------------------------------------------------------------------

  lemma Associates(a: string, b: string, c: string)
    ensures a + b + c == a + (b + c)
  {
  }

  predicate IsControl(c: char) {
    c < ' ' && EscapeChar(c) == "\\u00" + [DigitChar(c as int / 16), DigitChar(c as int % 16)]
  }

  lemma SpelledByPair(high: int, low: int)
    requires 0 <= high < 16 && 0 <= low < 16
    ensures var s := ['0', '0', DigitChar(high), DigitChar(low)];
      AllDigits(s, 16) && Spelled(s, 16) == 16 * high + low
  {
    var h, l := DigitChar(high), DigitChar(low);
    DigitCharIs(high, 16);
    DigitCharIs(low, 16);
    SpelledAppend("", '0', 16);
    SpelledAppend(['0'], '0', 16);
    SpelledAppend(['0', '0'], h, 16);
    SpelledAppend(['0', '0', h], l, 16);
    assert "" + ['0'] == ['0'] && ['0'] + ['0'] == ['0', '0'] && ['0', '0'] + [h] == ['0', '0', h];
    assert ['0', '0', h] + [l] == ['0', '0', h, l];
  }

  lemma ReadFourDigits(c: char, rest: string)
    requires c < ' '
    ensures UnicodeEscape(['0', '0', DigitChar(c as int / 16), DigitChar(c as int % 16)] + rest) == Parsed(c, rest)
  {
    var digits := ['0', '0', DigitChar(c as int / 16), DigitChar(c as int % 16)];
    SpelledByPair(c as int / 16, c as int % 16);
    assert (digits + rest)[..4] == digits && (digits + rest)[4..] == rest;
  }

  lemma UnescapeControl(c: char, rest: string)
    requires IsControl(c)
    ensures var s := EscapeChar(c) + rest; s[0] == '\\' && Unescape(s[1..]) == Parsed(c, rest)
  {
    var s, digits := EscapeChar(c) + rest, ['0', '0', DigitChar(c as int / 16), DigitChar(c as int % 16)] + rest;
    assert s[1..] == ['u'] + digits;
    assert s[1..][1..] == digits;
    ReadFourDigits(c, rest);
  }

  lemma UnescapePair(c: char, rest: string)
    requires EscapeChar(c)[0] == '\\' && !IsControl(c)
    ensures var s := EscapeChar(c) + rest; s[0] == '\\' && Unescape(s[1..]) == Parsed(c, rest)
  {
    var s := EscapeChar(c) + rest;
    assert s[1..] == [EscapeChar(c)[1]] + rest;
    assert s[1..][1..] == rest;
  }

  /** One round of the string reader. */
  lemma ReadStringStep(s: string, c: char, rest: string)
    requires |rest| < |s| && ReadString(rest).Parsed?
    requires if s[0] == '\\' then Unescape(s[1..]) == Parsed(c, rest) else s == [c] + rest && c >= ' ' && c != '"'
    ensures ReadString(s) == Parsed([c] + ReadString(rest).value, ReadString(rest).rest)
  {
    if s[0] != '\\' {
      assert s[1..] == rest;
    }
  }

  lemma ReadEscapedChar(c: char, rest: string)
    requires ReadString(rest).Parsed?
    ensures ReadString(EscapeChar(c) + rest) == Parsed([c] + ReadString(rest).value, ReadString(rest).rest)
  {
    if IsControl(c) {
      UnescapeControl(c, rest);
    } else if EscapeChar(c)[0] == '\\' {
      UnescapePair(c, rest);
    }
    ReadStringStep(EscapeChar(c) + rest, c, rest);
  }

  /** A string literal's contents and closing quote, and what follows. */
  function Closed(s: string, rest: string): string {
    Escape(s) + "\"" + rest
  }

  lemma ClosedCons(s: string, rest: string)
    requires s != ""
    ensures Closed(s, rest) == EscapeChar(s[0]) + Closed(s[1..], rest)
  {
    Associates(EscapeChar(s[0]), Escape(s[1..]), "\"");
    Associates(EscapeChar(s[0]), Escape(s[1..]) + "\"", rest);
  }

  lemma {:induction false} ReadEscaped(s: string, rest: string)
    ensures ReadString(Closed(s, rest)) == Parsed(s, rest)
  {
    if s == "" {
      assert Closed(s, rest) == "\"" + rest;
      assert ("\"" + rest)[1..] == rest;
    } else {
      ReadEscaped(s[1..], rest);
      ReadEscapedChar(s[0], Closed(s[1..], rest));
      ClosedCons(s, rest);
      assert [s[0]] + s[1..] == s;
    }
  }

  /** The text cannot continue a number. */
  predicate Boundary(rest: string) {
    rest == "" || !('0' <= rest[0] <= '9')
  }

  lemma {:induction false} SpanStops(digits: string, rest: string)
    requires AllDigits(digits, 10) && Boundary(rest)
    ensures DigitSpan(digits + rest) == |digits|
  {
    if digits == "" {
      assert digits + rest == rest;
    } else {
      assert IsDigit(digits[0], 10);
      assert (digits + rest)[1..] == digits[1..] + rest;
      SpanStops(digits[1..], rest);
    }
  }

  lemma {:induction false} NoLeadingZero(n: nat)
    ensures Digits(n, 10) != "" && (|Digits(n, 10)| > 1 ==> Digits(n, 10)[0] != '0')
    ensures n > 0 ==> Digits(n, 10)[0] != '0'
  {
    if n >= 10 {
      NoLeadingZero(n / 10);
    }
  }

  lemma ReadDigits(n: nat, rest: string)
    requires Boundary(rest)
    ensures ReadNatural(Digits(n, 10) + rest) == Parsed(n, rest)
  {
    var digits := Digits(n, 10);
    DigitsSpell(n, 10);
    NoLeadingZero(n);
    SpanStops(digits, rest);
    assert (digits + rest)[..|digits|] == digits && (digits + rest)[|digits|..] == rest;
  }

  lemma DecimalStarts(n: int)
    ensures Decimal(n) != "" && (n < 0 ==> Decimal(n)[0] == '-') && (n >= 0 ==> '0' <= Decimal(n)[0] <= '9')
  {
    DigitsSpell(if n < 0 then -n else n, 10);
    if n >= 0 {
      assert IsDigit(Digits(n, 10)[0], 10);
    }
  }

  lemma ReadMinus(digits: string, n: nat, rest: string)
    requires ReadNatural(digits) == Parsed(n, rest)
    ensures ReadNumber("-" + digits) == Signed(Parsed(n, rest), true)
  {
    assert ("-" + digits)[1..] == digits;
  }

  lemma ReadDecimal(n: int, rest: string)
    requires Boundary(rest)
    ensures ReadNumber(Decimal(n) + rest) == Parsed(n, rest)
  {
    if n < 0 {
      ReadDigits(-n, rest);
      ReadMinus(Digits(-n, 10) + rest, -n, rest);
      Associates("-", Digits(-n, 10), rest);
    } else {
      DecimalStarts(n);
      ReadDigits(n, rest);
    }
  }

  /** What Print starts with selects the reader it needs, and is not a blank. */
  lemma PrintStarts(v: Value)
    ensures Print(v) != "" && !IsBlank(Print(v)[0])
    ensures Print(v)[0] != ']' && Print(v)[0] != '}'
  {
    if v.Number? {
      DecimalStarts(v.n);
    }
  }

  lemma ReadQuoted(s: string, rest: string)
    ensures Quote(s) + rest == "\"" + Closed(s, rest)
    ensures ReadString(Closed(s, rest)) == Parsed(s, rest)
  {
    ReadEscaped(s, rest);
  }

  // One step of the readers, on text that starts the way writers start it.

  lemma ReadValueText(s: string, rest: string)
    ensures ReadValue(Quote(s) + rest) == Parsed(Text(s), rest)
  {
    ReadQuoted(s, rest);
    assert ("\"" + Closed(s, rest))[1..] == Closed(s, rest);
  }

  lemma ReadValueNumber(n: int, rest: string)
    requires Boundary(rest)
    ensures ReadValue(Decimal(n) + rest) == Parsed(Number(n), rest)
  {
    DecimalStarts(n);
    ReadDecimal(n, rest);
  }

  lemma ReadValueArray(inner: string, elements: seq<Value>, rest: string)
    requires inner != "" && !IsBlank(inner[0]) && inner[0] != ']'
    requires ReadElements(inner) == Parsed(elements, rest)
    ensures ReadValue("[" + inner) == Parsed(Array(elements), rest)
  {
    assert ("[" + inner)[1..] == inner;
  }

  lemma ReadValueObject(inner: string, fields: seq<Field>, rest: string)
    requires inner != "" && inner[0] == '"'
    requires ReadFields(inner) == Parsed(fields, rest)
    ensures ReadValue("{" + inner) == Parsed(Object(fields), rest)
  {
    assert ("{" + inner)[1..] == inner;
  }

  lemma ReadValueConstant(v: Value, rest: string)
    requires v.Null? || v.Bool? || v == Array([]) || v == Object([])
    ensures ReadValue(Print(v) + rest) == Parsed(v, rest)
  {
    var text := Print(v) + rest;
    assert text[|Print(v)|..] == rest;
    if v.Array? || v.Object? {
      assert text[1..][1..] == rest;
    }
  }

  lemma ReadLastElement(text: string, v: Value, rest: string)
    requires ReadValue(text) == Parsed(v, "]" + rest)
    ensures ReadElements(text) == Parsed([v], rest)
  {
    assert ("]" + rest)[1..] == rest;
  }

  lemma ReadNextElement(text: string, v: Value, tail: string, elements: seq<Value>, rest: string)
    requires ReadValue(text) == Parsed(v, "," + tail) && ReadElements(tail) == Parsed(elements, rest)
    ensures ReadElements(text) == Parsed([v] + elements, rest)
  {
    assert ("," + tail)[1..] == tail;
  }

  lemma ReadLastField(f: Field, after: string, rest: string)
    requires ReadValue(after) == Parsed(f.value, "}" + rest)
    ensures ReadFields(Quote(f.name) + ":" + after) == Parsed([f], rest)
  {
    ReadFieldHead(f.name, after);
    assert ("}" + rest)[1..] == rest;
  }

  lemma ReadNextField(f: Field, after: string, tail: string, fields: seq<Field>, rest: string)
    requires ReadValue(after) == Parsed(f.value, "," + tail) && ReadFields(tail) == Parsed(fields, rest)
    ensures ReadFields(Quote(f.name) + ":" + after) == Parsed([f] + fields, rest)
  {
    ReadFieldHead(f.name, after);
    assert ("," + tail)[1..] == tail;
  }

  lemma ReadFieldHead(name: string, after: string)
    ensures var text := Quote(name) + ":" + after;
      && text != "" && text[0] == '"' && ReadString(text[1..]) == Parsed(name, ":" + after)
      && (":" + after)[1..] == after
  {
    ReadQuoted(name, ":" + after);
    assert Quote(name) + ":" + after == "\"" + Closed(name, ":" + after);
  }

  lemma Regroup(a: string, b: string, c: string, d: string, rest: string)
    ensures a + b + c + d + rest == a + (b + (c + d + rest))
  {
  }

  lemma ElementsText(elements: seq<Value>, rest: string)
    requires elements != []
    ensures var text := PrintElements(elements) + "]" + rest;
      text == Print(elements[0]) +
        if |elements| == 1 then "]" + rest else "," + (PrintElements(elements[1..]) + "]" + rest)
  {
    if |elements| > 1 {
      Regroup(Print(elements[0]), ",", PrintElements(elements[1..]), "]", rest);
    }
  }

  lemma FieldsText(fields: seq<Field>, rest: string)
    requires fields != []
    ensures var text := PrintFields(fields) + "}" + rest;
      text == Quote(fields[0].name) + ":" + (Print(fields[0].value) +
        if |fields| == 1 then "}" + rest else "," + (PrintFields(fields[1..]) + "}" + rest))
  {
    var name, value := Quote(fields[0].name) + ":", Print(fields[0].value);
    if |fields| > 1 {
      Regroup(name + value, ",", PrintFields(fields[1..]), "}", rest);
      Associates(name, value, "," + (PrintFields(fields[1..]) + "}" + rest));
    } else {
      Associates(name, value, "}" + rest);
      Associates(name + value, "}", rest);
    }
  }

  lemma ArrayText(elements: seq<Value>, rest: string)
    requires elements != []
    ensures Print(Array(elements)) + rest == "[" + (PrintElements(elements) + "]" + rest)
  {
  }

  lemma ObjectText(fields: seq<Field>, rest: string)
    requires fields != []
    ensures Print(Object(fields)) + rest == "{" + (PrintFields(fields) + "}" + rest)
  {
  }

  lemma {:induction false} ReadPrinted(v: Value, rest: string)
    requires v.Number? ==> Boundary(rest)
    ensures ReadValue(Print(v) + rest) == Parsed(v, rest)
    decreases v, 1
  {
    if v.Null? || v.Bool? || v == Array([]) || v == Object([]) {
      ReadValueConstant(v, rest);
    } else if v.Number? {
      ReadValueNumber(v.n, rest);
    } else if v.Text? {
      ReadValueText(v.s, rest);
    } else if v.Array? {
      ReadPrintedElements(v.elements, rest);
      ReadValueArray(PrintElements(v.elements) + "]" + rest, v.elements, rest);
      ArrayText(v.elements, rest);
    } else {
      ReadPrintedFields(v.fields, rest);
      ReadValueObject(PrintFields(v.fields) + "}" + rest, v.fields, rest);
      ObjectText(v.fields, rest);
    }
  }

  lemma ElementsStart(elements: seq<Value>, rest: string)
    requires elements != []
    ensures var text := PrintElements(elements) + "]" + rest;
      text != "" && !IsBlank(text[0]) && text[0] != ']'
  {
    PrintStarts(elements[0]);
    ElementsText(elements, rest);
  }

  lemma {:induction false} ReadPrintedElements(elements: seq<Value>, rest: string)
    requires elements != []
    ensures ReadElements(PrintElements(elements) + "]" + rest) == Parsed(elements, rest)
    ensures var text := PrintElements(elements) + "]" + rest;
      text != "" && !IsBlank(text[0]) && text[0] != ']'
    decreases elements, 0
  {
    ElementsStart(elements, rest);
    ElementsText(elements, rest);
    var first := Print(elements[0]);
    if |elements| == 1 {
      ReadPrinted(elements[0], "]" + rest);
      ReadLastElement(first + ("]" + rest), elements[0], rest);
      assert elements == [elements[0]];
    } else {
      var tail := PrintElements(elements[1..]) + "]" + rest;
      ReadPrinted(elements[0], "," + tail);
      ReadPrintedElements(elements[1..], rest);
      ReadNextElement(first + ("," + tail), elements[0], tail, elements[1..], rest);
      assert elements == [elements[0]] + elements[1..];
    }
  }

  lemma {:induction false} ReadPrintedFields(fields: seq<Field>, rest: string)
    requires fields != []
    ensures var text := PrintFields(fields) + "}" + rest;
      ReadFields(text) == Parsed(fields, rest) && text != "" && text[0] == '"'
    decreases fields, 0
  {
    var f := fields[0];
    FieldsText(fields, rest);
    if |fields| == 1 {
      var after := Print(f.value) + ("}" + rest);
      ReadPrinted(f.value, "}" + rest);
      ReadLastField(f, after, rest);
      assert fields == [f];
    } else {
      var tail := PrintFields(fields[1..]) + "}" + rest;
      var after := Print(f.value) + ("," + tail);
      ReadPrinted(f.value, "," + tail);
      ReadPrintedFields(fields[1..], rest);
      ReadNextField(f, after, tail, fields[1..], rest);
      assert fields == [f] + fields[1..];
    }
  }

  /** `JSON.parse` undoes `JSON.stringify`. */
  lemma RoundTrip(v: Value)
    ensures Parse(Print(v)) == Some(v)
  {
    ReadPrinted(v, "");
    assert Print(v) + "" == Print(v);
  }
}
