/** Names of the registry: their validation and their packing into field elements. */
module NamePacking {
  import opened Base
  import opened Bytes
  import opened Strings
  import Utf8

  // ---- Chunks ---------------------------------------------------------------------------------------

  /** Size of the first chunk. */
  function Take(s: seq<Byte>): nat {
    if |s| > 31 then 31 else |s|
  }

  /** 31 bytes a chunk, least significant byte first. */
  function Chunks(s: seq<Byte>): seq<nat> {
    if s == [] then [] else [LittleEndianValue(s[..Take(s)])] + Chunks(s[Take(s)..])
  }

  lemma {:induction false} PowOfByte(j: nat)
    ensures Pow(256, j) == Pow(2, 8 * j)
  {
    if j > 0 {
      PowOfByte(j - 1);
      TwoTo8();
      PowAdd(2, 8, 8 * (j - 1));
    }
  }

  lemma {:induction false} LittleEndianAppend(s: seq<Byte>, b: Byte)
    ensures LittleEndianValue(s + [b]) == LittleEndianValue(s) + b * Pow(256, |s|)
  {
    if s == [] {
      assert [] + [b] == [b] && [b][1..] == [];
    } else {
      assert (s + [b])[0] == s[0] && (s + [b])[1..] == s[1..] + [b];
      LittleEndianAppend(s[1..], b);
      MulAssociates(b, 256, Pow(256, |s| - 1));
      assert |s[1..]| == |s| - 1;
    }
  }

  lemma {:induction false} BitOrCommutes(a: nat, b: nat)
    ensures BitOr(a, b) == BitOr(b, a)
  {
    if a != 0 || b != 0 { BitOrCommutes(a / 2, b / 2); }
  }

  /** One round of the inner loop: the shifted or adds the next base-256 digit. */
  lemma PackByte(packed: seq<Byte>, b: Byte)
    ensures b * Pow(2, 8 * |packed|) >= 0
    ensures BitOr(LittleEndianValue(packed), b * Pow(2, 8 * |packed|)) == LittleEndianValue(packed + [b])
  {
    LittleEndianBelow(packed);
    PowOfByte(|packed|);
    BitOrShifted(b, LittleEndianValue(packed), 8 * |packed|);
    BitOrCommutes(LittleEndianValue(packed), b * Pow(2, 8 * |packed|));
    LittleEndianAppend(packed, b);
  }

  method PackChunk(bytes: seq<Byte>, i: nat) returns (val: nat)
    requires i < |bytes|
    ensures val == LittleEndianValue(bytes[i..][..Take(bytes[i..])])
  {
    val := 0;
    var j := 0;
    while j < 31 && i + j < |bytes|
      invariant 0 <= j <= 31 && i + j <= |bytes|
      invariant val == LittleEndianValue(bytes[i..][..j])
    {
      PackByte(bytes[i..][..j], bytes[i + j]);
      assert bytes[i..][..j + 1] == bytes[i..][..j] + [bytes[i + j]];
      val := BitOr(val, bytes[i + j] * Pow(2, 8 * j));
      j := j + 1;
    }
  }

  method Pack(bytes: seq<Byte>) returns (chunks: seq<nat>)
    ensures chunks == Chunks(bytes)
  {
    chunks := [];
    var i := 0;
    assert bytes[0..] == bytes;
    while i < |bytes|
      invariant 0 <= i
      invariant chunks + Chunks(bytes[AtMost(i, |bytes|)..]) == Chunks(bytes)
    {
      var val := PackChunk(bytes, i);
      chunks := chunks + [val];
      assert bytes[i..][Take(bytes[i..])..] == bytes[AtMost(i + 31, |bytes|)..];
      i := i + 31;
    }
  }

  /** A chunk has at most 31 bytes, so it is below 2^248 and fits the field. */
  lemma {:induction false} ChunksFit(s: seq<Byte>, width: nat)
    requires width >= 31
    ensures forall k :: 0 <= k < |Chunks(s)| ==> Chunks(s)[k] < Pow(2, 8 * width)
  {
    if s != [] {
      ChunksFit(s[Take(s)..], width);
      LittleEndianBelow(s[..Take(s)]);
      PowMonotone(Take(s), width);
      PowOfByte(width);
    }
  }

  lemma {:induction false} PowMonotone(m: nat, n: nat)
    requires m <= n
    ensures Pow(256, m) <= Pow(256, n)
  {
    if m < n { PowMonotone(m, n - 1); }
  }

  // ---- Equal chunks ------------------------------------------------------------------------------------

  function StripZeros(s: seq<Byte>): seq<Byte> {
    if s != [] && s[|s| - 1] == 0 then StripZeros(s[..|s| - 1]) else s
  }

  lemma {:induction false} StripKeepsValue(s: seq<Byte>)
    ensures LittleEndianValue(StripZeros(s)) == LittleEndianValue(s)
    ensures |StripZeros(s)| <= |s| && (StripZeros(s) != [] ==> StripZeros(s)[|StripZeros(s)| - 1] != 0)
  {
    if s != [] && s[|s| - 1] == 0 {
      StripKeepsValue(s[..|s| - 1]);
      LittleEndianAppend(s[..|s| - 1], 0);
      assert s == s[..|s| - 1] + [0];
    }
  }

  lemma LeadingByteCounts(s: seq<Byte>)
    requires s != [] && s[|s| - 1] != 0
    ensures LittleEndianValue(s) >= Pow(256, |s| - 1)
  {
    var last := |s| - 1;
    LittleEndianAppend(s[..last], s[last]);
    assert s == s[..last] + [s[last]];
    MulAtLeast(s[last], Pow(256, last));
  }

  lemma LengthFromValue(s: seq<Byte>, t: seq<Byte>)
    requires t != [] && t[|t| - 1] != 0 && |s| < |t|
    ensures LittleEndianValue(s) < LittleEndianValue(t)
  {
    LittleEndianBelow(s);
    LeadingByteCounts(t);
    PowMonotone(|s|, |t| - 1);
  }

  /** Numbers tell byte strings apart up to the zeros at their ends. */
  lemma ValuesEqualIff(s: seq<Byte>, t: seq<Byte>)
    ensures LittleEndianValue(s) == LittleEndianValue(t) <==> StripZeros(s) == StripZeros(t)
  {
    StripKeepsValue(s);
    StripKeepsValue(t);
    var x, y := StripZeros(s), StripZeros(t);
    if LittleEndianValue(x) == LittleEndianValue(y) {
      if |x| < |y| {
        LengthFromValue(x, y);
      } else if |y| < |x| {
        LengthFromValue(y, x);
      } else {
        LittleEndianBelow(x);
        LittleEndianBelow(y);
      }
    }
  }

  lemma {:induction false} StripConcat(x: seq<Byte>, s: seq<Byte>)
    ensures StripZeros(x + s) == if StripZeros(s) == [] then StripZeros(x) else x + StripZeros(s)
  {
    if s == [] {
      assert x + s == x;
    } else if s[|s| - 1] == 0 {
      assert (x + s)[..|x + s| - 1] == x + s[..|s| - 1];
      StripConcat(x, s[..|s| - 1]);
    }
  }

  lemma LongSplit(s: seq<Byte>)
    requires |s| > 31
    ensures Chunks(s) == [LittleEndianValue(s[..31])] + Chunks(s[31..]) && Chunks(s[31..]) != []
    ensures StripZeros(s) == if StripZeros(s[31..]) == [] then StripZeros(s[..31]) else s[..31] + StripZeros(s[31..])
  {
    assert s == s[..31] + s[31..];
    StripConcat(s[..31], s[31..]);
  }

  lemma ShortChunks(s: seq<Byte>)
    requires 0 < |s| <= 31
    ensures Chunks(s) == [LittleEndianValue(s)]
  {
    assert s[..|s|] == s && s[|s|..] == [];
  }

  lemma JoinsEqualIff(p: seq<Byte>, x: seq<Byte>, q: seq<Byte>, y: seq<Byte>)
    requires |p| == |q|
    ensures p + x == q + y <==> p == q && x == y
  {
    if p + x == q + y {
      assert p == (p + x)[..|p|] && q == (q + y)[..|q|] && x == (p + x)[|p|..] && y == (q + y)[|q|..];
    }
  }

  lemma SameLengthStrips(p: seq<Byte>, q: seq<Byte>)
    requires |p| == |q|
    ensures StripZeros(p) == StripZeros(q) <==> p == q
  {
    ValuesEqualIff(p, q);
    LittleEndianBelow(p);
    LittleEndianBelow(q);
  }

  lemma LongStripsEqualIff(a: seq<Byte>, b: seq<Byte>)
    requires |a| > 31 && |b| > 31
    ensures StripZeros(a) == StripZeros(b) <==> a[..31] == b[..31] && StripZeros(a[31..]) == StripZeros(b[31..])
  {
    LongSplit(a);
    LongSplit(b);
    var p, q, x, y := a[..31], b[..31], StripZeros(a[31..]), StripZeros(b[31..]);
    StripKeepsValue(p);
    StripKeepsValue(q);
    SameLengthStrips(p, q);
    JoinsEqualIff(p, x, q, y);
    if x == [] && y != [] {
      assert |StripZeros(a)| < |StripZeros(b)|;
    } else if x != [] && y == [] {
      assert |StripZeros(b)| < |StripZeros(a)|;
    }
  }

  lemma LongChunksEqualIff(a: seq<Byte>, b: seq<Byte>)
    requires |a| > 31 && |b| > 31
    ensures Chunks(a) == Chunks(b) <==> a[..31] == b[..31] && Chunks(a[31..]) == Chunks(b[31..])
  {
    LongSplit(a);
    LongSplit(b);
    var p, q := a[..31], b[..31];
    ValuesEqualIff(p, q);
    SameLengthStrips(p, q);
    assert Chunks(a)[1..] == Chunks(a[31..]) && Chunks(b)[1..] == Chunks(b[31..]);
  }

  lemma {:induction false} ChunkCount(s: seq<Byte>)
    ensures |Chunks(s)| == (|s| + 30) / 31
  {
    if s != [] { ChunkCount(s[Take(s)..]); }
  }

  /** Two byte strings give the hash the same inputs exactly when they need as many chunks and differ
      only in zeros at the end. */
  lemma {:induction false} ChunksEqualIff(a: seq<Byte>, b: seq<Byte>)
    ensures Chunks(a) == Chunks(b) <==> (|a| + 30) / 31 == (|b| + 30) / 31 && StripZeros(a) == StripZeros(b)
  {
    hide Chunks, StripZeros;
    ChunkCount(a);
    ChunkCount(b);
    if |a| > 31 && |b| > 31 {
      ChunksEqualIff(a[31..], b[31..]);
      LongChunksEqualIff(a, b);
      LongStripsEqualIff(a, b);
    } else if 0 < |a| <= 31 && 0 < |b| <= 31 {
      ShortChunks(a);
      ShortChunks(b);
      ValuesEqualIff(a, b);
    }
  }

  // ---- Names -----------------------------------------------------------------------------------------------

  datatype NameError = TooShort | TooLong | BadStart | BadCharacter | Reserved

  const RESERVED: seq<string> := [
    "admin", "skaus", "support", "help", "root", "system",
    "official", "mod", "moderator", "staff", "api", "app",
    "www", "mail", "null", "undefined", "test", "demo"
  ]

  predicate IsNameChar(c: char) {
    'a' <= c <= 'z' || '0' <= c <= '9' || c == '_' || c == '-'
  }

  /** Length in UTF-16 units. */
  function Length16(s: string): nat {
    if s == "" then 0 else (if s[0] > '\U{FFFF}' then 2 else 1) + Length16(s[1..])
  }

  function ValidateName(name: string): Option<NameError> {
    if Length16(name) < 3 then Some(TooShort)
    else if Length16(name) > 32 then Some(TooLong)
    else if name[0] == '_' || name[0] == '-' then Some(BadStart)
    else if !(forall i :: 0 <= i < |name| ==> IsNameChar(name[i])) then Some(BadCharacter)
    else if name in RESERVED then Some(Reserved)
    else None
  }

  predicate AllNameChars(s: string) {
    forall i :: 0 <= i < |s| ==> IsNameChar(s[i])
  }

  /** `name.toLowerCase().trim()`, with toLowerCase as a parameter. */
  function Normalized(lower: string -> string, name: string): string {
    Trim(lower(name))
  }

  method HashInputs(lower: string -> string, name: string) returns (chunks: seq<nat>)
    ensures chunks == Chunks(Utf8.Encode(Normalized(lower, name)))
  {
    chunks := Pack(Utf8.Encode(Normalized(lower, name)));
  }

  predicate NoZeroChar(s: string) {
    forall i :: 0 <= i < |s| ==> s[i] != '\U{0}'
  }

  lemma EncodedCharEnds(c: char)
    requires c != '\U{0}'
    ensures var e := Utf8.EncodeChar(c); e != [] && e[|e| - 1] != 0
  {
  }

  lemma {:induction false} EncodedNameEnds(s: string)
    requires NoZeroChar(s)
    ensures StripZeros(Utf8.Encode(s)) == Utf8.Encode(s)
    ensures s != "" ==> Utf8.Encode(s) != [] && Utf8.Encode(s)[|Utf8.Encode(s)| - 1] != 0
  {
    if s != "" {
      EncodedCharEnds(s[0]);
      EncodedNameEnds(s[1..]);
    }
  }

  /** Names without a zero character give the hash the same inputs only when they normalize alike. */
  lemma PackingTellsNamesApart(a: string, b: string)
    requires NoZeroChar(a) && NoZeroChar(b)
    ensures Chunks(Utf8.Encode(a)) == Chunks(Utf8.Encode(b)) <==> a == b
  {
    EncodedNameEnds(a);
    EncodedNameEnds(b);
    ChunksEqualIff(Utf8.Encode(a), Utf8.Encode(b));
    Utf8.DecodeAllEncoded(a);
    Utf8.DecodeAllEncoded(b);
  }

  ghost predicate LowersNames(lower: string -> string) {
    forall s :: AllNameChars(s) ==> lower(s) == s
  }

  lemma {:induction false} NameBytes(s: string)
    requires AllNameChars(s)
    ensures |Utf8.Encode(s)| == |s| == Length16(s) && NoSpace(s) && NoZeroChar(s)
  {
    if s != "" {
      assert IsNameChar(s[0]);
      NameBytes(s[1..]);
      assert |Utf8.EncodeChar(s[0])| == 1;
      assert forall i :: 0 < i < |s| ==> s[i] == s[1..][i - 1];
    }
  }

  /** Valid names are hashed as they are, in at most two field elements, and no two alike. */
  lemma ValidNamesApart(lower: string -> string, a: string, b: string)
    requires LowersNames(lower) && ValidateName(a).None? && ValidateName(b).None?
    ensures Normalized(lower, a) == a && 1 <= |Chunks(Utf8.Encode(a))| <= 2
    ensures Chunks(Utf8.Encode(Normalized(lower, a))) == Chunks(Utf8.Encode(Normalized(lower, b))) <==> a == b
  {
    NameBytes(a);
    NameBytes(b);
    TrimKeeps(a);
    TrimKeeps(b);
    ChunkCount(Utf8.Encode(a));
    PackingTellsNamesApart(a, b);
  }

  // ---- Spellings of a name -----------------------------------------------------------------------------------

  predicate IsAscii(s: string) {
    forall i :: 0 <= i < |s| ==> s[i] < '\U{80}'
  }

  function LowerAscii(s: string): string {
    seq(|s|, i requires 0 <= i < |s| => if 'A' <= s[i] <= 'Z' then s[i] - 'A' + 'a' else s[i])
  }

  ghost predicate LowersAscii(lower: string -> string) {
    forall s :: IsAscii(s) ==> lower(s) == LowerAscii(s)
  }

  predicate Spaces(s: string) {
    forall i :: 0 <= i < |s| ==> s[i] == ' '
  }

  lemma {:induction false} TrimStartDrops(pad: string, s: string)
    requires Spaces(pad) && s != "" && !IsSpace(s[0])
    ensures TrimStart(pad + s) == s
  {
    if pad == "" {
      assert pad + s == s;
    } else {
      TrimStartDrops(pad[1..], s);
      assert (pad + s)[1..] == pad[1..] + s;
    }
  }

  lemma {:induction false} TrimEndDrops(s: string, pad: string)
    requires Spaces(pad) && s != "" && !IsSpace(s[|s| - 1])
    ensures TrimEnd(s + pad) == s
  {
    if pad == "" {
      assert s + pad == s;
    } else {
      TrimEndDrops(s, pad[..|pad| - 1]);
      assert (s + pad)[..|s + pad| - 1] == s + pad[..|pad| - 1];
    }
  }

  lemma LowerAsciiPadded(before: string, spelled: string, after: string)
    requires Spaces(before) && Spaces(after) && IsAscii(spelled)
    ensures IsAscii(before + spelled + after)
    ensures LowerAscii(before + spelled + after) == before + LowerAscii(spelled) + after
  {
  }

  /** Capitals and surrounding spaces do not matter: every such spelling of a valid name is hashed
      as the name. */
  lemma SpellingsHashAlike(lower: string -> string, name: string, before: string, spelled: string, after: string)
    requires LowersAscii(lower) && ValidateName(name).None? && Spaces(before) && Spaces(after)
    requires IsAscii(spelled) && LowerAscii(spelled) == name
    ensures Normalized(lower, before + spelled + after) == name
    ensures Chunks(Utf8.Encode(Normalized(lower, before + spelled + after))) == Chunks(Utf8.Encode(name))
  {
    NameBytes(name);
    LowerAsciiPadded(before, spelled, after);
    hide TrimStart, TrimEnd, Chunks, Utf8.Encode, ValidateName, LowerAscii;
    TrimStartDrops(before, name + after);
    TrimEndDrops(name, after);
    assert before + (name + after) == before + name + after;
  }

  /** Exactly which names are valid, and which error another one gives. */
  lemma ValidNameIff(name: string)
    ensures ValidateName(name).None? <==>
      && 3 <= |name| <= 32 && name[0] != '_' && name[0] != '-' && name !in RESERVED
      && forall i :: 0 <= i < |name| ==> 'a' <= name[i] <= 'z' || '0' <= name[i] <= '9' || name[i] == '_' || name[i] == '-'
    ensures ValidateName(name) == Some(Reserved) ==> name in RESERVED
    ensures ValidateName(name) == Some(TooShort) <==> Length16(name) < 3
    ensures ValidateName(name) == Some(TooLong) <==> Length16(name) > 32
    ensures ValidateName(name) == Some(BadStart) <==> 3 <= Length16(name) <= 32 && (name[0] == '_' || name[0] == '-')
  {
    if AllNameChars(name) {
      NameBytes(name);
    }
  }

  /** The names nobody can register. */
  lemma ReservedNames()
    ensures RESERVED[..6] == ["admin", "skaus", "support", "help", "root", "system"]
    ensures RESERVED[6..12] == ["official", "mod", "moderator", "staff", "api", "app"]
    ensures RESERVED[12..] == ["www", "mail", "null", "undefined", "test", "demo"]
  {
  }
}
