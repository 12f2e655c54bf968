/** DepositNote account data as the web scanner and the gateway indexer read it. */
module DepositAccounts {
  import opened Base
  import opened Bytes

  datatype ParsedNote = ParsedNote(commitment: string, encryptedNote: seq<Byte>, leafIndex: nat, timestamp: int)

  // ---- Reads from a buffer ----------------------------------------------------------------------

  /** `readUInt32LE`, which throws when it would read past the end. */
  function ReadUInt32LE(data: seq<Byte>, offset: nat): Option<nat> {
    if offset + 4 > |data| then None else Some(LittleEndianValue(data[offset..offset + 4]))
  }

  /** `readBigInt64LE`. */
  function ReadBigInt64LE(data: seq<Byte>, offset: nat): Option<int> {
    if offset + 8 > |data| then None else Some(Int64Value(data[offset..offset + 8]))
  }

  /** `data.subarray(start, end)` for non-negative positions: clamped to the data. */
  function Subarray(data: seq<Byte>, start: nat, end: nat): seq<Byte>
    requires start <= end
  {
    data[AtMost(start, |data|)..AtMost(end, |data|)]
  }

  // ---- The two parsers -----------------------------------------------------------------------------

  /** The scanner's: explicit length guards before each read. */
  function ScanParse(data: seq<Byte>): Option<ParsedNote> {
    if |data| < 8 + 32 + 32 + 4 then None
    else
      var noteLen := LittleEndianValue(data[72..76]);
      if |data| < 76 + noteLen + 4 + 8 then None
      else Some(ParsedNote(
        BytesToHex(data[40..72]),
        data[76..76 + noteLen],
        LittleEndianValue(data[76 + noteLen..76 + noteLen + 4]),
        Int64Value(data[76 + noteLen + 4..76 + noteLen + 12])))
  }

  /** The indexer's: one guard, then reads that throw past the end. */
  function GatewayParse(data: seq<Byte>): Option<ParsedNote> {
    if |data| < 8 + 32 + 32 + 4 then None
    else
      var commitment := BytesToHex(Subarray(data, 40, 72));
      var noteLen := ReadUInt32LE(data, 72);
      if noteLen.None? then None
      else
        var noteEnd := 76 + noteLen.value;
        var encryptedNote := Subarray(data, 76, noteEnd);
        var leafIndex := ReadUInt32LE(data, noteEnd);
        var timestamp := ReadBigInt64LE(data, noteEnd + 4);
        if leafIndex.None? || timestamp.None? then None
        else Some(ParsedNote(commitment, encryptedNote, leafIndex.value, timestamp.value))
  }

  /** Both accept the same byte strings and read the same fields. */
  lemma ParsersAgree(data: seq<Byte>)
    ensures ScanParse(data) == GatewayParse(data)
  {
  }

  function Unsigned32(a: int, b: int, c: int, d: int): int {
    a + 256 * b + 0x1_0000 * c + 0x100_0000 * d
  }

  lemma FourBytesAre(s: seq<Byte>)
    requires |s| == 4
    ensures LittleEndianValue(s) == Unsigned32(s[0], s[1], s[2], s[3])
  {
    var t, u, v := s[1..], s[2..], s[3..];
    assert t[1..] == u && u[1..] == v && v[1..] == [];
    assert LittleEndianValue(v) == v[0] && LittleEndianValue(u) == u[0] + 256 * LittleEndianValue(v);
    assert LittleEndianValue(t) == t[0] + 256 * LittleEndianValue(u);
  }

  /** The high half counts negative from 2^31 on. */
  lemma EightBytesAre(s: seq<Byte>)
    requires |s| == 8
    ensures var low, high := Unsigned32(s[0], s[1], s[2], s[3]), Unsigned32(s[4], s[5], s[6], s[7]);
      Int64Value(s) == low + 0x1_0000_0000 * if high >= 0x8000_0000 then high - 0x1_0000_0000 else high
  {
    FourBytesAre(s[4..]);
    var t, u, v := s[1..], s[2..], s[3..];
    assert t[1..] == u && u[1..] == v && v[1..] == s[4..];
    assert LittleEndianValue(v) == v[0] + 256 * LittleEndianValue(s[4..]);
    assert LittleEndianValue(u) == u[0] + 256 * LittleEndianValue(v);
    assert LittleEndianValue(t) == t[0] + 256 * LittleEndianValue(u);
  }

  /** Where the fields are: the commitment at 40, the note's length at 72 and the note behind it, then
      the leaf index and the time. */
  lemma ParsedFields(data: seq<Byte>)
    requires |data| >= 76
    ensures var n := Unsigned32(data[72], data[73], data[74], data[75]);
      && (ScanParse(data).Some? <==> |data| >= 76 + n + 12)
      && (ScanParse(data).Some? ==>
            var note, end := ScanParse(data).value, 76 + n;
            && note.commitment == BytesToHex(data[40..72]) && note.encryptedNote == data[76..end]
            && note.leafIndex == Unsigned32(data[end], data[end + 1], data[end + 2], data[end + 3])
            && var high := Unsigned32(data[end + 8], data[end + 9], data[end + 10], data[end + 11]);
               note.timestamp == Unsigned32(data[end + 4], data[end + 5], data[end + 6], data[end + 7])
                                 + 0x1_0000_0000 * if high >= 0x8000_0000 then high - 0x1_0000_0000 else high)
  {
    FourBytesAre(data[72..76]);
    var n := LittleEndianValue(data[72..76]);
    if |data| >= 76 + n + 12 {
      FourBytesAre(data[76 + n..76 + n + 4]);
      EightBytesAre(data[76 + n + 4..76 + n + 12]);
    }
  }

  // ---- The layout they read --------------------------------------------------------------------------

  datatype NoteAccount = NoteAccount(
    discriminator: seq<Byte>,
    pool: seq<Byte>,
    commitment: seq<Byte>,
    encryptedNote: seq<Byte>,
    leafIndex: nat,
    timestamp: int,
    rest: seq<Byte>
  )

  const TWO_TO_32: int := 0x1_0000_0000
  const TWO_TO_63: int := 0x8000_0000_0000_0000
  const TWO_TO_64: int := 0x1_0000_0000_0000_0000

  predicate FitsLayout(a: NoteAccount) {
    && |a.discriminator| == 8 && |a.pool| == 32 && |a.commitment| == 32
    && |a.encryptedNote| < TWO_TO_32 && a.leafIndex < TWO_TO_32
    && -TWO_TO_63 <= a.timestamp < TWO_TO_63
  }

  function TwosComplement(n: int): nat
    requires -TWO_TO_63 <= n < TWO_TO_63
  {
    if n < 0 then n + TWO_TO_64 else n
  }

  function Header(a: NoteAccount): seq<Byte> {
    a.discriminator + a.pool + a.commitment + LittleEndian(|a.encryptedNote|, 4)
  }

  function Footer(a: NoteAccount): seq<Byte>
    requires FitsLayout(a)
  {
    LittleEndian(a.leafIndex, 4) + LittleEndian(TwosComplement(a.timestamp), 8) + a.rest
  }

  function Layout(a: NoteAccount): seq<Byte>
    requires FitsLayout(a)
  {
    Header(a) + a.encryptedNote + Footer(a)
  }

  lemma ByteWidths(four: nat, eight: nat)
    requires four == 4 && eight == 8
    ensures Pow(256, four) == TWO_TO_32 && Pow(256, eight) == TWO_TO_64
  {
    assert Pow(256, 2) == 0x1_0000;
    PowAdd(256, 2, 2);
    PowAdd(256, 4, 4);
  }

  lemma FourBytesRead(n: nat)
    requires n < TWO_TO_32
    ensures |LittleEndian(n, 4)| == 4 && LittleEndianValue(LittleEndian(n, 4)) == n
  {
    ByteWidths(4, 8);
    LittleEndianRoundTrip(n, 4);
  }

  lemma EightBytesRead(n: int)
    requires -TWO_TO_63 <= n < TWO_TO_63
    ensures var s := LittleEndian(TwosComplement(n), 8); |s| == 8 && Int64Value(s) == n
  {
    ByteWidths(4, 8);
    LittleEndianRoundTrip(TwosComplement(n), 8);
  }

  lemma HeaderReads(a: NoteAccount, after: seq<Byte>)
    requires FitsLayout(a)
    ensures var data := Header(a) + after;
      |Header(a)| == 76 && data[40..72] == a.commitment && LittleEndianValue(data[72..76]) == |a.encryptedNote|
  {
    FourBytesRead(|a.encryptedNote|);
    var data := Header(a) + after;
    assert data[72..76] == LittleEndian(|a.encryptedNote|, 4);
  }

  lemma FooterReads(a: NoteAccount)
    requires FitsLayout(a)
    ensures var footer := Footer(a);
      |footer| >= 12 && LittleEndianValue(footer[..4]) == a.leafIndex && Int64Value(footer[4..12]) == a.timestamp
  {
    FourBytesRead(a.leafIndex);
    EightBytesRead(a.timestamp);
    var footer := Footer(a);
    assert footer[..4] == LittleEndian(a.leafIndex, 4);
    assert footer[4..12] == LittleEndian(TwosComplement(a.timestamp), 8);
  }

  lemma Sections(header: seq<Byte>, note: seq<Byte>, footer: seq<Byte>)
    requires |header| == 76 && |footer| >= 12
    ensures var data := header + note + footer; var end := 76 + |note|;
      && data == header + (note + footer)
      && data[76..end] == note && data[end..end + 4] == footer[..4] && data[end + 4..end + 12] == footer[4..12]
  {
  }

  /** What the program wrote is what both parsers read. */
  lemma LayoutParses(a: NoteAccount)
    requires FitsLayout(a)
    ensures ScanParse(Layout(a)) == Some(ParsedNote(BytesToHex(a.commitment), a.encryptedNote, a.leafIndex, a.timestamp))
  {
    HeaderReads(a, a.encryptedNote + Footer(a));
    FooterReads(a);
    Sections(Header(a), a.encryptedNote, Footer(a));
  }

  /** The account a parsed byte string is the layout of. */
  function AccountOf(data: seq<Byte>): NoteAccount
    requires ScanParse(data).Some?
  {
    var note := ScanParse(data).value;
    NoteAccount(data[..8], data[8..40], data[40..72], note.encryptedNote, note.leafIndex, note.timestamp,
                data[76 + |note.encryptedNote| + 12..])
  }

  lemma Int64Range(s: seq<Byte>)
    requires |s| == 8
    ensures -TWO_TO_63 <= Int64Value(s) < TWO_TO_63 && LittleEndian(TwosComplement(Int64Value(s)), 8) == s
  {
    LittleEndianBelow(s);
    ByteWidths(4, 8);
  }

  lemma FourBytesBelow(s: seq<Byte>)
    requires |s| == 4
    ensures LittleEndianValue(s) < TWO_TO_32 && LittleEndian(LittleEndianValue(s), 4) == s
  {
    LittleEndianBelow(s);
    ByteWidths(4, 8);
  }

  lemma CutHeader(s: seq<Byte>)
    requires |s| >= 76
    ensures s[..8] + s[8..40] + s[40..72] + s[72..76] == s[..76]
  {
  }

  lemma CutFooter(s: seq<Byte>)
    requires |s| >= 12
    ensures s[..4] + s[4..12] + s[12..] == s
  {
  }

  lemma FooterFrom(data: seq<Byte>, end: nat)
    requires end + 12 <= |data|
    ensures var footer := data[end..];
      footer[..4] == data[end..end + 4] && footer[4..12] == data[end + 4..end + 12] && footer[12..] == data[end + 12..]
  {
  }

  lemma AccountFits(data: seq<Byte>)
    requires ScanParse(data).Some?
    ensures FitsLayout(AccountOf(data))
    ensures Header(AccountOf(data)) == data[..76]
  {
    var end := 76 + LittleEndianValue(data[72..76]);
    FourBytesBelow(data[72..76]);
    FourBytesBelow(data[end..end + 4]);
    Int64Range(data[end + 4..end + 12]);
    CutHeader(data);
  }

  lemma AccountFooter(data: seq<Byte>)
    requires ScanParse(data).Some? && FitsLayout(AccountOf(data))
    ensures var end := 76 + |ScanParse(data).value.encryptedNote|; end <= |data| && Footer(AccountOf(data)) == data[end..]
  {
    var end := 76 + LittleEndianValue(data[72..76]);
    FourBytesBelow(data[end..end + 4]);
    Int64Range(data[end + 4..end + 12]);
    FooterFrom(data, end);
    CutFooter(data[end..]);
  }

  /** Whatever is accepted is the layout of an account: nothing is read from a malformed string. */
  lemma ParsedIsLayout(data: seq<Byte>)
    requires ScanParse(data).Some?
    ensures FitsLayout(AccountOf(data)) && Layout(AccountOf(data)) == data
  {
    AccountFits(data);
    AccountFooter(data);
    var end := 76 + |ScanParse(data).value.encryptedNote|;
    assert data == data[..76] + data[76..end] + data[end..];
  }
}
