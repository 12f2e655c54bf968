/** URL slugs of payment links. */
module Slug {
  import opened Strings

  predicate IsSlugChar(c: char) {
    'a' <= c <= 'z' || '0' <= c <= '9' || c == '-'
  }

  predicate AllSlugChars(s: string) {
    forall i :: 0 <= i < |s| ==> IsSlugChar(s[i])
  }

  predicate NoDoubleHyphen(s: string) {
    forall i :: 0 <= i < |s| - 1 ==> !(s[i] == '-' && s[i + 1] == '-')
  }

  // ---- The replacements -----------------------------------------------------------------------------

  function Keep(s: string): string {
    if s == "" then ""
    else if IsSlugChar(s[0]) || IsSpace(s[0]) then [s[0]] + Keep(s[1..])
    else Keep(s[1..])
  }

  lemma {:induction false} TrimStartShrinks(s: string)
    ensures |TrimStart(s)| <= |s|
    ensures TrimStart(s) != "" ==> !IsSpace(TrimStart(s)[0])
    ensures exists k :: 0 <= k <= |s| && TrimStart(s) == s[k..]
  {
    if s != "" && IsSpace(s[0]) {
      TrimStartShrinks(s[1..]);
      var k :| 0 <= k <= |s[1..]| && TrimStart(s[1..]) == s[1..][k..];
      assert TrimStart(s) == s[k + 1..];
    } else {
      assert s == s[0..];
    }
  }

  /** Every run of white space becomes one hyphen. */
  function Hyphenate(s: string): string
    decreases |s|
  {
    if s == "" then ""
    else if IsSpace(s[0]) then
      TrimStartShrinks(s[1..]);
      "-" + Hyphenate(TrimStart(s[1..]))
    else [s[0]] + Hyphenate(s[1..])
  }

  function DropHyphens(s: string): (r: string)
    ensures |r| <= |s| && (r != "" ==> r[0] != '-')
    ensures AllSlugChars(s) ==> AllSlugChars(r)
  {
    if s != "" && s[0] == '-' then DropHyphens(s[1..]) else s
  }

  /** Every run of hyphens becomes one. */
  function Collapse(s: string): string
    decreases |s|
  {
    if s == "" then ""
    else if s[0] == '-' then "-" + Collapse(DropHyphens(s[1..]))
    else [s[0]] + Collapse(s[1..])
  }

  /** One hyphen off either end. */
  function StripHyphens(s: string): string {
    var t := if s != "" && s[0] == '-' then s[1..] else s;
    if t != "" && t[|t| - 1] == '-' then t[..|t| - 1] else t
  }

  function Truncate(s: string): string {
    if |s| > 60 then s[..60] else s
  }

  function OrPayment(s: string): string {
    if s == "" then "payment" else s
  }

  /** `lower` is toLowerCase, which may change any character and the length of the text. */
  function ToSlug(lower: string -> string, text: string): string {
    OrPayment(Truncate(StripHyphens(Collapse(Hyphenate(Keep(Trim(lower(text))))))))
  }

  // ---- What comes out ---------------------------------------------------------------------------------

  predicate IsSlug(s: string) {
    1 <= |s| <= 60 && AllSlugChars(s) && s[0] != '-' && NoDoubleHyphen(s)
  }

  predicate AllKept(s: string) {
    forall i :: 0 <= i < |s| ==> IsSlugChar(s[i]) || IsSpace(s[i])
  }

  lemma {:induction false} KeepKeeps(s: string)
    ensures AllKept(Keep(s))
  {
    if s != "" { KeepKeeps(s[1..]); }
  }

  lemma {:induction false} HyphenateRemovesSpace(s: string)
    requires AllKept(s)
    ensures AllSlugChars(Hyphenate(s))
    decreases |s|
  {
    if s != "" {
      TrimStartShrinks(s[1..]);
      HyphenateRemovesSpace(if IsSpace(s[0]) then TrimStart(s[1..]) else s[1..]);
    }
  }

  lemma NoDoubleCons(c: char, s: string)
    requires NoDoubleHyphen(s) && (c == '-' && s != "" ==> s[0] != '-')
    ensures NoDoubleHyphen([c] + s)
  {
    var t := [c] + s;
    forall i | 0 <= i < |t| - 1 ensures !(t[i] == '-' && t[i + 1] == '-') {
      if i > 0 { assert t[i] == s[i - 1] && t[i + 1] == s[i]; }
    }
  }

  lemma {:induction false} CollapseCollapses(s: string)
    requires AllSlugChars(s)
    ensures AllSlugChars(Collapse(s)) && NoDoubleHyphen(Collapse(s))
    ensures s == "" <==> Collapse(s) == ""
    ensures s != "" ==> Collapse(s)[0] == s[0]
    decreases |s|
  {
    if s != "" {
      var rest := if s[0] == '-' then DropHyphens(s[1..]) else s[1..];
      CollapseCollapses(rest);
      NoDoubleCons(s[0], Collapse(rest));
    }
  }

  lemma StripStrips(s: string)
    requires AllSlugChars(s) && NoDoubleHyphen(s)
    ensures var r := StripHyphens(s); AllSlugChars(r) && NoDoubleHyphen(r) && (r != "" ==> r[0] != '-')
  {
    var t := if s != "" && s[0] == '-' then s[1..] else s;
    assert NoDoubleHyphen(t) && AllSlugChars(t);
    assert t != "" && |t| < |s| ==> !(s[0] == '-' && s[1] == '-');
  }

  /** Whatever the title, and whatever lower-casing does: 1 to 60 characters of a-z, 0-9 and hyphen,
      no hyphen in front and never two in a row. */
  lemma SlugShape(lower: string -> string, text: string)
    ensures IsSlug(ToSlug(lower, text))
  {
    var kept := Keep(Trim(lower(text)));
    KeepKeeps(Trim(lower(text)));
    HyphenateRemovesSpace(kept);
    CollapseCollapses(Hyphenate(kept));
    var stripped := StripHyphens(Collapse(Hyphenate(kept)));
    StripStrips(Collapse(Hyphenate(kept)));
    assert AllSlugChars(Truncate(stripped)) && NoDoubleHyphen(Truncate(stripped));
  }

  // ---- Slugging a slug -----------------------------------------------------------------------------------

  ghost predicate LowersLetters(lower: string -> string) {
    forall s :: AllSlugChars(s) ==> lower(s) == s
  }

  lemma SlugCharIsNotSpace(s: string)
    requires AllSlugChars(s)
    ensures NoSpace(s)
  {
  }

  lemma {:induction false} KeepAll(s: string)
    requires AllSlugChars(s)
    ensures Keep(s) == s
  {
    if s != "" {
      KeepAll(s[1..]);
      assert [s[0]] + s[1..] == s;
    }
  }

  lemma {:induction false} HyphenateNothing(s: string)
    requires AllSlugChars(s)
    ensures Hyphenate(s) == s
  {
    if s != "" {
      HyphenateNothing(s[1..]);
      assert IsSlugChar(s[0]) && [s[0]] + s[1..] == s;
    }
  }

  lemma {:induction false} CollapseNothing(s: string)
    requires NoDoubleHyphen(s)
    ensures Collapse(s) == s
  {
    if s != "" {
      assert NoDoubleHyphen(s[1..]);
      CollapseNothing(s[1..]);
      assert s[0] == '-' && |s| > 1 ==> s[1] != '-';
      assert s[0] == '-' ==> DropHyphens(s[1..]) == s[1..];
      assert [s[0]] + s[1..] == s;
    }
  }

  predicate EndsWithHyphen(s: string) {
    s != "" && s[|s| - 1] == '-'
  }

  /** Slugging a slug only takes off the hyphen that truncation may have left at its end. */
  lemma SlugOfSlug(lower: string -> string, s: string)
    requires LowersLetters(lower) && IsSlug(s)
    ensures ToSlug(lower, s) == if EndsWithHyphen(s) then s[..|s| - 1] else s
  {
    SlugCharIsNotSpace(s);
    TrimKeeps(s);
    KeepAll(s);
    HyphenateNothing(s);
    CollapseNothing(s);
  }

  /** Two applications always reach the fixed point; one does unless it was truncated at a hyphen. */
  lemma SlugSettles(lower: string -> string, text: string)
    requires LowersLetters(lower)
    ensures var once := ToSlug(lower, text); var twice := ToSlug(lower, once);
      && ToSlug(lower, twice) == twice
      && (twice == once <==> !EndsWithHyphen(once))
      && (EndsWithHyphen(once) ==> |once| == 60)
  {
    var once := ToSlug(lower, text);
    SlugShape(lower, text);
    SlugOfSlug(lower, once);
    var twice := ToSlug(lower, once);
    SlugShape(lower, once);
    SlugOfSlug(lower, twice);
    if EndsWithHyphen(once) {
      assert once[|once| - 2] != '-';
      OnlyTruncationLeavesHyphen(lower, text);
    }
  }

  lemma OnlyTruncationLeavesHyphen(lower: string -> string, text: string)
    requires EndsWithHyphen(ToSlug(lower, text))
    ensures |ToSlug(lower, text)| == 60
  {
    var kept := Keep(Trim(lower(text)));
    KeepKeeps(Trim(lower(text)));
    HyphenateRemovesSpace(kept);
    CollapseCollapses(Hyphenate(kept));
    StripLeavesNone(Collapse(Hyphenate(kept)));
  }

  lemma StripLeavesNone(s: string)
    requires NoDoubleHyphen(s)
    ensures !EndsWithHyphen(StripHyphens(s))
  {
    var t := if s != "" && s[0] == '-' then s[1..] else s;
    assert NoDoubleHyphen(t);
    assert |t| > 1 ==> !(t[|t| - 2] == '-' && t[|t| - 1] == '-');
  }

  // ---- What a title becomes --------------------------------------------------------------------------------

  predicate IsWordChar(c: char) {
    'a' <= c <= 'z' || '0' <= c <= '9'
  }

  /** Words of letters and digits with one space character between them. */
  predicate Tidy(t: string) {
    && t != "" && IsWordChar(t[0]) && IsWordChar(t[|t| - 1])
    && (forall i :: 0 <= i < |t| ==> IsWordChar(t[i]) || IsSpace(t[i]))
    && (forall i :: 0 <= i < |t| - 1 ==> !IsSpace(t[i]) || !IsSpace(t[i + 1]))
  }

  function Hyphened(t: string): string {
    seq(|t|, i requires 0 <= i < |t| => if IsSpace(t[i]) then '-' else t[i])
  }

  lemma {:induction false} KeepTidy(t: string)
    requires forall i :: 0 <= i < |t| ==> IsWordChar(t[i]) || IsSpace(t[i])
    ensures Keep(t) == t
  {
    if t != "" {
      KeepTidy(t[1..]);
      assert [t[0]] + t[1..] == t;
    }
  }

  lemma {:induction false} HyphenateTidy(t: string)
    requires forall i :: 0 <= i < |t| - 1 ==> !IsSpace(t[i]) || !IsSpace(t[i + 1])
    ensures Hyphenate(t) == Hyphened(t)
    decreases |t|
  {
    if t != "" {
      assert TrimStart(t[1..]) == t[1..] || !IsSpace(t[0]);
      HyphenateTidy(t[1..]);
      assert Hyphened(t) == [if IsSpace(t[0]) then '-' else t[0]] + Hyphened(t[1..]);
    }
  }

  lemma WordsHaveNoHyphen(t: string)
    requires Tidy(t)
    ensures NoDoubleHyphen(Hyphened(t)) && Hyphened(t) != ""
    ensures Hyphened(t)[0] != '-' && Hyphened(t)[|t| - 1] != '-'
  {
    forall i | 0 <= i < |t| - 1 ensures !(Hyphened(t)[i] == '-' && Hyphened(t)[i + 1] == '-') {
      assert IsWordChar(t[i]) || IsWordChar(t[i + 1]);
    }
  }

  /** The slug of a title is its lower-cased text with a hyphen for every space, cut to 60. */
  lemma TitleSlug(lower: string -> string, text: string)
    requires Tidy(lower(text))
    ensures var t, slug := lower(text), ToSlug(lower, text);
      && |slug| == (if |t| > 60 then 60 else |t|)
      && forall i :: 0 <= i < |slug| ==> slug[i] == if IsSpace(t[i]) then '-' else t[i]
  {
    var t := lower(text);
    assert Trim(t) == t;
    KeepTidy(t);
    HyphenateTidy(t);
    WordsHaveNoHyphen(t);
    CollapseNothing(Hyphened(t));
  }

  /** Anything that is neither a letter, a digit, a hyphen nor a space is dropped. */
  lemma {:induction false} KeepDrops(a: string, c: char, b: string)
    requires !IsSlugChar(c) && !IsSpace(c)
    ensures Keep(a + [c] + b) == Keep(a + b)
  {
    if a == "" {
      assert a + [c] + b == [c] + b && a + b == b && ([c] + b)[1..] == b;
    } else {
      KeepDrops(a[1..], c, b);
      assert (a + [c] + b)[1..] == a[1..] + [c] + b && (a + b)[1..] == a[1..] + b;
    }
  }

  lemma SpecialsAreDropped(lower: string -> string, text: string, plain: string, a: string, c: char, b: string)
    requires !IsSlugChar(c) && !IsSpace(c) && a != "" && b != "" && !IsSpace(a[0]) && !IsSpace(b[|b| - 1])
    requires lower(text) == a + [c] + b && lower(plain) == a + b
    ensures ToSlug(lower, text) == ToSlug(lower, plain)
  {
    KeepDrops(a, c, b);
    assert Trim(a + [c] + b) == a + [c] + b && Trim(a + b) == a + b;
  }

  /** A title of which nothing is left is called "payment". */
  lemma NothingLeft(lower: string -> string, text: string)
    requires forall i :: 0 <= i < |lower(text)| ==> !IsSlugChar(lower(text)[i]) && !IsSpace(lower(text)[i])
    ensures ToSlug(lower, text) == "payment"
  {
    var t := lower(text);
    TrimKeeps(t);
    KeepNothing(t);
  }

  lemma {:induction false} KeepNothing(s: string)
    requires forall i :: 0 <= i < |s| ==> !IsSlugChar(s[i]) && !IsSpace(s[i])
    ensures Keep(s) == ""
  {
    if s != "" { KeepNothing(s[1..]); }
  }
}
