/**
 Lower-casing and trimming, as strings.ToLower, strings.TrimSpace and strings.Trim do
 on valid UTF-8 text.  A char is a code point.  Lower-casing is that of ASCII letters.
 */
module Text {
  function Lower(c: char): char {
    if 'A' <= c <= 'Z' then ((c as int) + 32) as char else c
  }

  function LowerAll(s: string): (r: string)
    ensures |r| == |s|
  {
    seq(|s|, i requires 0 <= i < |s| => Lower(s[i]))
  }

  /** unicode.IsSpace: the Unicode White_Space property. */
  predicate IsSpace(c: char) {
    || '\t' <= c <= '\r' || c == ' ' || c == '\U{85}' || c == '\U{A0}' || c == '\U{1680}'
    || '\U{2000}' <= c <= '\U{200A}' || c == '\U{2028}' || c == '\U{2029}'
    || c == '\U{202F}' || c == '\U{205F}' || c == '\U{3000}'
  }

  predicate IsQuote(c: char) {
    c == '"' || c == '\''
  }

  predicate IsQuoteOrSpace(c: char) {
    IsQuote(c) || c == ' '
  }

  function TrimLeft(s: string, cut: char -> bool): string {
    if s == "" || !cut(s[0]) then s else TrimLeft(s[1..], cut)
  }

  function TrimRight(s: string, cut: char -> bool): string {
    if s == "" || !cut(s[|s| - 1]) then s else TrimRight(s[..|s| - 1], cut)
  }

  function Trim(s: string, cut: char -> bool): string {
    TrimRight(TrimLeft(s, cut), cut)
  }

  lemma TrimNothing(s: string, cut: char -> bool)
    requires s != "" ==> !cut(s[0]) && !cut(s[|s| - 1])
    ensures Trim(s, cut) == s
  {
  }

  lemma {:induction false} TrimLeftShrinks(s: string, cut: char -> bool)
    ensures |TrimLeft(s, cut)| <= |s|
    ensures s != "" && cut(s[0]) ==> |TrimLeft(s, cut)| < |s|
  {
    if s != "" && cut(s[0]) {
      TrimLeftShrinks(s[1..], cut);
    }
  }

  lemma {:induction false} TrimRightShrinks(s: string, cut: char -> bool)
    ensures |TrimRight(s, cut)| <= |s|
    ensures s != "" && cut(s[|s| - 1]) ==> |TrimRight(s, cut)| < |s|
  {
    if s != "" && cut(s[|s| - 1]) {
      TrimRightShrinks(s[..|s| - 1], cut);
    }
  }

  lemma TrimShrinks(s: string, cut: char -> bool)
    ensures |Trim(s, cut)| <= |s|
    ensures s != "" && (cut(s[0]) || cut(s[|s| - 1])) ==> |Trim(s, cut)| < |s|
  {
    TrimLeftShrinks(s, cut);
    TrimRightShrinks(TrimLeft(s, cut), cut);
  }

  lemma {:induction false} TrimLeftAround(a: string, s: string, cut: char -> bool)
    requires (forall i :: 0 <= i < |a| ==> cut(a[i])) && (s == "" || !cut(s[0]))
    ensures TrimLeft(a + s, cut) == s
  {
    if a == "" {
      assert a + s == s;
    } else {
      TrimLeftAround(a[1..], s, cut);
      assert (a + s)[1..] == a[1..] + s;
    }
  }

  lemma {:induction false} TrimRightAround(s: string, b: string, cut: char -> bool)
    requires (forall i :: 0 <= i < |b| ==> cut(b[i])) && (s == "" || !cut(s[|s| - 1]))
    ensures TrimRight(s + b, cut) == s
  {
    if b == "" {
      assert s + b == s;
    } else {
      TrimRightAround(s, b[..|b| - 1], cut);
      assert (s + b)[..|s + b| - 1] == s + b[..|b| - 1];
    }
  }

  /** Trimming takes exactly what is cut at both ends. */
  lemma TrimAround(a: string, s: string, b: string, cut: char -> bool)
    requires (forall i :: 0 <= i < |a| ==> cut(a[i])) && (forall i :: 0 <= i < |b| ==> cut(b[i]))
    requires s != "" ==> !cut(s[0]) && !cut(s[|s| - 1])
    ensures Trim(a + s + b, cut) == s
  {
    if s == "" {
      var all := a + s + b;
      assert all == all + "";
      TrimLeftAround(all, "", cut);
    } else {
      assert a + s + b == a + (s + b);
      TrimLeftAround(a, s + b, cut);
      TrimRightAround(s, b, cut);
    }
  }

  // ---------- the tables, by code point ----------

  /** Lower-casing moves the 26 letters and nothing else. */
  lemma LowerIff(c: char)
    ensures Lower(c) as int == if 65 <= c as int <= 90 then c as int + 32 else c as int
  {
  }

  /** The code points with the White_Space property. */
  lemma SpaceIff(c: char)
    ensures IsSpace(c) <==>
      || c as int in {9, 10, 11, 12, 13, 32, 0x85, 0xA0, 0x1680, 0x2028, 0x2029, 0x202F, 0x205F, 0x3000}
      || 0x2000 <= c as int <= 0x200A
  {
  }

  lemma QuoteIff(c: char)
    ensures IsQuote(c) <==> c as int in {34, 39}
    ensures IsQuoteOrSpace(c) <==> c as int in {32, 34, 39}
  {
  }
}
