/**
 url(...) tokens of CSS text: the scanning rule that internal/localize/css.go and
 internal/repair/extract.go share, and the printer it undoes.

 A text is a sequence of code points; the scanners' bytes that matter are all ASCII.
 Lower-casing keeps every index; text whose lower-case form has another length is not
 modelled.
 */
module CssTokens {
  import opened Text

  /** "url(" in any letter case at position i. */
  predicate UrlAt(s: string, i: nat) {
    i + 4 <= |s| && Lower(s[i]) == 'u' && Lower(s[i + 1]) == 'r' && Lower(s[i + 2]) == 'l' && s[i + 3] == '('
  }

  /** strings.Index of "url(" in the lower-cased text, -1 if absent. */
  function FindUrl(s: string): (r: int)
    ensures r >= 0 ==> UrlAt(s, r) && forall k: nat :: k < r ==> !UrlAt(s, k)
    ensures r < 0 ==> r == -1 && forall k: nat :: !UrlAt(s, k)
  {
    if |s| < 4 then -1
    else if UrlAt(s, 0) then 0
    else
      var r := FindUrl(s[1..]);
      assert forall k: nat :: k > 0 ==> UrlAt(s, k) == UrlAt(s[1..], k - 1);
      if r < 0 then -1 else r + 1
  }

  /** The position of the parenthesis that closes the token, -1 if the text ends first. */
  function CloseFrom(s: string, j: nat, depth: nat): (r: int)
    requires depth > 0
    ensures r >= 0 ==> j <= r < |s| && s[r] == ')'
    ensures r < 0 ==> r == -1
    decreases |s| - j
  {
    if j >= |s| then -1
    else if s[j] == '\\' && j + 1 < |s| then CloseFrom(s, j + 2, depth)
    else if s[j] == '(' then CloseFrom(s, j + 1, depth + 1)
    else if s[j] == ')' then if depth == 1 then j else CloseFrom(s, j + 1, depth - 1)
    else CloseFrom(s, j + 1, depth)
  }

  /** A stretch of text followed by the url token with the given raw content. */
  datatype Piece = Piece(text: string, content: string)

  datatype Scan = Unclosed | Tokens(pieces: seq<Piece>, tail: string)

  function ScanCss(css: string): (r: Scan)
    decreases |css|
  {
    var k := FindUrl(css);
    if k < 0 then Tokens([], css)
    else
      var rest := css[k + 4..];
      var j := CloseFrom(rest, 0, 1);
      if j < 0 then Unclosed
      else
        match ScanCss(rest[j + 1..])
        case Unclosed => Unclosed
        case Tokens(ps, tail) => Tokens([Piece(css[..k], rest[..j])] + ps, tail)
  }

  function Token(content: string): string {
    "url(" + content + ")"
  }

  function Render(pieces: seq<Piece>, tail: string): string {
    if pieces == [] then tail else pieces[0].text + Token(pieces[0].content) + Render(pieces[1..], tail)
  }

  // ---------- scanning undoes printing ----------

  /** The text runs up to the token without containing one. */
  predicate WellText(t: string) {
    FindUrl(t + "url(") == |t|
  }

  /** The content closes at its end and not before. */
  predicate WellContent(c: string) {
    CloseFrom(c + ")", 0, 1) == |c|
  }

  ghost predicate WellFormed(pieces: seq<Piece>, tail: string) {
    && (forall i :: 0 <= i < |pieces| ==> WellText(pieces[i].text) && WellContent(pieces[i].content))
    && FindUrl(tail) < 0
  }

  /** Where a token closes depends on nothing after it. */
  lemma {:induction false} CloseExtends(a: string, b: string, j: nat, depth: nat)
    requires depth > 0 && CloseFrom(a, j, depth) >= 0
    requires |b| > CloseFrom(a, j, depth) && b[..CloseFrom(a, j, depth) + 1] == a[..CloseFrom(a, j, depth) + 1]
    ensures CloseFrom(b, j, depth) == CloseFrom(a, j, depth)
    decreases |a| - j
  {
    var r := CloseFrom(a, j, depth);
    assert forall i :: 0 <= i <= r ==> a[i] == a[..r + 1][i] == b[i];
    if a[j] == '\\' && j + 1 < |a| {
      CloseExtends(a, b, j + 2, depth);
    } else if a[j] == '(' {
      CloseExtends(a, b, j + 1, depth + 1);
    } else if a[j] == ')' {
      if depth > 1 {
        CloseExtends(a, b, j + 1, depth - 1);
      }
    } else {
      CloseExtends(a, b, j + 1, depth);
    }
  }

  lemma TextExtends(t: string, u: string, more: string)
    requires |u| == 4 && UrlAt(u, 0) && WellText(t)
    ensures FindUrl(t + u + more) == |t|
  {
    var a, b := t + "url(", t + u + more;
    assert UrlAt(b, |t|);
    forall k: nat | k < |t| ensures !UrlAt(b, k) {
      assert !UrlAt(a, k);
      assert forall i :: k <= i < k + 4 ==> Lower(a[i]) == Lower(b[i]);
    }
  }

  /** A scan with one more piece in front. */
  function Cons(p: Piece, r: Scan): Scan {
    match r
    case Unclosed => Unclosed
    case Tokens(ps, tail) => Tokens([p] + ps, tail)
  }

  /** How the parts of a text with a leading token line up. */
  lemma Layout(t: string, u: string, c: string, more: string)
    requires |u| == 4
    ensures var css := t + (u + (c + ")" + more));
      && css == t + u + (c + ")" + more)
      && css[..|t|] == t && css[|t| + 4..] == c + ")" + more
      && (c + ")" + more)[..|c|] == c && (c + ")" + more)[|c| + 1..] == more
      && (c + ")" + more)[..|c| + 1] == c + ")"
  {
  }

  lemma ScanHead(t: string, u: string, c: string, more: string)
    requires |u| == 4 && UrlAt(u, 0) && WellText(t) && WellContent(c)
    ensures ScanCss(t + (u + (c + ")" + more))) == Cons(Piece(t, c), ScanCss(more))
  {
    hide FindUrl, CloseFrom;
    Layout(t, u, c, more);
    TextExtends(t, u, c + ")" + more);
    CloseExtends(c + ")", c + ")" + more, 0, 1);
  }

  lemma {:induction false} ScanRender(pieces: seq<Piece>, tail: string)
    requires WellFormed(pieces, tail)
    ensures ScanCss(Render(pieces, tail)) == Tokens(pieces, tail)
  {
    hide FindUrl, CloseFrom, UrlAt;
    if pieces != [] {
      var p := pieces[0];
      var more := Render(pieces[1..], tail);
      ScanRender(pieces[1..], tail);
      assert Render(pieces, tail) == p.text + ("url(" + (p.content + ")" + more));
      assert UrlAt("url(", 0) by { UrlIsUrl(); }
      ScanHead(p.text, "url(", p.content, more);
      assert [p] + pieces[1..] == pieces;
    }
  }

  lemma UrlIsUrl()
    ensures UrlAt("url(", 0)
  {
  }

  /** The first token of a text that has one. */
  lemma FirstToken(css: string) returns (t: string, u: string, c: string, more: string)
    requires ScanCss(css).Tokens? && FindUrl(css) >= 0
    ensures css == t + (u + (c + ")" + more)) && |u| == 4 && UrlAt(u, 0) && |more| < |css|
    ensures WellText(t) && WellContent(c)
    ensures ScanCss(css) == Cons(Piece(t, c), ScanCss(more))
  {
    var k := FindUrl(css);
    var rest := css[k + 4..];
    var j := CloseFrom(rest, 0, 1);
    t, u, c, more := css[..k], css[k..k + 4], rest[..j], rest[j + 1..];
    TextExtendsBack(css, k);
    ContentExtendsBack(rest, j);
    assert rest == c + ")" + more;
    assert css == t + (u + rest);
  }

  lemma ContentExtendsBack(rest: string, j: nat)
    requires CloseFrom(rest, 0, 1) == j
    ensures WellContent(rest[..j])
  {
    assert (rest[..j] + ")")[..j + 1] == rest[..j + 1];
    CloseExtends(rest, rest[..j] + ")", 0, 1);
  }

  lemma TextExtendsBack(css: string, k: nat)
    requires FindUrl(css) == k
    ensures WellText(css[..k])
  {
    var a := css[..k] + "url(";
    assert UrlAt(a, k);
    forall i: nat | i < k ensures !UrlAt(a, i) {
      assert !UrlAt(css, i);
      assert forall x :: i <= x < i + 4 ==> Lower(a[x]) == Lower(css[x]);
    }
  }

  /** Equal up to the letter case of ASCII letters. */
  ghost predicate SameButCase(a: string, b: string) {
    |a| == |b| && forall i :: 0 <= i < |a| ==> Lower(a[i]) == Lower(b[i])
  }

  /** What a scan returns is well formed, so printing and scanning it again changes nothing. */
  lemma {:induction false} ScanIsWellFormed(css: string)
    requires ScanCss(css).Tokens?
    ensures WellFormed(ScanCss(css).pieces, ScanCss(css).tail)
    decreases |css|
  {
    hide CloseFrom, WellText, WellContent, UrlAt;
    if FindUrl(css) >= 0 {
      var t, u, c, more := FirstToken(css);
      ScanIsWellFormed(more);
    }
  }

  /** A scanned text prints back to the same bytes except for the letter case of each "url(". */
  lemma {:induction false} RenderScan(css: string)
    requires ScanCss(css).Tokens?
    ensures SameButCase(Render(ScanCss(css).pieces, ScanCss(css).tail), css)
    decreases |css|
  {
    hide CloseFrom, SameButCase, WellText, WellContent, UrlAt;
    if FindUrl(css) < 0 {
      Reflexive(css);
    } else {
      var t, u, c, more := FirstToken(css);
      RenderScan(more);
      RenderCons(t, u, c, more);
    }
  }

  lemma RenderCons(t: string, u: string, c: string, more: string)
    requires |u| == 4 && UrlAt(u, 0) && ScanCss(more).Tokens?
    requires SameButCase(Render(ScanCss(more).pieces, ScanCss(more).tail), more)
    ensures var r := Cons(Piece(t, c), ScanCss(more));
      SameButCase(Render(r.pieces, r.tail), t + (u + (c + ")" + more)))
  {
    hide ScanCss;
    var Tokens(ps, tail) := ScanCss(more);
    var out := Render(ps, tail);
    assert ([Piece(t, c)] + ps)[1..] == ps;
    assert Render([Piece(t, c)] + ps, tail) == t + ("url(" + (c + ")" + out));
    Reflexive(t);
    Reflexive(c + ")");
    assert SameButCase("url(", u);
  }

  // ---------- which texts are scanned to the end ----------

  lemma {:induction false} CloseOfCase(a: string, b: string, j: nat, depth: nat)
    requires SameButCase(a, b) && depth > 0
    ensures CloseFrom(a, j, depth) == CloseFrom(b, j, depth)
    decreases |a| - j
  {
    if j < |a| {
      assert Lower(a[j]) == Lower(b[j]);
      var next := if a[j] == '\\' && j + 1 < |a| then j + 2 else j + 1;
      CloseOfCase(a, b, next, depth);
      CloseOfCase(a, b, next, depth + 1);
      if depth > 1 {
        CloseOfCase(a, b, next, depth - 1);
      }
    }
  }

  lemma FindOfCase(a: string, b: string)
    requires SameButCase(a, b)
    ensures FindUrl(a) == FindUrl(b)
  {
    assert forall k: nat :: UrlAt(a, k) == UrlAt(b, k);
  }

  /** The scan depends on letter case only in the pieces it returns. */
  lemma {:induction false} ScanOfCase(a: string, b: string)
    requires SameButCase(a, b)
    ensures ScanCss(a).Tokens? == ScanCss(b).Tokens?
    decreases |a|
  {
    hide FindUrl, CloseFrom, UrlAt;
    FindOfCase(a, b);
    var k := FindUrl(a);
    if k >= 0 {
      assert k + 4 <= |a| by { FindsInside(a); }
      CloseOfCase(a[k + 4..], b[k + 4..], 0, 1);
      var j := CloseFrom(a[k + 4..], 0, 1);
      if j >= 0 {
        ScanOfCase(a[k + 4..][j + 1..], b[k + 4..][j + 1..]);
      }
    }
  }

  lemma FindsInside(s: string)
    ensures FindUrl(s) >= 0 ==> FindUrl(s) + 4 <= |s|
  {
  }

  /** A text is scanned to its end exactly when it is, up to letter case, the print of well-formed pieces. */
  lemma ScannedIff(css: string)
    ensures ScanCss(css).Tokens? <==> exists ps, tail :: WellFormed(ps, tail) && SameButCase(Render(ps, tail), css)
  {
    hide WellFormed, SameButCase, ScanCss, Render;
    if ScanCss(css).Tokens? {
      ScanIsWellFormed(css);
      RenderScan(css);
    } else if ps, tail :| WellFormed(ps, tail) && SameButCase(Render(ps, tail), css) {
      ScanRender(ps, tail);
      ScanOfCase(Render(ps, tail), css);
    }
  }

  lemma Reflexive(s: string)
    ensures SameButCase(s, s)
  {
  }
}
