/**
 extractCSSURLs of internal/repair/extract.go and its printer cssEscapeURL of
 internal/repair/rewrite.go: CSS escapes inside url(...) tokens.
 */
module CssExtract {
  import opened Collections
  import opened CssTokens
  import opened CssRewrite
  import opened Text

  /** Drop each backslash that escapes a byte. */
  function Unescape(c: string): string {
    if c == "" then ""
    else if c[0] == '\\' && |c| > 1 then [c[1]] + Unescape(c[2..])
    else [c[0]] + Unescape(c[1..])
  }

  /** The three trims applied to a decoded token. */
  function Clean(v: string): string {
    Trim(Trim(Trim(v, IsSpace), IsQuote), IsSpace)
  }

  function UrlsOf(pieces: seq<Piece>): seq<string> {
    if pieces == [] then []
    else
      var v := Clean(Unescape(pieces[0].content));
      (if v == "" then [] else [v]) + UrlsOf(pieces[1..])
  }

  /** None stands for the out-of-range slice that ends the program on an unclosed token. */
  function Extracted(css: string): Option<seq<string>> {
    match ScanCss(css)
    case Unclosed => None
    case Tokens(ps, _) => Some(UrlsOf(ps))
  }

  /** Extraction too ends on exactly the texts that are no print of closed tokens. */
  lemma ExtractsIff(css: string)
    ensures Extracted(css).Some? <==> exists ps, tail :: WellFormed(ps, tail) && SameButCase(Render(ps, tail), css)
  {
    ScannedIff(css);
  }

  ghost predicate Quotes(s: string) {
    forall i :: 0 <= i < |s| ==> IsQuote(s[i])
  }

  /** Space, quotes, and space inside the quotes do not matter to extraction. */
  lemma CleanIgnoresQuotes(a: string, q: string, b: string, u: string, c: string, r: string, d: string)
    requires Spaces(a) && Quotes(q) && Spaces(b) && Bare(u) && u != "" && Spaces(c) && Quotes(r) && Spaces(d)
    requires (q == "" ==> b == "") && (r == "" ==> c == "")
    ensures Clean(a + (q + (b + u + c) + r) + d) == u
  {
    hide IsSpace, IsQuote;
    QuoteOrSpace();
    var inner := b + u + c;
    var quoted := q + inner + r;
    QuotedEnds(q, b, u, c, r);
    TrimAround(a, quoted, d, IsSpace);
    TrimAround(q, inner, r, IsQuote);
    TrimAround(b, u, c, IsSpace);
  }

  lemma QuoteOrSpace()
    ensures forall c :: IsQuote(c) ==> !IsSpace(c)
  {
  }

  lemma QuotedEnds(q: string, b: string, u: string, c: string, r: string)
    requires Quotes(q) && Spaces(b) && Bare(u) && u != "" && Spaces(c) && Quotes(r)
    requires (q == "" ==> b == "") && (r == "" ==> c == "")
    ensures var inner := b + u + c;
      var quoted := q + inner + r;
      && inner != "" && !IsQuote(inner[0]) && !IsQuote(inner[|inner| - 1])
      && quoted != "" && !IsSpace(quoted[0]) && !IsSpace(quoted[|quoted| - 1])
  {
    hide IsSpace, IsQuote;
    QuoteOrSpace();
    var inner := b + u + c;
    assert inner[0] == if b == "" then u[0] else b[0];
    assert inner[|inner| - 1] == if c == "" then u[|u| - 1] else c[|c| - 1];
    var quoted := q + inner + r;
    assert quoted[0] == if q == "" then inner[0] else q[0];
    assert quoted[|quoted| - 1] == if r == "" then inner[|inner| - 1] else r[|r| - 1];
  }

  predicate MustEscape(c: char) {
    c == '(' || c == ')' || c == ',' || c == '\'' || c == '"' || c == '\\'
  }

  function Escape(s: string): string {
    if s == "" then "" else (if MustEscape(s[0]) then ['\\', s[0]] else [s[0]]) + Escape(s[1..])
  }

  /** A backslash is put before parentheses, commas, quotes and backslashes, and nothing else. */
  lemma EscapedIff(c: char)
    ensures Escape([c]) == (if c as int in {34, 39, 40, 41, 44, 92} then ['\\', c] else [c])
  {
    assert [c][1..] == "" && Escape("") == "";
  }

  // ---------- escaping and scanning ----------

  lemma {:induction false} UnescapeEscape(s: string)
    ensures Unescape(Escape(s)) == s
  {
    if s != "" {
      UnescapeEscape(s[1..]);
      var e := Escape(s);
      if MustEscape(s[0]) {
        assert e[2..] == Escape(s[1..]);
      } else {
        assert e[1..] == Escape(s[1..]);
      }
      assert [s[0]] + s[1..] == s;
    }
  }

  /** An escaped text after a prefix of length j does not close before its end. */
  lemma {:induction false} EscapedCloses(before: string, s: string)
    ensures CloseFrom(before + Escape(s) + ")", |before|, 1) == |before + Escape(s)|
    decreases |s|
  {
    var all := before + Escape(s) + ")";
    if s != "" {
      var head := if MustEscape(s[0]) then ['\\', s[0]] else [s[0]];
      assert all == before + head + Escape(s[1..]) + ")";
      EscapedCloses(before + head, s[1..]);
      assert all[|before|] == head[0];
    }
  }

  lemma EscapedIsWell(s: string)
    ensures WellContent(Escape(s))
  {
    EscapedCloses("", s);
    assert "" + Escape(s) + ")" == Escape(s) + ")";
  }

  // ---------- trimming ----------

  /** Non-empty, with no space or quote at either end. */
  predicate CleanEnds(u: string) {
    u != "" && !IsSpace(u[0]) && !IsQuote(u[0]) && !IsSpace(u[|u| - 1]) && !IsQuote(u[|u| - 1])
  }

  /** Trimming leaves a URL alone exactly when its ends are clean (or it is empty). */
  lemma CleanIff(u: string)
    ensures Clean(u) == u <==> u == "" || CleanEnds(u)
  {
    hide Trim;
    var a := Trim(u, IsSpace);
    var b := Trim(a, IsQuote);
    TrimShrinks(u, IsSpace);
    TrimShrinks(a, IsQuote);
    TrimShrinks(b, IsSpace);
    if u == "" || CleanEnds(u) {
      TrimNothing(u, IsSpace);
      TrimNothing(u, IsQuote);
    } else if !IsSpace(u[0]) && !IsSpace(u[|u| - 1]) {
      TrimNothing(u, IsSpace);
      assert |b| < |u|;
    }
  }

  // ---------- round trips ----------

  /** A stylesheet of tokens, each after a stretch of other text. */
  function Escaped(texts: seq<string>, urls: seq<string>): (r: seq<Piece>)
    requires |texts| == |urls|
    ensures |r| == |urls| && forall i :: 0 <= i < |urls| ==> r[i] == Piece(texts[i], Escape(urls[i]))
  {
    seq(|urls|, i requires 0 <= i < |urls| => Piece(texts[i], Escape(urls[i])))
  }

  lemma {:induction false} UrlsOfEscaped(texts: seq<string>, urls: seq<string>)
    requires |texts| == |urls| && forall i :: 0 <= i < |urls| ==> CleanEnds(urls[i])
    ensures UrlsOf(Escaped(texts, urls)) == urls
  {
    hide Clean, CleanEnds;
    if urls != [] {
      UrlsOfEscaped(texts[1..], urls[1..]);
      assert Escaped(texts, urls)[1..] == Escaped(texts[1..], urls[1..]);
      UnescapeEscape(urls[0]);
      CleanIff(urls[0]);
      NotEmpty(urls[0]);
      assert [urls[0]] + urls[1..] == urls;
    }
  }

  lemma NotEmpty(u: string)
    requires CleanEnds(u)
    ensures u != ""
  {
  }

  /** Extracting from a stylesheet of escaped tokens, with any text around them that contains no token of
      its own, returns exactly the list of URLs in order. */
  lemma ExtractEscape(texts: seq<string>, urls: seq<string>, tail: string)
    requires |texts| == |urls|
    requires forall i :: 0 <= i < |urls| ==> WellText(texts[i]) && CleanEnds(urls[i])
    requires FindUrl(tail) < 0
    ensures Extracted(Render(Escaped(texts, urls), tail)) == Some(urls)
  {
    hide WellText, FindUrl, CleanEnds, WellContent, Render, Escape;
    var ps := Escaped(texts, urls);
    forall i | 0 <= i < |ps| ensures WellText(ps[i].text) && WellContent(ps[i].content) {
      EscapedIsWell(urls[i]);
    }
    ScanRender(ps, tail);
    UrlsOfEscaped(texts, urls);
  }

  /** For one token: it comes back exactly when the URL is non-empty with clean ends. */
  lemma ExtractEscapeIff(u: string)
    ensures Extracted(Token(Escape(u))) == Some([u]) <==> CleanEnds(u)
  {
    hide FindUrl, WellContent, Escape, Clean, CloseFrom, ScanCss;
    EmptyIsWellText();
    EscapedIsWell(u);
    UnescapeEscape(u);
    CleanIff(u);
    var ps := [Piece("", Escape(u))];
    assert Render(ps, "") == Token(Escape(u)) by {
      assert ps[1..] == [];
      assert "" + Token(Escape(u)) + "" == Token(Escape(u));
    }
    ScanRender(ps, "");
    assert ps[1..] == [];
    var v := Clean(u);
    assert UrlsOf(ps) == if v == "" then [] else [v];
  }

  // ---------- extraction after localization ----------

  lemma {:induction false} UnescapePlain(s: string)
    requires forall i :: 0 <= i < |s| ==> s[i] != '\\'
    ensures Unescape(s) == s
  {
    if s != "" {
      UnescapePlain(s[1..]);
      assert [s[0]] + s[1..] == s;
    }
  }

  lemma QuotedIsClean(rel: string)
    requires CleanEnds(rel)
    ensures Clean("\"" + rel + "\"") == rel
  {
    var q := "\"" + rel + "\"";
    assert !IsSpace(q[0]) && !IsSpace(q[|q| - 1]);
    TrimNothing(q, IsSpace);
    assert q[1..] == rel + "\"" && TrimLeft(q, IsQuote) == TrimLeft(rel + "\"", IsQuote) == rel + "\"";
    assert (rel + "\"")[..|rel|] == rel;
    assert TrimRight(rel + "\"", IsQuote) == TrimRight(rel, IsQuote) == rel;
    TrimNothing(rel, IsSpace);
  }

  /** The reference a token stands for after rewriting: the local path where there is one. */
  function Seen(loc: Localize, content: string): string {
    if Rewrites(loc, content) then loc(Reference(content)).value else Clean(Unescape(content))
  }

  function SeenUrls(loc: Localize, pieces: seq<Piece>): seq<string> {
    if pieces == [] then []
    else
      var v := Seen(loc, pieces[0].content);
      (if v == "" then [] else [v]) + SeenUrls(loc, pieces[1..])
  }

  ghost predicate CleanPaths(loc: Localize) {
    forall u :: loc(u).Some? ==> CleanEnds(loc(u).value)
  }

  lemma SeenIsExtracted(loc: Localize, content: string)
    requires PlainPaths(loc) && CleanPaths(loc)
    ensures Clean(Unescape(NewContent(loc, content))) == Seen(loc, content)
  {
    hide Clean, Reference;
    if Rewrites(loc, content) {
      var rel := loc(Reference(content)).value;
      UnescapePlain("\"" + rel + "\"");
      QuotedIsClean(rel);
    }
  }

  lemma {:induction false} UrlsOfNewPieces(loc: Localize, pieces: seq<Piece>)
    requires PlainPaths(loc) && CleanPaths(loc)
    ensures UrlsOf(NewPieces(loc, pieces)) == SeenUrls(loc, pieces)
  {
    hide Clean, Unescape, NewContent, Seen, PlainPaths, CleanPaths;
    if pieces != [] {
      SeenIsExtracted(loc, pieces[0].content);
      UrlsOfNewPieces(loc, pieces[1..]);
      assert NewPieces(loc, pieces)[1..] == NewPieces(loc, pieces[1..]);
    }
  }

  /** The repair pass reads a localized stylesheet as intended: the local path for every localized token and
      the original URL for every other one, in order. */
  lemma ExtractAfterRewrite(loc: Localize, css: string)
    requires ScanCss(css).Tokens? && PlainPaths(loc) && CleanPaths(loc)
    ensures Extracted(Rewritten(loc, css).value) == Some(SeenUrls(loc, ScanCss(css).pieces))
  {
    hide PlainPaths, CleanPaths, Render;
    TokensPreserved(loc, css);
    UrlsOfNewPieces(loc, ScanCss(css).pieces);
  }

  // ---------- the loops ----------

  method CssEscapeURL(s: string) returns (out: string)
    ensures out == Escape(s)
  {
    hide MustEscape;
    out := "";
    assert s[0..] == s;
    for i := 0 to |s|
      invariant Escape(s) == out + Escape(s[i..])
    {
      assert s[i..][0] == s[i] && s[i..][1..] == s[i + 1..];
      assert Escape(s[i..]) == (if MustEscape(s[i]) then ['\\', s[i]] else [s[i]]) + Escape(s[i + 1..]);
      if MustEscape(s[i]) {
        out := out + ['\\', s[i]];
      } else {
        out := out + [s[i]];
      }
    }
  }

  lemma UnescapeNothing()
    ensures Unescape("") == ""
  {
  }

  lemma UnescapeOne(rest: string, i: nat, end: nat)
    requires i < end <= |rest| && (rest[i] == '\\' ==> i + 1 == end)
    ensures Unescape(rest[i..end]) == [rest[i]] + Unescape(rest[i + 1..end])
  {
    assert rest[i..end][1..] == rest[i + 1..end];
  }

  lemma UnescapePair(rest: string, i: nat, end: nat)
    requires i + 2 <= end <= |rest| && rest[i] == '\\'
    ensures Unescape(rest[i..end]) == [rest[i + 1]] + Unescape(rest[i + 2..end])
  {
    assert rest[i..end][2..] == rest[i + 2..end];
  }

  lemma Associate(a: string, b: string, c: string)
    ensures a + (b + c) == a + b + c
  {
  }

  /** The inner loop: decode up to the closing parenthesis, or to the end of the text. */
  method DecodeToken(rest: string) returns (i: nat, sb: string)
    ensures i <= |rest|
    ensures i == |rest| <==> CloseFrom(rest, 0, 1) < 0
    ensures i < |rest| ==> CloseFrom(rest, 0, 1) == i && sb == Unescape(rest[..i])
  {
    hide Unescape;
    sb, i := "", 0;
    var depth: nat := 1;
    ghost var end := CloseFrom(rest, 0, 1);
    assert end >= 0 ==> rest[0..end] == rest[..end];
    while i < |rest|
      invariant i <= |rest| && depth > 0 && CloseFrom(rest, i, depth) == end
      invariant end >= 0 ==> i <= end && Unescape(rest[..end]) == sb + Unescape(rest[i..end])
    {
      var ch := rest[i];
      if ch == '\\' && i + 1 < |rest| {
        if end >= 0 {
          UnescapePair(rest, i, end);
          Associate(sb, [rest[i + 1]], Unescape(rest[i + 2..end]));
        }
        sb := sb + [rest[i + 1]];
        i := i + 2;
        continue;
      }
      if ch == '(' {
        depth := depth + 1;
      } else if ch == ')' {
        if depth == 1 {
          UnescapeNothing();
          assert rest[i..end] == "" && sb + "" == sb;
          return;
        }
        depth := depth - 1;
      }
      if end >= 0 {
        UnescapeOne(rest, i, end);
        Associate(sb, [ch], Unescape(rest[i + 1..end]));
      }
      sb := sb + [ch];
      i := i + 1;
    }
  }

  function Joined(found: seq<string>, r: Option<seq<string>>): Option<seq<string>> {
    if r.None? then None else Some(found + r.value)
  }

  lemma JoinedNothing(r: Option<seq<string>>)
    ensures Joined([], r) == r
  {
    assert r.Some? ==> [] + r.value == r.value;
  }

  lemma JoinedTwice(a: seq<string>, b: seq<string>, r: Option<seq<string>>)
    ensures Joined(a, Joined(b, r)) == Joined(a + b, r)
  {
    assert r.Some? ==> a + (b + r.value) == a + b + r.value;
  }

  method ExtractCSSURLs(text: string) returns (urls: Option<seq<string>>)
    ensures urls == Extracted(text)
  {
    hide FindUrl, CloseFrom, Unescape, Clean;
    var css := text;
    var found: seq<string> := [];
    JoinedNothing(Extracted(text));
    while true
      invariant Extracted(text) == Joined(found, Extracted(css))
      decreases |css|
    {
      var idx := FindUrl(css);
      if idx < 0 {
        assert found + [] == found;
        return Some(found);
      }
      var rest := css[idx + 4..];
      var i, sb := DecodeToken(rest);
      if i + 1 > |rest| {
        return None;  // the next slice is out of range
      }
      var val := Clean(sb);
      JoinedTwice(found, if val == "" then [] else [val], Extracted(rest[i + 1..]));
      assert found + [] == found;
      if val != "" {
        found := found + [val];
      }
      css := rest[i + 1..];
    }
  }

}
