/**
 rewriteCSSRefs of internal/localize/css.go after its @import pass: every url(...)
 token whose reference has a local file is replaced by the quoted local path.
 */
module CssRewrite {
  import opened Collections
  import opened CssTokens
  import opened Text

  /** Looking up a reference: the relative local path, if there is one. */
  type Localize = string -> Option<string>

  /** The reference inside a token's raw content. */
  function Reference(content: string): string {
    Trim(Trim(content, IsSpace), IsQuoteOrSpace)
  }

  // ---------- the rewriting, on scanned pieces ----------

  predicate Rewrites(loc: Localize, content: string) {
    var u := Reference(content);
    u != "" && !("data:" <= u) && loc(u).Some?
  }

  function NewContent(loc: Localize, content: string): string {
    if Rewrites(loc, content) then "\"" + loc(Reference(content)).value + "\"" else content
  }

  function NewPieces(loc: Localize, pieces: seq<Piece>): (r: seq<Piece>)
    ensures |r| == |pieces|
    ensures forall i :: 0 <= i < |pieces| ==> r[i] == Piece(pieces[i].text, NewContent(loc, pieces[i].content))
  {
    if pieces == [] then []
    else [Piece(pieces[0].text, NewContent(loc, pieces[0].content))] + NewPieces(loc, pieces[1..])
  }

  /** None stands for the out-of-range slice that ends the program on an unclosed token. */
  function Rewritten(loc: Localize, css: string): Option<string> {
    match ScanCss(css)
    case Unclosed => None
    case Tokens(ps, tail) => Some(Render(NewPieces(loc, ps), tail))
  }

  /** The program ends on exactly the texts that are not, up to letter case, a print of closed tokens. */
  lemma RewritesIff(loc: Localize, css: string)
    ensures Rewritten(loc, css).Some? <==> exists ps, tail :: WellFormed(ps, tail) && SameButCase(Render(ps, tail), css)
  {
    ScannedIff(css);
  }

  /** The smallest text it ends on. */
  lemma UnclosedEnds(loc: Localize)
    ensures Rewritten(loc, "url(").None?
  {
    UrlIsUrl();
  }

  // ---------- what a token refers to ----------

  ghost predicate Spaces(s: string) {
    forall i :: 0 <= i < |s| ==> IsSpace(s[i])
  }

  /** No space and no quote at either end. */
  predicate Bare(u: string) {
    u != "" ==> !IsSpace(u[0]) && !IsQuote(u[0]) && !IsSpace(u[|u| - 1]) && !IsQuote(u[|u| - 1])
  }

  /** Quotes of either kind and space around them do not matter: url(a), url("a") and url( 'a' ) refer to a. */
  lemma QuotesIgnored(a: string, quote: string, u: string, b: string)
    requires Spaces(a) && Spaces(b) && Bare(u) && (quote == "" || quote == "\"" || quote == "'")
    ensures Reference(a + quote + u + quote + b) == u
  {
    hide IsSpace;
    var inner := quote + u + quote;
    QuotesAreNoSpace();
    assert a + quote + u + quote + b == a + inner + b;
    TrimAround(a, inner, b, IsSpace);
    assert forall i :: 0 <= i < |quote| ==> IsQuoteOrSpace(quote[i]);
    if u != "" {
      BareEnds(u);
    }
    TrimAround(quote, u, quote, IsQuoteOrSpace);
  }

  lemma QuotesAreNoSpace()
    ensures !IsSpace('"') && !IsSpace('\'') && IsSpace(' ')
  {
  }

  lemma BareEnds(u: string)
    requires Bare(u) && u != ""
    ensures !IsQuoteOrSpace(u[0]) && !IsQuoteOrSpace(u[|u| - 1])
  {
    hide IsSpace;
    QuotesAreNoSpace();
  }

  /** So what is written for a token depends on what it refers to alone: the quoted local path, if the reference has one
      and is neither empty nor a data URL; otherwise the token stays. */
  lemma QuotedRewrite(loc: Localize, a: string, quote: string, u: string, b: string)
    requires Spaces(a) && Spaces(b) && Bare(u) && (quote == "" || quote == "\"" || quote == "'")
    ensures var content := a + quote + u + quote + b;
      NewContent(loc, content) ==
        if u == "" || "data:" <= u || loc(u).None? then content else "\"" + loc(u).value + "\""
  {
    QuotesIgnored(a, quote, u, b);
  }

  // ---------- meaning is preserved ----------

  predicate Plain(c: char) {
    c != '(' && c != ')' && c != '\\' && c != '"' && c != '\''
  }

  ghost predicate PlainPaths(loc: Localize) {
    forall u, i :: loc(u).Some? && 0 <= i < |loc(u).value| ==> Plain(loc(u).value[i])
  }

  lemma {:induction false} NoParensCloses(c: string, j: nat)
    requires j <= |c| && forall i :: 0 <= i < |c| ==> c[i] != '(' && c[i] != ')' && c[i] != '\\'
    ensures CloseFrom(c + ")", j, 1) == |c|
    decreases |c| - j
  {
    if j < |c| {
      NoParensCloses(c, j + 1);
    }
  }

  lemma PlainIsWell(rel: string)
    requires forall i :: 0 <= i < |rel| ==> Plain(rel[i])
    ensures WellContent("\"" + rel + "\"")
  {
    NoParensCloses("\"" + rel + "\"", 0);
  }

  /** Every token that is rewritten gets a content that closes at its end. */
  ghost predicate NewTokensClose(loc: Localize, pieces: seq<Piece>) {
    forall i :: 0 <= i < |pieces| && Rewrites(loc, pieces[i].content) ==>
        WellContent(NewContent(loc, pieces[i].content))
  }

  /** Exactly when the rewritten text scans to the same text stretches and as many tokens in the same order,
      each with the quoted local path or its original content: when each quoted path closes at its end. */
  lemma TokensPreservedIff(loc: Localize, css: string)
    requires ScanCss(css).Tokens?
    ensures var Tokens(ps, tail) := ScanCss(css);
      ScanCss(Rewritten(loc, css).value) == Tokens(NewPieces(loc, ps), tail) <==> NewTokensClose(loc, ps)
  {
    hide WellText, WellContent, FindUrl, Rewrites, Render;
    var Tokens(ps, tail) := ScanCss(css);
    var qs := NewPieces(loc, ps);
    ScanIsWellFormed(css);
    if NewTokensClose(loc, ps) {
      forall i | 0 <= i < |qs| ensures WellText(qs[i].text) && WellContent(qs[i].content) {
        assert WellText(ps[i].text) && WellContent(ps[i].content);
        assert qs[i] == Piece(ps[i].text, NewContent(loc, ps[i].content));
      }
      ScanRender(qs, tail);
    }
    if ScanCss(Render(qs, tail)) == Tokens(qs, tail) {
      ScanIsWellFormed(Render(qs, tail));
      forall i | 0 <= i < |ps| ensures WellContent(NewContent(loc, ps[i].content)) {
        assert qs[i] == Piece(ps[i].text, NewContent(loc, ps[i].content));
      }
    }
  }

  /** With plain local paths the rewriting always preserves the token structure. */
  lemma TokensPreserved(loc: Localize, css: string)
    requires ScanCss(css).Tokens? && PlainPaths(loc)
    ensures ScanCss(Rewritten(loc, css).value) == Tokens(NewPieces(loc, ScanCss(css).pieces), ScanCss(css).tail)
  {
    hide WellContent;
    var ps := ScanCss(css).pieces;
    TokensPreservedIff(loc, css);
    forall i | 0 <= i < |ps| && Rewrites(loc, ps[i].content) ensures WellContent(NewContent(loc, ps[i].content)) {
      PlainIsWell(loc(Reference(ps[i].content)).value);
    }
  }

  /** A local path with an unbalanced parenthesis breaks it: the token closes early. */
  lemma ParenthesisBreaksToken(loc: Localize)
    requires loc("x") == Some("a)b")
    ensures ScanCss("url(x)") == Tokens([Piece("", "x")], "")
    ensures ScanCss(Rewritten(loc, "url(x)").value) != Tokens(NewPieces(loc, [Piece("", "x")]), "")
  {
    hide FindUrl, CloseFrom, Render, ScanCss, NewContent, WellContent, Rewrites;
    var ps := [Piece("", "x")];
    ScanOfX();
    XIsRewritten(loc);
    TokensPreservedIff(loc, "url(x)");
    assert !NewTokensClose(loc, ps) by {
      assert ps[0].content == "x";
      ClosesEarly();
    }
  }

  lemma ScanOfX()
    ensures ScanCss("url(x)") == Tokens([Piece("", "x")], "")
  {
    hide FindUrl, CloseFrom;
    ScanOne("x", "");
    assert Token("x") + "" == "url(x)";
    assert ScanCss("") == Tokens([], "");
  }

  lemma XIsRewritten(loc: Localize)
    requires loc("x") == Some("a)b")
    ensures Rewrites(loc, "x") && NewContent(loc, "x") == "\"a)b\""
  {
  }

  lemma ClosesEarly()
    ensures !WellContent("\"a)b\"")
  {
    var s := "\"a)b\"" + ")";
    assert CloseFrom(s, 2, 1) == 2;
    assert CloseFrom(s, 1, 1) == 2;
  }

  lemma EmptyIsWellText()
    ensures WellText("")
  {
  }

  lemma ScanOne(c: string, more: string)
    requires forall i :: 0 <= i < |c| ==> c[i] != '(' && c[i] != ')' && c[i] != '\\'
    ensures ScanCss(Token(c) + more) == Cons(Piece("", c), ScanCss(more))
  {
    hide FindUrl, ScanCss, CloseFrom;
    NoParensCloses(c, 0);
    EmptyIsWellText();
    UrlIsUrl();
    ScanHead("", "url(", c, more);
    assert Token(c) + more == "" + ("url(" + (c + ")" + more));
  }

  /** Nothing to localize: the text comes back unchanged but for the letter case of "url(". */
  lemma NothingToLocalize(loc: Localize, css: string)
    requires ScanCss(css).Tokens? && forall u :: loc(u).None?
    ensures SameButCase(Rewritten(loc, css).value, css)
  {
    assert NewPieces(loc, ScanCss(css).pieces) == ScanCss(css).pieces;
    RenderScan(css);
  }

  // ---------- the loop ----------

  function Prefixed(s: string, r: Option<string>): Option<string> {
    if r.None? then None else Some(s + r.value)
  }

  lemma PrefixedNothing(r: Option<string>)
    ensures Prefixed("", r) == r
  {
    assert r.Some? ==> "" + r.value == r.value;
  }

  lemma PrefixedTwice(a: string, b: string, r: Option<string>)
    ensures Prefixed(a, Prefixed(b, r)) == Prefixed(a + b, r)
  {
    assert r.Some? ==> a + (b + r.value) == a + b + r.value;
  }

  /** One token further. */
  lemma RewriteStep(loc: Localize, css: string, k: nat, j: nat)
    requires FindUrl(css) == k && CloseFrom(css[k + 4..], 0, 1) == j
    ensures k + 4 + j + 1 <= |css|
    ensures Rewritten(loc, css) ==
      Prefixed(css[..k] + Token(NewContent(loc, css[k + 4..][..j])), Rewritten(loc, css[k + 4 + j + 1..]))
  {
    hide FindUrl, CloseFrom, NewContent, NewPieces, Render;
    var rest := css[k + 4..];
    assert rest[j + 1..] == css[k + 4 + j + 1..];
    match ScanCss(rest[j + 1..])
    case Unclosed =>
    case Tokens(ps, tail) => RenderNext(loc, Piece(css[..k], rest[..j]), ps, tail);
  }

  lemma RenderNext(loc: Localize, p: Piece, ps: seq<Piece>, tail: string)
    ensures Render(NewPieces(loc, [p] + ps), tail) ==
      p.text + Token(NewContent(loc, p.content)) + Render(NewPieces(loc, ps), tail)
  {
    hide NewContent;
    assert ([p] + ps)[1..] == ps;
    var q := Piece(p.text, NewContent(loc, p.content));
    assert ([q] + NewPieces(loc, ps))[1..] == NewPieces(loc, ps);
  }

  method RewriteCSSRefs(loc: Localize, css: string) returns (out: Option<string>)
    ensures out == Rewritten(loc, css)
  {
    hide NewContent, Rewritten, CloseFrom, FindUrl, Reference, Token;
    var sb := "";
    var i := 0;
    assert css[0..] == css;
    PrefixedNothing(Rewritten(loc, css));
    while true
      invariant 0 <= i <= |css|
      invariant Rewritten(loc, css) == Prefixed(sb, Rewritten(loc, css[i..]))
      decreases |css| - i
    {
      var idx := FindUrl(css[i..]);
      if idx < 0 {
        sb := sb + css[i..];
        NoToken(loc, css[i..]);
        return Some(sb);
      }
      idx := idx + i;
      var rest := css[idx + 4..];
      assert rest == css[i..][idx - i + 4..] && css[i..idx] == css[i..][..idx - i];
      var j := CloseScan(rest);
      var content := rest[..j];
      var urlStr := Reference(content);
      ghost var before := sb;
      sb := sb + css[i..idx];
      if urlStr != "" && !("data:" <= urlStr) && loc(urlStr).Some? {
        sb := sb + "url(\"" + loc(urlStr).value + "\")";
      } else {
        sb := sb + "url(" + content + ")";
      }
      if idx + 4 + j + 1 > |css| {
        UnclosedToken(loc, css[i..]);
        return None;  // the next slice is out of range
      }
      RewriteStep(loc, css[i..], idx - i, j);
      assert css[i..][idx - i + 4 + j + 1..] == css[idx + 4 + j + 1..];
      Written(loc, before, css[i..idx], content, sb);
      PrefixedTwice(before, css[i..idx] + Token(NewContent(loc, content)), Rewritten(loc, css[idx + 4 + j + 1..]));
      i := idx + 4 + j + 1;
    }
  }

  lemma NoToken(loc: Localize, css: string)
    requires FindUrl(css) < 0
    ensures Rewritten(loc, css) == Some(css)
  {
  }

  lemma UnclosedToken(loc: Localize, css: string)
    requires FindUrl(css) >= 0 && CloseFrom(css[FindUrl(css) + 4..], 0, 1) < 0
    ensures Rewritten(loc, css) == None
  {
  }

  /** What the loop appended is the text and the new token. */
  lemma Written(loc: Localize, before: string, text: string, content: string, sb: string)
    requires sb == before + text + (if Rewrites(loc, content) then "url(\"" + loc(Reference(content)).value + "\")"
                                    else "url(" + content + ")")
    ensures sb == before + (text + Token(NewContent(loc, content)))
  {
  }

  /** The inner loop: the closing parenthesis, or the end of the text. */
  method CloseScan(rest: string) returns (j: nat)
    ensures j <= |rest|
    ensures j < |rest| ==> CloseFrom(rest, 0, 1) == j
    ensures j == |rest| ==> CloseFrom(rest, 0, 1) < 0
  {
    j := 0;
    var depth: nat := 1;
    while j < |rest|
      invariant j <= |rest| && depth > 0
      invariant CloseFrom(rest, j, depth) == CloseFrom(rest, 0, 1)
    {
      var ch := rest[j];
      if ch == '\\' && j + 1 < |rest| {
        j := j + 2;
        continue;
      }
      if ch == '(' {
        depth := depth + 1;
      } else if ch == ')' {
        if depth == 1 {
          return;
        }
        depth := depth - 1;
      }
      j := j + 1;
    }
  }
}
