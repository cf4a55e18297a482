/**
 The pages of a clone as Dedup of internal/localize/dedup.go sees them: canonical key,
 clean weight and noise of the URL that a saved file is read back as.

 A file is the list of its path segments, the host first.  Its URL has no query, and
 parsing it gives back the path below the host.  Two URLs that url.URL.String prints
 differ exactly when their hosts or decoded paths do, so keys are compared unprinted.
 */
module Pages {
  import opened Canonical
  import opened Dedup
  import opened Segments
  import opened Text

  type Path = seq<string>

  const NOISE_PREFIXES := [
    "/wp-json", "/rest/", "/wp-admin", "/wp-login", "/wp-cron", "/wp-includes/",
    "/xmlrpc", "/feed", "/cart", "/checkout", "/my-account", "/wc-api",
    "/wc-ajax", "/addons", "/robots.txt", "/sitemap", "/wp-sitemap",
    "/oembed/", "/.well-known", "/feed/"
  ]

  predicate IsNoise(path: string) {
    exists i :: 0 <= i < |NOISE_PREFIXES| && NOISE_PREFIXES[i] <= LowerAll(path)
  }

  predicate Contains(s: string, sub: string) {
    sub <= s || (s != "" && Contains(s[1..], sub))
  }

  function CleanWeight(path: string): nat {
    if Contains(path, "/page/") || Contains(path, "/comment-page") then 5 else 0
  }

  /** A file name with the extension .html or .htm. */
  predicate IsHtml(name: string) {
    var l := LowerAll(name);
    (|l| >= 5 && l[|l| - 5..] == ".html") || (|l| >= 4 && l[|l| - 4..] == ".htm")
  }

  function FileOf(preserved: set<string>, p: Path): File
    requires |p| >= 2
  {
    var path := "/" + Join(p[1..]);
    File(Join(p), IsHtml(p[|p| - 1]), IsNoise(path), p[0] + CanonicalPath(preserved, path), CleanWeight(path))
  }

  lemma KeyOf(preserved: set<string>, host: string, segs: seq<string>)
    requires Proper(segs)
    ensures FileOf(preserved, [host] + segs).key == host + ("/" + Join(KeptSegments(preserved, segs)))
  {
    CanonicalProper(preserved, segs);
    assert ([host] + segs)[1..] == segs;
  }

  /** Two pages of a host have the same key exactly when the same segments of their paths are kept. */
  lemma SameKeyIff(preserved: set<string>, host: string, a: seq<string>, b: seq<string>)
    requires Proper(a) && Proper(b)
    ensures FileOf(preserved, [host] + a).key == FileOf(preserved, [host] + b).key <==>
      KeptSegments(preserved, a) == KeptSegments(preserved, b)
  {
    hide Join, FileOf, CanonicalPath;
    var ka, kb := KeptSegments(preserved, a), KeptSegments(preserved, b);
    KeyOf(preserved, host, a);
    KeyOf(preserved, host, b);
    KeptProper(preserved, "", a);
    KeptProper(preserved, "", b);
    if Join(ka) == Join(kb) {
      JoinNothing();
      if ka != [] {
        ProperEnds(ka);
      }
      if kb != [] {
        ProperEnds(kb);
      }
      if ka != [] && kb != [] {
        JoinInjective(ka, kb);
      }
    }
    var x, y := host + ("/" + Join(ka)), host + ("/" + Join(kb));
    assert x[|host|..][1..] == Join(ka) && y[|host|..][1..] == Join(kb);
  }

  /** A page of a paginated document, such as dir/page/2/index.html beside dir/index.html, falls into the document's
      group exactly when no preserved name stands in the way. */
  lemma PageInDocumentGroupIff(preserved: set<string>, host: string, segs: seq<string>, marker: string,
                               number: string, rest: seq<string>)
    requires Proper(segs + [marker, number] + rest) && rest != []
    requires IsMarker(Fold(marker)) && IsInt64(Fold(number)) && "" !in preserved
    requires !IsMarker(Fold(rest[0])) && !IsInt64(Fold(rest[0]))
    ensures var page, document := [host] + (segs + [marker, number] + rest), [host] + (segs + rest);
      FileOf(preserved, page).key == FileOf(preserved, document).key <==>
      && Fold(marker) !in preserved && Fold(number) !in preserved
      && (segs == [] || Fold(segs[|segs| - 1]) !in preserved)
  {
    hide IsMarker, IsInt64, Fold, FileOf, KeptSegments;
    var page := segs + [marker, number] + rest;
    assert Proper(segs + rest) by {
      assert forall i :: 0 <= i < |segs| ==> (segs + rest)[i] == page[i];
      assert forall i :: |segs| <= i < |segs + rest| ==> (segs + rest)[i] == page[i + 2];
    }
    PaginationVanishesIff(preserved, segs, marker, number, rest);
    SameKeyIff(preserved, host, page, segs + rest);
  }

  /** Then only one of the two is kept, and never the one that weighs more. */
  lemma HeavierIsNotKept(files: seq<File>, f: File, g: File)
    requires DistinctPaths(files) && f in files && g in files && f.key == g.key && f.weight < g.weight
    requires Competes(f, f.key) && Competes(g, g.key)
    ensures var groups := VisitAll(files).groups;
      g.key in groups && forall k :: k in groups ==> groups[k].rep != g
  {
    VisitAllGroups(files);
  }

  lemma {:induction false} ContainsAt(a: string, sub: string, b: string)
    ensures Contains(a + sub + b, sub)
  {
    var s := a + sub + b;
    if a == "" {
      assert s[..|sub|] == sub;
    } else {
      ContainsAt(a[1..], sub, b);
      assert s[1..] == a[1..] + sub + b;
    }
  }

  /** A path through a directory named page weighs 5. */
  lemma PageWeighs(segs: seq<string>, number: string, rest: seq<string>)
    requires rest != []
    ensures CleanWeight("/" + Join(segs + ["page", number] + rest)) == 5
  {
    hide Join;
    var all := segs + ["page", number] + rest;
    var tail := [number] + rest;
    assert all == segs + (["page"] + tail);
    JoinOne("page");
    JoinConcat(["page"], tail);
    var before := if segs == [] then "" else "/" + Join(segs);
    if segs != [] {
      JoinConcat(segs, ["page"] + tail);
    } else {
      assert [] + (["page"] + tail) == ["page"] + tail;
    }
    assert "/" + Join(all) == before + "/page/" + Join(tail);
    ContainsAt(before, "/page/", Join(tail));
  }

  lemma PrefixStart(sub: string, s: string)
    requires |sub| >= 2
    ensures sub <= s ==> |s| >= 2 && s[0] == sub[0] && s[1] == sub[1]
  {
  }

  lemma {:induction false} WeighsNothing(s: string)
    requires forall i :: 0 <= i < |s| - 1 && s[i] == '/' ==> s[i + 1] != 'p' && s[i + 1] != 'c'
    ensures CleanWeight(s) == 0
  {
    if s != "" {
      WeighsNothing(s[1..]);
    }
    PrefixStart("/page/", s);
    PrefixStart("/comment-page", s);
  }

  /** filepath.Walk visits a directory's entries in lexical order, so x/comment-page-1/index.html comes before
      x/index.html.  The manifest then lists the kept page as collapsed, and the other one nowhere. */
  lemma WalkMisreports(host: string)
    ensures LexLess("comment-page-1", INDEX)
    ensures var page, doc := FileOf({}, [host, "x", "comment-page-1", INDEX]), FileOf({}, [host, "x", INDEX]);
      && page.key == doc.key && Competes(page, page.key) && Competes(doc, doc.key)
      && VisitAll([page, doc]).groups[doc.key] == Group(doc, [doc.rel])
  {
    hide IsMarker, IsInt64, Fold, KeptSegments;
    var segs, page, doc := ["x"], ["x", "comment-page-1", INDEX], ["x", INDEX];
    assert Proper(page) && Proper(doc);
    SameKept();
    SameKeyIff({}, host, page, doc);
    assert [host] + page == [host, "x", "comment-page-1", INDEX] && [host] + doc == [host, "x", INDEX];
    PageFacts(host);
    ManifestDependsOnOrder(FileOf({}, [host] + doc), FileOf({}, [host] + page), FileOf({}, [host] + doc).key);
  }

  const INDEX := "index.html"

  /** A marker alone vanishes too. */
  lemma MarkerVanishes(segs: seq<string>, marker: string, rest: seq<string>)
    requires IsMarker(Fold(marker)) && rest != [] && !IsMarker(Fold(rest[0])) && !IsInt64(Fold(rest[0]))
    ensures KeptSegments({}, segs + [marker] + rest) == KeptSegments({}, segs + rest)
  {
    hide IsMarker, IsInt64, Fold;
    var last := if segs == [] then "" else segs[|segs| - 1];
    KeptConcat({}, "", segs + [marker], rest);
    KeptConcat({}, "", segs, [marker]);
    KeptConcat({}, "", segs, rest);
    EmptyIsNoMarker();
    assert [marker][1..] == [];
    assert KeptAfter({}, last, [marker]) == [];
    var base := KeptSegments({}, segs);
    assert base + [] == base;
  }

  lemma SameKept()
    ensures KeptSegments({}, ["x", "comment-page-1", INDEX]) == KeptSegments({}, ["x", INDEX])
  {
    hide IsInt64, KeptSegments, Fold;
    FoldsToItself("comment-page-1");
    FoldsToItself(INDEX);
    IndexIsOrdinary();
    assert MARKERS[2] + "-" == "comment-page-" <= "comment-page-1";
    MarkerVanishes(["x"], "comment-page-1", [INDEX]);
    assert ["x"] + ["comment-page-1"] + [INDEX] == ["x", "comment-page-1", INDEX] && ["x"] + [INDEX] == ["x", INDEX];
  }

  lemma IndexIsOrdinary()
    ensures !IsMarker(INDEX) && !IsInt64(INDEX)
  {
    assert INDEX[0] == 'i' && forall i :: 0 <= i < |MARKERS| ==> MARKERS[i][0] != 'i';
  }

  lemma PageFacts(host: string)
    ensures var page, doc := FileOf({}, [host] + ["x", "comment-page-1", INDEX]), FileOf({}, [host] + ["x", INDEX]);
      && page.html && !page.noise && page.weight == 5
      && doc.html && !doc.noise && doc.weight == 0
  {
    hide CanonicalPath, CleanWeight, IsNoise, IsHtml, Join;
    var p, d := [host] + ["x", "comment-page-1", INDEX], [host] + ["x", INDEX];
    assert p[1..] == ["x", "comment-page-1", INDEX] && d[1..] == ["x", INDEX];
    Joined();
    PageIsHeavy();
    DocIsLight();
    NoNoiseUnderX("/x/comment-page-1/index.html");
    NoNoiseUnderX("/x/index.html");
    IndexIsHtml();
  }

  lemma Joined()
    ensures "/" + Join(["x", INDEX]) == "/x/index.html"
    ensures "/" + Join(["x", "comment-page-1", INDEX]) == "/x/comment-page-1/index.html"
  {
    hide Join;
    JoinOne("x");
    JoinOne("comment-page-1");
    JoinOne(INDEX);
    JoinConcat(["x"], [INDEX]);
    JoinConcat(["x"], ["comment-page-1"] + [INDEX]);
    JoinConcat(["comment-page-1"], [INDEX]);
    assert ["x"] + [INDEX] == ["x", INDEX] && ["x"] + (["comment-page-1"] + [INDEX]) == ["x", "comment-page-1", INDEX];
  }

  lemma PageIsHeavy()
    ensures CleanWeight("/x/comment-page-1/index.html") == 5
  {
    hide Contains;
    ContainsAt("/x", "/comment-page", "-1/index.html");
    assert "/x" + "/comment-page" + "-1/index.html" == "/x/comment-page-1/index.html";
  }

  lemma DocIsLight()
    ensures CleanWeight("/x/index.html") == 0
  {
    hide CleanWeight;
    WeighsNothing("/x/index.html");
  }

  lemma NoNoiseUnderX(path: string)
    requires |path| >= 2 && path[1] == 'x' && (|path| > 2 ==> path[2] == '/')
    ensures !IsNoise(path)
  {
    assert LowerAll(path)[1] == 'x';
    assert |path| > 2 ==> LowerAll(path)[2] == '/';
    forall i | 0 <= i < |NOISE_PREFIXES|
      ensures |NOISE_PREFIXES[i]| > 2 && (NOISE_PREFIXES[i][1] != 'x' || NOISE_PREFIXES[i][2] != '/')
    {
    }
  }

  lemma IndexIsHtml()
    ensures IsHtml(INDEX)
  {
    assert LowerAll(INDEX) == INDEX && INDEX[|INDEX| - 5..] == ".html";
  }
}
