/**
 The names behind the rules for duplicate pages (internal/localize/canonical.go), in terms
 of the segments of a path and the keys of a query: which paths are noise, which files are
 pages, which pages weigh more, what counts as a marker and a page number, and which query
 items are dropped.
 */
module PageRules {
  import opened Canonical
  import opened Collections
  import opened Pages
  import opened Percent
  import opened Segments
  import opened Text
  import Cron

  // ---------- text ----------

  lemma LowerConcat(a: string, b: string)
    ensures LowerAll(a + b) == LowerAll(a) + LowerAll(b)
  {
  }

  lemma LowerSlash(s: string)
    ensures '/' in LowerAll(s) <==> '/' in s
  {
    if '/' in s {
      var i :| 0 <= i < |s| && s[i] == '/';
      assert LowerAll(s)[i] == '/';
    }
    if '/' in LowerAll(s) {
      var i :| 0 <= i < |s| && LowerAll(s)[i] == '/';
      assert s[i] == '/';
    }
  }

  /** A path from its first segment: nothing more, or a slash and the others. */
  function Rest(segs: seq<string>): string
    requires segs != []
  {
    if |segs| == 1 then "" else "/" + Join(segs[1..])
  }

  lemma FirstSegment(segs: seq<string>)
    requires segs != []
    ensures "/" + Join(segs) == "/" + segs[0] + Rest(segs)
    ensures Rest(segs) == "" || Rest(segs)[0] == '/'
  {
  }

  /** A prefix without a slash lies in the first segment. */
  lemma PrefixInFirst(t: string, s: string, rest: string)
    requires '/' !in t && (rest == "" || rest[0] == '/')
    ensures t <= s + rest <==> t <= s
  {
    var all := s + rest;
    assert rest != "" ==> all[|s|] == '/';
    assert forall i :: 0 <= i < |s| ==> all[i] == s[i];
    assert t <= all ==> forall i :: 0 <= i < |t| ==> t[i] == all[i] != '/';
  }

  /** A prefix that ends with its only slash is a whole first segment. */
  lemma PrefixIsFirst(t: string, s: string, rest: string)
    requires '/' !in t && '/' !in s && (rest == "" || rest[0] == '/')
    ensures t + "/" <= s + rest <==> t == s && rest != ""
  {
    var all, u := s + rest, t + "/";
    assert rest != "" ==> all[|s|] == '/';
    assert forall i :: 0 <= i < |s| ==> all[i] == s[i] != '/';
    assert u[|t|] == '/' && forall i :: 0 <= i < |t| ==> u[i] == t[i] != '/';
    assert u <= all ==> forall i :: 0 <= i < |u| ==> u[i] == all[i];
  }

  // ---------- noise ----------

  /** First segments that make a path noise whatever follows them, and those that do only as directories. */
  predicate NoiseSegment(first: string, more: bool) {
    || Word("", first) || Shop("", first) || Account("", first) || Map("", first)
    || (more && (first == "rest" || first == "wp-includes" || first == "oembed"))
  }

  /** A path is noise exactly by its first segment in lower case. */
  lemma NoiseIff(segs: seq<string>)
    requires segs != [] && '/' !in segs[0]
    ensures IsNoise("/" + Join(segs)) <==> NoiseSegment(LowerAll(segs[0]), |segs| > 1)
  {
    hide *;
    var first, rest := LowerAll(segs[0]), LowerAll(Rest(segs));
    LowerPath(segs);
    LowerSlash(segs[0]);
    NoisePrefixes(first, rest);
    NoiseMeans("/" + Join(segs));
  }

  lemma NoiseMeans(path: string)
    ensures IsNoise(path) <==> Listed(LowerAll(path))
  {
  }

  lemma LowerPath(segs: seq<string>)
    requires segs != []
    ensures var first, rest := LowerAll(segs[0]), LowerAll(Rest(segs));
      && LowerAll("/" + Join(segs)) == "/" + first + rest
      && (rest == "" || rest[0] == '/') && (rest != "" <==> |segs| > 1)
  {
    hide Join;
    FirstSegment(segs);
    LowerConcat("/" + segs[0], Rest(segs));
    LowerConcat("/", segs[0]);
    assert LowerAll("/") == "/";
  }

  ghost predicate Listed(lower: string) {
    exists i :: 0 <= i < |NOISE_PREFIXES| && NOISE_PREFIXES[i] <= lower
  }

  // The listed prefixes, in five groups.

  predicate Word(slash: string, s: string) {
    slash + "wp-json" <= s || slash + "wp-admin" <= s || slash + "wp-login" <= s || slash + "wp-cron" <= s
  }

  predicate Shop(slash: string, s: string) {
    slash + "xmlrpc" <= s || slash + "feed" <= s || slash + "cart" <= s || slash + "checkout" <= s
  }

  predicate Account(slash: string, s: string) {
    slash + "my-account" <= s || slash + "wc-api" <= s || slash + "wc-ajax" <= s || slash + "addons" <= s
  }

  predicate Map(slash: string, s: string) {
    slash + "robots.txt" <= s || slash + "sitemap" <= s || slash + "wp-sitemap" <= s || slash + ".well-known" <= s
  }

  predicate Directories(s: string) {
    "/" + "rest" + "/" <= s || "/" + "wp-includes" + "/" <= s || "/" + "oembed" + "/" <= s
  }

  lemma Unlisted(lower: string)
    ensures Listed(lower) <==>
      Word("/", lower) || Shop("/", lower) || Account("/", lower) || Map("/", lower) || Directories(lower)
  {
    hide Word, Shop, Account, Map, Directories, Listed;
    if Listed(lower) {
      Tabled(lower);
    } else {
      Covered(lower);
    }
  }

  lemma Tabled(lower: string)
    requires Listed(lower)
    ensures Word("/", lower) || Shop("/", lower) || Account("/", lower) || Map("/", lower) || Directories(lower)
  {
    hide Word, Shop, Account, Map, Directories;
    var i :| 0 <= i < |NOISE_PREFIXES| && NOISE_PREFIXES[i] <= lower;
    Names(lower);
    FeedTwice(lower);
  }

  lemma Covered(lower: string)
    requires !Listed(lower)
    ensures !Word("/", lower) && !Shop("/", lower) && !Account("/", lower) && !Map("/", lower) && !Directories(lower)
  {
    hide Word, Shop, Account, Map, Directories;
    var p := NOISE_PREFIXES;
    assert forall i :: 0 <= i < 20 ==> !(p[i] <= lower);
    assert !(p[0] <= lower) && !(p[1] <= lower) && !(p[2] <= lower) && !(p[3] <= lower) && !(p[4] <= lower);
    assert !(p[5] <= lower) && !(p[6] <= lower) && !(p[7] <= lower) && !(p[8] <= lower) && !(p[9] <= lower);
    assert !(p[10] <= lower) && !(p[11] <= lower) && !(p[12] <= lower) && !(p[13] <= lower) && !(p[14] <= lower);
    assert !(p[15] <= lower) && !(p[16] <= lower) && !(p[17] <= lower) && !(p[18] <= lower);
    Names(lower);
  }

  lemma Names(lower: string)
    ensures Word("/", lower) <==>
      "/wp-json" <= lower || "/wp-admin" <= lower || "/wp-login" <= lower || "/wp-cron" <= lower
    ensures Shop("/", lower) <==>
      "/xmlrpc" <= lower || "/feed" <= lower || "/cart" <= lower || "/checkout" <= lower
    ensures Account("/", lower) <==>
      "/my-account" <= lower || "/wc-api" <= lower || "/wc-ajax" <= lower || "/addons" <= lower
    ensures Map("/", lower) <==>
      "/robots.txt" <= lower || "/sitemap" <= lower || "/wp-sitemap" <= lower || "/.well-known" <= lower
    ensures Directories(lower) <==> "/rest/" <= lower || "/wp-includes/" <= lower || "/oembed/" <= lower
  {
    WordNames(lower);
    ShopNames(lower);
    AccountNames(lower);
    MapNames(lower);
    DirectoryNames(lower);
  }

  lemma WordNames(lower: string)
    ensures Word("/", lower) <==>
      "/wp-json" <= lower || "/wp-admin" <= lower || "/wp-login" <= lower || "/wp-cron" <= lower
  {
    assert "/" + "wp-json" == "/wp-json" && "/" + "wp-admin" == "/wp-admin";
    assert "/" + "wp-login" == "/wp-login" && "/" + "wp-cron" == "/wp-cron";
  }

  lemma ShopNames(lower: string)
    ensures Shop("/", lower) <==>
      "/xmlrpc" <= lower || "/feed" <= lower || "/cart" <= lower || "/checkout" <= lower
  {
    assert "/" + "xmlrpc" == "/xmlrpc" && "/" + "feed" == "/feed";
    assert "/" + "cart" == "/cart" && "/" + "checkout" == "/checkout";
  }

  lemma AccountNames(lower: string)
    ensures Account("/", lower) <==>
      "/my-account" <= lower || "/wc-api" <= lower || "/wc-ajax" <= lower || "/addons" <= lower
  {
    assert "/" + "my-account" == "/my-account" && "/" + "wc-api" == "/wc-api";
    assert "/" + "wc-ajax" == "/wc-ajax" && "/" + "addons" == "/addons";
  }

  lemma MapNames(lower: string)
    ensures Map("/", lower) <==>
      "/robots.txt" <= lower || "/sitemap" <= lower || "/wp-sitemap" <= lower || "/.well-known" <= lower
  {
    assert "/" + "robots.txt" == "/robots.txt" && "/" + "sitemap" == "/sitemap";
    assert "/" + "wp-sitemap" == "/wp-sitemap" && "/" + ".well-known" == "/.well-known";
  }

  lemma DirectoryNames(lower: string)
    ensures Directories(lower) <==> "/rest/" <= lower || "/wp-includes/" <= lower || "/oembed/" <= lower
  {
    assert "/" + "rest" + "/" == "/rest/" && "/" + "oembed" + "/" == "/oembed/";
    assert "/" + "wp-includes" + "/" == "/wp-includes/";
  }

  lemma FeedTwice(lower: string)
    ensures "/feed/" <= lower ==> "/feed" <= lower
  {
    if "/feed/" <= lower {
      assert lower[..5] == "/feed/"[..5] == "/feed";
    }
  }

  lemma Start(t: string, first: string, rest: string)
    requires '/' !in t && (rest == "" || rest[0] == '/')
    ensures "/" + t <= "/" + first + rest <==> "" + t <= first
  {
    SlashPrefix(t, first + rest);
    PrefixInFirst(t, first, rest);
    assert "/" + first + rest == "/" + (first + rest) && "" + t == t;
  }

  lemma Directory(t: string, first: string, rest: string)
    requires '/' !in t && '/' !in first && (rest == "" || rest[0] == '/')
    ensures "/" + t + "/" <= "/" + first + rest <==> t == first && rest != ""
  {
    SlashPrefix(t + "/", first + rest);
    PrefixIsFirst(t, first, rest);
    assert "/" + t + "/" == "/" + (t + "/") && "/" + first + rest == "/" + (first + rest);
  }

  lemma WordFirst(first: string, rest: string)
    requires rest == "" || rest[0] == '/'
    ensures Word("/", "/" + first + rest) <==> Word("", first)
  {
    Start("wp-json", first, rest);
    Start("wp-admin", first, rest);
    Start("wp-login", first, rest);
    Start("wp-cron", first, rest);
  }

  lemma ShopFirst(first: string, rest: string)
    requires rest == "" || rest[0] == '/'
    ensures Shop("/", "/" + first + rest) <==> Shop("", first)
  {
    Start("xmlrpc", first, rest);
    Start("feed", first, rest);
    Start("cart", first, rest);
    Start("checkout", first, rest);
  }

  lemma AccountFirst(first: string, rest: string)
    requires rest == "" || rest[0] == '/'
    ensures Account("/", "/" + first + rest) <==> Account("", first)
  {
    Start("my-account", first, rest);
    Start("wc-api", first, rest);
    Start("wc-ajax", first, rest);
    Start("addons", first, rest);
  }

  lemma MapFirst(first: string, rest: string)
    requires rest == "" || rest[0] == '/'
    ensures Map("/", "/" + first + rest) <==> Map("", first)
  {
    Start("robots.txt", first, rest);
    Start("sitemap", first, rest);
    Start("wp-sitemap", first, rest);
    Start(".well-known", first, rest);
  }

  lemma NoisePrefixes(first: string, rest: string)
    requires '/' !in first && (rest == "" || rest[0] == '/')
    ensures Listed("/" + first + rest) <==> NoiseSegment(first, rest != "")
  {
    hide Listed, Word, Shop, Account, Map;
    Unlisted("/" + first + rest);
    WordFirst(first, rest);
    ShopFirst(first, rest);
    AccountFirst(first, rest);
    MapFirst(first, rest);
    Directory("rest", first, rest);
    Directory("wp-includes", first, rest);
    Directory("oembed", first, rest);
  }

  lemma SlashPrefix(t: string, s: string)
    ensures "/" + t <= "/" + s <==> t <= s
  {
    assert ("/" + t)[1..] == t && ("/" + s)[1..] == s;
    if "/" + t <= "/" + s {
      assert forall i :: 0 <= i < |t| ==> t[i] == ("/" + t)[i + 1] == ("/" + s)[i + 1] == s[i];
    }
  }

  // ---------- pages and their weight ----------

  /** A file is a page exactly by its extension, in any letter case. */
  lemma IsHtmlIff(stem: string, ext: string)
    requires '.' !in ext
    ensures IsHtml(stem + "." + ext) <==> LowerAll(ext) == "html" || LowerAll(ext) == "htm"
  {
    hide LowerAll;
    LowerName(stem, ext);
    LowerDot(ext);
    EndsWithDot(LowerAll(stem), LowerAll(ext), "html");
    EndsWithDot(LowerAll(stem), LowerAll(ext), "htm");
    assert "." + "html" == ".html" && "." + "htm" == ".htm";
  }

  lemma LowerName(stem: string, ext: string)
    ensures LowerAll(stem + "." + ext) == LowerAll(stem) + "." + LowerAll(ext)
  {
    LowerConcat(stem + ".", ext);
    LowerConcat(stem, ".");
    assert LowerAll(".") == ".";
  }

  lemma NoExtension(name: string)
    requires '.' !in name
    ensures !IsHtml(name)
  {
    LowerDot(name);
    var l := LowerAll(name);
    assert |l| >= 5 ==> l[|l| - 5..][0] == l[|l| - 5] && l[|l| - 5] in l;
    assert |l| >= 4 ==> l[|l| - 4..][0] == l[|l| - 4] && l[|l| - 4] in l;
  }

  lemma LowerDot(s: string)
    ensures '.' in LowerAll(s) <==> '.' in s
  {
    if '.' in s {
      var i :| 0 <= i < |s| && s[i] == '.';
      assert LowerAll(s)[i] == '.';
    }
    if '.' in LowerAll(s) {
      var i :| 0 <= i < |s| && LowerAll(s)[i] == '.';
      assert s[i] == '.';
    }
  }

  /** Ending in a dot and a text without dots. */
  lemma EndsWithDot(a: string, ext: string, e: string)
    requires '.' !in ext && '.' !in e
    ensures var l, n := a + "." + ext, |e| + 1; |l| >= n && l[|l| - n..] == "." + e <==> ext == e
  {
    var l, n := a + "." + ext, |e| + 1;
    assert l == a + ("." + ext) && l[|a|..] == "." + ext && l[|a| + 1..] == ext;
    if |l| >= n && l[|l| - n..] == "." + e {
      var k := |l| - n;
      assert l == l[..k] + "." + e;
      LastDot(a, ext, l[..k], e);
    }
  }

  lemma LastDot(a: string, x: string, b: string, y: string)
    requires '.' !in x && '.' !in y && a + "." + x == b + "." + y
    ensures x == y
  {
    var l := a + "." + x;
    assert l[|a|] == '.' && l[|b|] == '.';
    assert forall i :: |a| < i < |l| ==> l[i] == x[i - |a| - 1] != '.';
    assert forall i :: |b| < i < |l| ==> l[i] == y[i - |b| - 1] != '.';
    assert l[|a| + 1..] == x && l[|b| + 1..] == y;
  }

  /** A slash and a text are in a path exactly where a segment starts with them. */
  lemma {:induction false} ContainsSlash(s: string, rest: string, t: string)
    requires '/' !in s
    ensures Contains(s + rest, "/" + t) <==> Contains(rest, "/" + t)
  {
    if s == "" {
      assert s + rest == rest;
    } else {
      ContainsSlash(s[1..], rest, t);
      assert (s + rest)[1..] == s[1..] + rest && (s + rest)[0] == s[0] != '/';
    }
  }

  lemma ContainsFirst(segs: seq<string>, t: string)
    requires segs != [] && '/' !in segs[0]
    ensures Contains("/" + Join(segs), "/" + t) <==>
      t <= segs[0] + Rest(segs) || Contains(Rest(segs), "/" + t)
  {
    hide Join, Rest, Contains;
    FirstSegment(segs);
    assert "/" + segs[0] + Rest(segs) == "/" + (segs[0] + Rest(segs));
    ContainsAfterSlash(segs[0] + Rest(segs), t);
    ContainsSlash(segs[0], Rest(segs), t);
  }

  lemma ContainsAfterSlash(s: string, t: string)
    ensures Contains("/" + s, "/" + t) <==> t <= s || Contains(s, "/" + t)
  {
    SlashPrefix(t, s);
    assert ("/" + s)[1..] == s;
  }

  lemma NothingInNothing(t: string)
    ensures !Contains("", "/" + t)
  {
  }

  ghost predicate Slashes(segs: seq<string>) {
    forall i :: 0 <= i < |segs| ==> '/' !in segs[i]
  }

  lemma {:induction false} ContainsName(segs: seq<string>, t: string)
    requires segs != [] && Slashes(segs) && '/' !in t
    ensures Contains("/" + Join(segs), "/" + t) <==> exists i :: 0 <= i < |segs| && t <= segs[i]
  {
    hide Contains, Join;
    ContainsFirst(segs, t);
    FirstSegment(segs);
    PrefixInFirst(t, segs[0], Rest(segs));
    if |segs| == 1 {
      NothingInNothing(t);
    } else {
      ContainsName(segs[1..], t);
      assert segs == [segs[0]] + segs[1..];
      assert forall i :: 0 <= i < |segs| - 1 ==> segs[1..][i] == segs[i + 1];
    }
  }

  lemma {:induction false} ContainsDirectory(segs: seq<string>, t: string)
    requires segs != [] && Slashes(segs) && '/' !in t
    ensures Contains("/" + Join(segs), "/" + (t + "/")) <==> exists i :: 0 <= i < |segs| - 1 && segs[i] == t
  {
    hide Contains, Join;
    ContainsFirst(segs, t + "/");
    FirstSegment(segs);
    PrefixIsFirst(t, segs[0], Rest(segs));
    if |segs| == 1 {
      NothingInNothing(t + "/");
    } else {
      ContainsDirectory(segs[1..], t);
      assert forall i :: 0 <= i < |segs| - 1 ==> segs[1..][i] == segs[i + 1];
      if i :| 0 <= i < |segs| - 1 && segs[i] == t {
        assert i > 0 ==> segs[1..][i - 1] == t;
      }
    }
  }

  ghost predicate InPageDirectory(segs: seq<string>) {
    exists i :: 0 <= i < |segs| - 1 && segs[i] == "page"
  }

  ghost predicate HasCommentPage(segs: seq<string>) {
    exists i :: 0 <= i < |segs| && "comment-page" <= segs[i]
  }

  /** A page weighs 5 exactly if a directory on its path is named page, or some segment starts with comment-page;
      otherwise it weighs nothing. */
  lemma WeighsIff(segs: seq<string>)
    requires segs != [] && Slashes(segs)
    ensures CleanWeight("/" + Join(segs)) == if InPageDirectory(segs) || HasCommentPage(segs) then 5 else 0
  {
    hide Contains, Join, InPageDirectory, HasCommentPage;
    PageDirectory(segs);
    CommentPage(segs);
  }

  lemma PageDirectory(segs: seq<string>)
    requires segs != [] && Slashes(segs)
    ensures Contains("/" + Join(segs), "/page/") <==> InPageDirectory(segs)
  {
    hide Contains, Join;
    ContainsDirectory(segs, "page");
    assert "/" + ("page" + "/") == "/page/";
  }

  lemma CommentPage(segs: seq<string>)
    requires segs != [] && Slashes(segs)
    ensures Contains("/" + Join(segs), "/comment-page") <==> HasCommentPage(segs)
  {
    hide Contains, Join;
    ContainsName(segs, "comment-page");
    assert "/" + "comment-page" == "/comment-page";
  }

  /** What Dedup reads off a saved page: page by the extension of its name, noise by its first segment, weight by the
      directories on its path, all below the host. */
  lemma PageOf(preserved: set<string>, host: string, segs: seq<string>, stem: string, ext: string)
    requires segs != [] && Slashes(segs) && segs[|segs| - 1] == stem + "." + ext && '.' !in ext
    ensures var f := FileOf(preserved, [host] + segs);
      && f.rel == Join([host] + segs)
      && (f.html <==> LowerAll(ext) == "html" || LowerAll(ext) == "htm")
      && (f.noise <==> NoiseSegment(LowerAll(segs[0]), |segs| > 1))
      && f.weight == if InPageDirectory(segs) || HasCommentPage(segs) then 5 else 0
  {
    hide IsHtml, IsNoise, NoiseSegment, InPageDirectory, HasCommentPage, CleanWeight, CanonicalPath, Join, LowerAll;
    assert ([host] + segs)[1..] == segs;
    IsHtmlIff(stem, ext);
    NoiseIff(segs);
    WeighsIff(segs);
  }

  // ---------- markers and page numbers ----------

  /** A marker is one of three names, alone or with a hyphen or an underscore and anything after it. */
  lemma MarkerIff(l: string)
    ensures IsMarker(l) <==>
      || l == "page" || l == "paged" || l == "comment-page"
      || "page-" <= l || "paged-" <= l || "comment-page-" <= l
      || "page_" <= l || "paged_" <= l || "comment-page_" <= l
  {
    var m := MARKERS;
    assert m[0] == "page" && m[1] == "paged" && m[2] == "comment-page" && |m| == 3;
    assert "page" + "-" == "page-" && "paged" + "-" == "paged-" && "comment-page" + "-" == "comment-page-";
    assert "page" + "_" == "page_" && "paged" + "_" == "paged_" && "comment-page" + "_" == "comment-page_";
  }

  lemma {:induction false} DecimalValue(n: nat)
    ensures Value(Cron.Decimal(n)) == n && AllDigits(Cron.Decimal(n))
  {
    var s := Cron.Decimal(n);
    if n >= 10 {
      DecimalValue(n / 10);
      assert s[..|s| - 1] == Cron.Decimal(n / 10);
    } else {
      assert s[..0] == "";
    }
  }

  lemma {:induction false} ZerosInFront(zeros: string, s: string)
    requires (forall i :: 0 <= i < |zeros| ==> zeros[i] == '0') && AllDigits(s)
    ensures Value(zeros + s) == Value(s) && AllDigits(zeros + s)
    decreases |s|
  {
    var all := zeros + s;
    assert all[..|all| - 1] == zeros + s[..|s| - 1];
    if |s| > 1 {
      ZerosInFront(zeros, s[..|s| - 1]);
    } else {
      OnlyZeros(zeros);
      assert s[..0] == "" && zeros + "" == zeros;
    }
  }

  lemma {:induction false} OnlyZeros(zeros: string)
    requires forall i :: 0 <= i < |zeros| ==> zeros[i] == '0'
    ensures Value(zeros) == 0
  {
    if zeros != "" {
      OnlyZeros(zeros[..|zeros| - 1]);
    }
  }

  /** A page number is a decimal in the range of int64, with any leading zeros and an optional sign. */
  lemma NumberIff(zeros: string, n: nat)
    requires forall i :: 0 <= i < |zeros| ==> zeros[i] == '0'
    ensures var s := zeros + Cron.Decimal(n);
      && (IsInt64(s) <==> n < 0x8000_0000_0000_0000)
      && (IsInt64("+" + s) <==> n < 0x8000_0000_0000_0000)
      && (IsInt64("-" + s) <==> n <= 0x8000_0000_0000_0000)
  {
    hide Value, Cron.Decimal;
    DecimalValue(n);
    ZerosInFront(zeros, Cron.Decimal(n));
    var s := zeros + Cron.Decimal(n);
    assert ("+" + s)[1..] == s && ("-" + s)[1..] == s && s[0] != '-' && s[0] != '+';
  }

  /** Nothing else is one. */
  lemma OtherIsNoNumber(s: string)
    requires var body := if s != "" && (s[0] == '+' || s[0] == '-') then s[1..] else s;
      body == "" || exists i :: 0 <= i < |body| && (body[i] < '0' || body[i] > '9')
    ensures !IsInt64(s)
  {
  }

  // ---------- query items ----------

  /** A key that says itself: no escape, no plus sign, no separator. */
  predicate PlainKey(key: string) {
    forall i :: 0 <= i < |key| ==> key[i] != '%' && key[i] != '+' && key[i] != '=' && key[i] != '&'
  }

  lemma {:induction false} UnescapePlainKey(key: string)
    requires PlainKey(key)
    ensures Unescape(key) == Some(key)
  {
    if key != "" {
      UnescapePlainKey(key[1..]);
      assert [key[0]] + key[1..] == key;
    }
  }

  lemma KeyOfItem(key: string, value: string)
    requires PlainKey(key)
    ensures QueryKey(key) == LowerAll(key) && QueryKey(key + "=" + value) == LowerAll(key)
  {
    hide Unescape, Split;
    assert SpacesForPlus(key) == key;
    UnescapePlainKey(key);
    SplitOne(key, '=');
    SplitConcat(key, value, '=');
    assert key + ['='] + value == key + "=" + value;
  }

  /** With or without a value, an item is noise exactly if its key in lower case is one of these names or starts with
      utm_, and is not preserved. */
  lemma DropsItemIff(preserved: set<string>, key: string, value: string)
    requires PlainKey(key)
    ensures DropsItem(preserved, key) == DropsItem(preserved, key + "=" + value)
    ensures var k := LowerAll(key);
      DropsItem(preserved, key) <==> k !in preserved && ("utm_" <= k || k in {
        "paged", "page", "replytocom", "add-to-cart", "added-to-cart", "remove_item", "download_item", "wc-ajax",
        "preview", "no_reply", "amp", "consumer_key", "nonce", "gclid", "fbclid", "msclkid", "ref", "source",
        "session_id", "s_id" })
  {
    hide QueryKey, LowerAll;
    KeyOfItem(key, value);
    assert "utm_" <= "utm_source" && "utm_" <= "utm_medium" && "utm_" <= "utm_campaign" && "utm_" <= "utm_term";
    assert "utm_" <= "utm_content";
  }

  lemma {:induction false} UnescapeBad(a: string, b: string)
    requires '%' !in a && Unescape(b) == None
    ensures Unescape(a + b) == None
  {
    if a == "" {
      assert a + b == b;
    } else {
      UnescapeBad(a[1..], b);
      assert (a + b)[1..] == a[1..] + b;
    }
  }

  /** An item whose key cannot be decoded is never noise, whatever it starts with. */
  lemma MalformedKeyStays(preserved: set<string>, before: string, after: string)
    requires PlainKey(before) && '=' !in after && !StartsWithPair(SpacesForPlus(after))
    ensures !DropsItem(preserved, before + "%" + after)
  {
    hide Unescape, Split, StartsWithPair;
    var item := before + "%" + after;
    SplitOne(item, '=');
    var bad := "%" + SpacesForPlus(after);
    assert SpacesForPlus(item) == before + bad;
    Malformed(SpacesForPlus(after));
    UnescapeBad(before, bad);
  }

  /** A plus sign in a key counts as a space, and an escape as the character it stands for. */
  lemma EncodedKey(before: string, after: string)
    requires PlainKey(before) && PlainKey(after)
    ensures QueryKey(before + "+" + after) == LowerAll(before + " " + after)
    ensures QueryKey(before + "%5F" + after) == LowerAll(before + "_" + after)
  {
    hide Unescape, Split;
    var plus, escape := before + "+" + after, before + "%5F" + after;
    SplitOne(plus, '=');
    SplitOne(escape, '=');
    assert SpacesForPlus(plus) == before + " " + after;
    assert SpacesForPlus(escape) == escape;
    UnescapePlainKey(before + " " + after);
    UnescapePlainKey(before);
    UnescapePlainKey(after);
    UnescapeUnderscore(after);
    UnescapeAfter(before, "%5F" + after);
    assert before + ("%5F" + after) == escape && before + ("_" + after) == before + "_" + after;
  }

  lemma UnescapeUnderscore(after: string)
    requires Unescape(after) == Some(after)
    ensures Unescape("%5F" + after) == Some("_" + after)
  {
    var s := "%5F" + after;
    assert s[0] == '%' && s[1] == '5' && s[2] == 'F' && s[3..] == after;
  }
}
