/**
 From a URL to the file it is saved in (internal/storage/path.go) and back through the
 mapping of a clone (internal/localize/localize.go).
 */
module UrlRoundTrip {
  import opened Percent
  import opened Segments
  import opened UrlPath
  import opened CloneMapping

  /** A clean https URL: a host, path segments, and perhaps a trailing slash. */
  function CleanUrl(host: string, segs: seq<string>, slash: bool): Url {
    Url(host, (if segs == [] then "" else "/" + Join(segs)) + (if slash then "/" else ""))
  }

  predicate UrlSegment(s: string) {
    s != "" && '/' !in s && '%' !in s && AllBytes(s)
  }

  ghost predicate CleanParts(host: string, segs: seq<string>) {
    HostName(host) && forall i :: 0 <= i < |segs| ==> UrlSegment(segs[i])
  }

  /** The file a clean URL without ".." is saved in. */
  function FileFor(host: string, segs: seq<string>, slash: bool): (p: Path)
    ensures p != []
  {
    [host] + NoDots(segs) + (if segs == [] || slash || '.' !in segs[|segs| - 1] then [INDEX] else [])
  }

  /** The segment list that spells the URL. */
  function UrlList(host: string, segs: seq<string>, slash: bool): Path {
    [host] + segs + (if slash then [""] else [])
  }

  /** What comes before the last segment. */
  lemma JoinLast(segs: seq<string>) returns (a: string)
    requires segs != []
    ensures Join(segs) == a + segs[|segs| - 1] && (a == "" || a[|a| - 1] == '/')
  {
    hide Join;
    var n := |segs| - 1;
    JoinOne(segs[n]);
    if n == 0 {
      a := "";
      assert segs == [segs[0]] && "" + segs[0] == segs[0];
    } else {
      a := Join(segs[..n]) + "/";
      assert segs == segs[..n] + [segs[n]];
      JoinConcat(segs[..n], [segs[n]]);
    }
  }

  lemma DotDotWithIndex(s: string)
    ensures HasDotDot(s + "/" + INDEX) <==> HasDotDot(s)
  {
    var t := s + "/" + INDEX;
    if HasDotDot(s) {
      var i :| 0 <= i < |s| - 1 && s[i] == '.' && s[i + 1] == '.';
      assert t[i] == '.' && t[i + 1] == '.';
    }
    if HasDotDot(t) {
      var i :| 0 <= i < |t| - 1 && t[i] == '.' && t[i + 1] == '.';
      forall k | |s| <= k < |t| - 1 ensures !(t[k] == '.' && t[k + 1] == '.') {
        assert t[k] == "/index.html"[k - |s|] && t[k + 1] == "/index.html"[k - |s| + 1];
      }
      assert t[|s|] == '/';
      assert s[i] == '.' && s[i + 1] == '.';
    }
  }

  lemma LastOfJoin(segs: seq<string>)
    requires segs != [] && forall i :: 0 <= i < |segs| ==> UrlSegment(segs[i])
    ensures Join(segs) != "" && Join(segs)[0] != '/' && Join(segs)[|Join(segs)| - 1] != '/'
  {
  }

  lemma RulesRoot(path: string)
    requires path == "" || path == "/"
    ensures FileRules(path) == INDEX
  {
    hide BaseName;
    IndexIsClean();
    BaseNameOf("", INDEX);
    var a := "/" + INDEX;
    assert "" + INDEX == INDEX;
    assert a[1..] == INDEX && a[0] == '/' && a[|a| - 1] == 'l';
  }

  lemma RulesSlash(s: string)
    requires s != ""
    ensures FileRules("/" + s + "/") == s + "/" + INDEX
  {
    hide BaseName;
    var path := "/" + s + "/";
    IndexIsClean();
    BaseNameOf(s + "/", INDEX);
    assert (path + INDEX)[1..] == s + "/" + INDEX;
  }

  lemma RulesPlain(s: string, base: string)
    requires s != "" && s[|s| - 1] != '/' && BaseName(s) == base
    ensures FileRules("/" + s) == if '.' in base then s else s + "/" + INDEX
  {
    hide BaseName;
    var path := "/" + s;
    assert path[1..] == s && path[|path| - 1] == s[|s| - 1];
  }

  lemma {:induction false} NoDotsConcat(a: seq<string>, b: seq<string>)
    ensures NoDots(a + b) == NoDots(a) + NoDots(b)
  {
    hide Dropped;
    if a == [] {
      assert a + b == b;
    } else {
      NoDotsConcat(a[1..], b);
      assert (a + b)[1..] == a[1..] + b && (a + b)[0] == a[0];
      var head := if Dropped(a[0]) then [] else [a[0]];
      assert head + (NoDots(a[1..]) + NoDots(b)) == head + NoDots(a[1..]) + NoDots(b);
    }
  }

  lemma {:induction false} NoDotsOfClean(segs: seq<string>)
    requires "" !in segs && "." !in segs
    ensures NoDots(segs) == segs
  {
    if segs != [] {
      NoDotsOfClean(segs[1..]);
      assert segs == [segs[0]] + segs[1..];
    }
  }

  /** Where a clean URL is saved. */
  lemma SavedAtOf(host: string, segs: seq<string>, slash: bool)
    requires CleanParts(host, segs)
    ensures SavedAt(CleanUrl(host, segs, slash)) ==
      if HasDotDot(Join(segs)) then [host, "_safe_path"] else FileFor(host, segs, slash)
  {
    hide HasDotDot, FileRules, Split, Join, NoDots, AllBytes;
    RulesOf(host, segs, slash);
    SplitOne(INDEX);
    SplitOne("_safe_path");
    NoDotsOfClean([INDEX]);
    NoDotsOfClean(["_safe_path"]);
    NoDotsConcat(segs, [INDEX]);
    if segs == [] {
      EmptyJoin();
      assert NoDots([]) == [] by { NoDotsOfClean([]); }
    } else {
      SplitJoin(segs);
      SplitConcat(Join(segs), INDEX);
    }
  }

  lemma RulesOf(host: string, segs: seq<string>, slash: bool)
    requires CleanParts(host, segs)
    ensures var d := FileRules(CleanUrl(host, segs, slash).path);
      && (HasDotDot(d) <==> HasDotDot(Join(segs)))
      && d ==
        if segs == [] then INDEX
        else if slash || '.' !in segs[|segs| - 1] then Join(segs) + "/" + INDEX
        else Join(segs)
  {
    hide HasDotDot, FileRules, Join, BaseName, UrlSegment, HostName, CleanUrl, Slashless;
    PathOf(host, segs, slash);
    if segs == [] {
      RulesRoot(CleanUrl(host, segs, slash).path);
      EmptyJoin();
      IndexIsClean();
    } else {
      DotDotWithIndex(Join(segs));
      RulesOfSlash(segs);
      LastOfJoin(segs);
      BaseOfJoin(segs);
      RulesPlain(Join(segs), segs[|segs| - 1]);
    }
  }

  lemma RulesOfSlash(segs: seq<string>)
    requires segs != [] && forall i :: 0 <= i < |segs| ==> UrlSegment(segs[i])
    ensures FileRules("/" + Join(segs) + "/") == Join(segs) + "/" + INDEX
  {
    hide *;
    LastOfJoin(segs);
    RulesSlash(Join(segs));
  }

  lemma BaseOfJoin(segs: seq<string>)
    requires segs != [] && forall i :: 0 <= i < |segs| ==> UrlSegment(segs[i])
    ensures BaseName(Join(segs)) == segs[|segs| - 1]
  {
    hide *;
    UrlSlashless(segs);
    var a := JoinLast(segs);
    BaseNameOf(a, segs[|segs| - 1]);
  }

  lemma UrlSlashless(segs: seq<string>)
    requires segs != [] && forall i :: 0 <= i < |segs| ==> UrlSegment(segs[i])
    ensures Slashless(segs) && '/' !in segs[|segs| - 1]
  {
  }

  lemma PathOf(host: string, segs: seq<string>, slash: bool)
    ensures var path := CleanUrl(host, segs, slash).path;
      if segs == [] then path == "" || path == "/"
      else path == if slash then "/" + Join(segs) + "/" else "/" + Join(segs)
  {
    hide Join;
    assert "" + "/" == "/" && "/" + Join(segs) + "" == "/" + Join(segs);
  }

  lemma EmptyJoin()
    ensures Join([]) == "" && !HasDotDot(Join([]))
  {
  }

  lemma PathOfList(host: string, segs: seq<string>, slash: bool)
    ensures Join(UrlList(host, segs, slash)) == host + CleanUrl(host, segs, slash).path
  {
    hide Join;
    var all := [host] + segs;
    var base := if segs == [] then host else host + "/" + Join(segs);
    JoinOne(host);
    if segs == [] {
      assert all == [host];
    } else {
      JoinConcat([host], segs);
    }
    assert Join(all) == base;
    if slash {
      JoinConcat(all, [""]);
      JoinOne("");
      assert base + "/" + "" == base + "/";
    } else {
      assert all + [] == all;
    }
  }

  /** The two spellings of a clean URL, as names of its list. */
  lemma Spelled(host: string, segs: seq<string>, slash: bool)
    requires CleanParts(host, segs)
    ensures var u, f := CleanUrl(host, segs, slash), UrlList(host, segs, slash);
      RawString(u) == Name(f) && UrlString(u) == Name(EscapeAll(f))
  {
    hide Escape, EscapeAll, Join, AllBytes, UrlList, CleanUrl;
    var u, f := CleanUrl(host, segs, slash), UrlList(host, segs, slash);
    PathOfList(host, segs, slash);
    assert u.host == host by { HostOfUrl(host, segs, slash); }
    HostUnchanged(host);
    EscapeConcat(host, u.path);
    EscapeJoin(f);
    assert "https://" + (host + u.path) == "https://" + host + u.path;
    assert "https://" + (host + Escape(u.path)) == "https://" + host + Escape(u.path);
  }

  lemma HostOfUrl(host: string, segs: seq<string>, slash: bool)
    ensures CleanUrl(host, segs, slash).host == host
  {
  }

  lemma CleanList(host: string, segs: seq<string>, slash: bool)
    requires CleanParts(host, segs)
    ensures var f := UrlList(host, segs, slash);
      Slashless(f) && Bytes(f) && NoPercent(f) && Slashless(EscapeAll(f))
  {
    hide Escape, EscapeAll, AllBytes;
    var f := UrlList(host, segs, slash);
    HostUnchanged(host);
    NothingIsBytes();
    EscapedSlashless(f);
  }

  lemma NothingIsBytes()
    ensures AllBytes("")
  {
  }

  lemma FileForClean(host: string, segs: seq<string>, slash: bool)
    requires CleanParts(host, segs) && !HasDotDot(Join(segs))
    ensures CleanPath(FileFor(host, segs, slash))
  {
    hide HasDotDot, Join, NoDots;
    forall i | 0 <= i < |segs| ensures segs[i] != ".." {
      if segs[i] == ".." {
        DotDotInside(segs, i);
      }
    }
  }

  lemma {:induction false} DotDotInside(segs: seq<string>, i: nat)
    requires i < |segs| && segs[i] == ".."
    ensures HasDotDot(Join(segs))
  {
    var all := Join(segs);
    if i > 0 {
      DotDotInside(segs[1..], i - 1);
      var rest := Join(segs[1..]);
      var k :| 0 <= k < |rest| - 1 && rest[k] == '.' && rest[k + 1] == '.';
      assert all == segs[0] + "/" + rest;
      var m := |segs[0]| + 1 + k;
      assert all[m] == '.' && all[m + 1] == '.';
    } else {
      assert all[0] == '.' && all[1] == '.';
    }
  }

  lemma SafePathClean(host: string)
    requires HostName(host)
    ensures CleanPath([host, "_safe_path"]) && Forms([host, "_safe_path"]) == {[host, "_safe_path"]}
    ensures !HasDotDot(Join(["_safe_path"]))
  {
  }

  /** The list of a URL without dot segments is a form of its file. */
  lemma OwnForm(host: string, segs: seq<string>, slash: bool)
    requires CleanParts(host, segs) && "." !in segs
    ensures UrlList(host, segs, slash) in Forms(FileFor(host, segs, slash))
  {
    NoDotsOfClean(segs);
    var p, all := FileFor(host, segs, slash), [host] + segs;
    assert all + [] == all;
    if p != all {
      assert p == all + [INDEX] && Directory(p) == all;
    }
  }

  /** The forms of a file have no "." segment. */
  lemma FormsHaveNoDot(host: string, segs: seq<string>, slash: bool, f: Path)
    requires HostName(host) && f in Forms(FileFor(host, segs, slash))
    ensures "." !in f
  {
    hide NoDots;
    var p := FileFor(host, segs, slash);
    assert forall i :: 0 <= i < |p| ==> p[i] != ".";
  }

  /** A clean URL is one of the names of its own file exactly when its path has no ".." and no "." segment:
      otherwise it is saved in the shared _safe_path, or where the path without "." leads. */
  lemma OwnNameIff(host: string, segs: seq<string>, slash: bool)
    requires CleanParts(host, segs)
    ensures var u := CleanUrl(host, segs, slash);
      CleanPath(SavedAt(u)) &&
      ((exists f :: f in Forms(SavedAt(u)) && Name(EscapeAll(f)) == UrlString(u)) <==>
        !HasDotDot(Join(segs)) && "." !in segs)
  {
    hide HasDotDot, SavedAt, Join, Escape, EscapeAll, Name, UrlString, FileFor, CleanPath, Slashless, Bytes;
    var u, list := CleanUrl(host, segs, slash), UrlList(host, segs, slash);
    SavedAtOf(host, segs, slash);
    Spelled(host, segs, slash);
    CleanList(host, segs, slash);
    SafePathClean(host);
    if !HasDotDot(Join(segs)) {
      FileForClean(host, segs, slash);
    }
    var p := SavedAt(u);
    if !HasDotDot(Join(segs)) && "." !in segs {
      OwnForm(host, segs, slash);
    } else {
      forall f | f in Forms(p) ensures Name(EscapeAll(f)) != UrlString(u) {
        FormsSlashless(p, f);
        if Name(EscapeAll(f)) == UrlString(u) {
          NameInjective(EscapeAll(f), EscapeAll(list));
          EscapeAllInjective(f, list);
          NotItsOwn(host, segs, slash);
        }
      }
    }
  }

  lemma NotItsOwn(host: string, segs: seq<string>, slash: bool)
    requires CleanParts(host, segs) && (HasDotDot(Join(segs)) || "." in segs)
    ensures var p := if HasDotDot(Join(segs)) then [host, "_safe_path"] else FileFor(host, segs, slash);
      UrlList(host, segs, slash) !in Forms(p)
  {
    hide HasDotDot, Join, FileFor;
    var list := UrlList(host, segs, slash);
    SafePathClean(host);
    if HasDotDot(Join(segs)) {
      EmptyJoin();
      assert segs != [] && segs != ["_safe_path"];
      assert if slash then list[|list| - 1] == "" else list[1..] == segs;
      assert [host, "_safe_path"][1..] == ["_safe_path"];
    } else {
      var i :| 0 <= i < |segs| && segs[i] == ".";
      assert list[i + 1] == ".";
      if list in Forms(FileFor(host, segs, slash)) {
        FormsHaveNoDot(host, segs, slash, list);
      }
    }
  }

  /** The round trip: in any tree of saved files, walked in any order, a clean URL without dot segments maps back to
      its own file exactly when that file is registered and none that shadows the URL is registered after it.  This
      covers the bare host, "/dir", "/dir/" and plain files.  With nothing escaped it does so exactly when the file is
      registered and the URL names the file itself or has nothing to escape: the directory forms are registered
      escaped only. */
  lemma RoundTrip(files: seq<Path>, host: string, segs: seq<string>, slash: bool)
    requires FileTree(files) && NonEmptyPaths(files) && CleanParts(host, segs) && !HasDotDot(Join(segs)) && "." !in segs
    ensures var u, f := CleanUrl(host, segs, slash), UrlList(host, segs, slash);
      && (UrlString(u) in Mapping(files) && Mapping(files)[UrlString(u)] == SavedAt(u) <==>
            exists i :: 0 <= i < |files| && files[i] == SavedAt(u) && Added(files, i)
                        && forall j :: i < j < |files| && Shadows(files[j], SavedAt(u), f) ==> !Added(files, j))
      && (RawString(u) in Mapping(files) && Mapping(files)[RawString(u)] == SavedAt(u) <==>
            exists i :: 0 <= i < |files| && files[i] == SavedAt(u) && Added(files, i)
                        && (f == SavedAt(u) || UrlString(u) == RawString(u)))
  {
    hide SavedAt, Mapping, HasDotDot, Join, UrlString, RawString, Name, FileFor, EscapeAll, CleanPath,
      Slashless, Bytes, NoPercent, Keys, Added, Shadows, UrlList, Forms;
    var u, p, f := CleanUrl(host, segs, slash), FileFor(host, segs, slash), UrlList(host, segs, slash);
    SavedAtOf(host, segs, slash);
    Spelled(host, segs, slash);
    CleanList(host, segs, slash);
    OwnForm(host, segs, slash);
    MappedToFile(files, f);
    MappedToFile(files, EscapeAll(f));
    if EscapeAll(f) != f && UrlString(u) == RawString(u) {
      NameInjective(f, EscapeAll(f));
    }
    assert f == Listed(p) <==> f == p by { TwoOrMore(host, segs, slash); }
    forall i | 0 <= i < |files| && files[i] == p
      ensures UrlString(u) in Mapping(files) && Mapping(files)[UrlString(u)] == p <==>
        Added(files, i) && forall j :: i < j < |files| && Shadows(files[j], p, f) ==> !Added(files, j)
      ensures RawString(u) in Mapping(files) && Mapping(files)[RawString(u)] == p <==>
        Added(files, i) && (f == p || UrlString(u) == RawString(u))
    {
      EscapedKnownIff(files, i, f);
      PlainRawIff(files, i, f);
    }
  }

  /** A form without "%" is no escaped name of another file. */
  lemma PlainRawIff(files: seq<Path>, i: nat, f: Path)
    requires FileTree(files) && NonEmptyPaths(files) && i < |files| && f in Forms(files[i]) && NoPercent(f)
    ensures Name(f) in Mapping(files) && Mapping(files)[Name(f)] == files[i] <==>
      Added(files, i) && (f == Listed(files[i]) || EscapeAll(f) == f)
  {
    hide EscapeAll, CleanPath, NoPercent, Mapping, Name, Added, Listed, Forms;
    RawKnownIff(files, i, f);
    forall j, g | i < j < |files| && g in Forms(files[j]) ensures EscapeAll(g) != f {
      FilesDiffer(files, i, j);
      FormsDisjoint(files[i], files[j], f);
      if EscapeAll(g) == f {
        Unchanged(g);
      }
    }
  }

  /** In a tree without "%" in its names: exactly when the file was saved. */
  lemma PlainRoundTrip(files: seq<Path>, host: string, segs: seq<string>, slash: bool)
    requires FileTree(files) && NonEmptyPaths(files) && NoPercents(files)
    requires CleanParts(host, segs) && !HasDotDot(Join(segs)) && "." !in segs
    ensures var u := CleanUrl(host, segs, slash);
      && (UrlString(u) in Mapping(files) && Mapping(files)[UrlString(u)] == SavedAt(u) <==> SavedAt(u) in files)
      && (RawString(u) in Mapping(files) && Mapping(files)[RawString(u)] == SavedAt(u) <==>
            SavedAt(u) in files && (UrlList(host, segs, slash) == SavedAt(u) || UrlString(u) == RawString(u)))
  {
    hide SavedAt, Mapping, HasDotDot, Join, UrlString, RawString, FileFor, Added, Shadows, Forms, UrlList, FileTree,
      NoPercents, NonEmptyPaths, CleanParts;
    RoundTrip(files, host, segs, slash);
    SavedAtOf(host, segs, slash);
    OwnForm(host, segs, slash);
    if FileFor(host, segs, slash) in files {
      var i :| 0 <= i < |files| && files[i] == FileFor(host, segs, slash);
      AllAdded(files, i, UrlList(host, segs, slash));
    }
  }

  lemma TwoOrMore(host: string, segs: seq<string>, slash: bool)
    requires "." !in segs && "" !in segs
    ensures |FileFor(host, segs, slash)| >= 2
  {
    NoDotsOfClean(segs);
  }

  /** A file "a%20b" takes the URL of the file "a b" beside it, in either walk order. */
  lemma PercentNameHides(host: string)
    requires HostName(host)
    ensures var p, q := [host, "a b"], [host, "a%20b"];
      && UrlFromLocalPath(p) in Mapping([p, q]) && Mapping([p, q])[UrlFromLocalPath(p)] == q
      && UrlFromLocalPath(p) in Mapping([q, p]) && Mapping([q, p])[UrlFromLocalPath(p)] == q
  {
    hide AddUrl, Name, UrlFromLocalPath, Keys, Slashless, EscapeAll, Mapping, Escape;
    var p, q := [host, "a b"], [host, "a%20b"];
    EscapedSpaces(host);
    assert CleanPath(p) && CleanPath(q);
    ReadBack(p);
    ListedIsKey(q);
    KeysSlashless(q, q);
    MappedIff([p, q], 1, q);
    MappedIff([q, p], 0, q);
    assert Added([p, q], 1) && Added([q, p], 0) && !Added([q, p], 1);
  }

  ghost predicate KeepsUrl(files: seq<Path>, p: Path)
    requires NonEmptyPaths(files) && p != []
  {
    UrlFromLocalPath(p) in Mapping(files) && Mapping(files)[UrlFromLocalPath(p)] == p
  }

  /** With "a%2520b" beside them it depends on the walk order: after that file "a%20b" is not registered. */
  lemma ChainDependsOnOrder(host: string)
    requires HostName(host)
    ensures var p, q, r := [host, "a b"], [host, "a%20b"], [host, "a%2520b"];
      KeepsUrl([r, q, p], p) && !KeepsUrl([q, p, r], p)
  {
    hide Mapping, EscapeAll, Escape, UrlFromLocalPath, HostName;
    var p, q, r := [host, "a b"], [host, "a%20b"], [host, "a%2520b"];
    EscapedSpaces(host);
    assert FileSegment("a b") && FileSegment("a%20b") && FileSegment("a%2520b");
    ThreeFiles(r, q, p);
    ThreeFiles(q, p, r);
    Chain(p, q, r);
  }

  lemma ThreeFiles(a: Path, b: Path, c: Path)
    requires |a| == |b| == |c| == 2 && CleanPath(a) && CleanPath(b) && CleanPath(c) && a[1] != b[1] && b[1] != c[1]
    requires a[1] != c[1]
    ensures FileTree([a, b, c])
  {
    hide CleanPath;
    var files := [a, b, c];
    forall i, j | 0 <= i < 3 && 0 <= j < 3 && i != j ensures !(files[i] <= files[j]) {
      assert files[i][1] != files[j][1];
    }
  }

  lemma Chain(p: Path, q: Path, r: Path)
    requires FileTree([r, q, p]) && FileTree([q, p, r]) && p != [] && q != [] && r != []
    requires Shadows(r, q, Listed(q)) && Shadows(q, p, Listed(p)) && !Shadows(r, p, Listed(p)) && p != r
    ensures KeepsUrl([r, q, p], p) && !KeepsUrl([q, p, r], p)
  {
    hide Mapping, Shadows, UrlFromLocalPath, FileTree, Listed;
    OwnUrlIff([r, q, p], 2);
    assert Added([r, q, p], 0) && !Added([r, q, p], 1);
    NotItself(p, Listed(p));
    OwnUrlIff([q, p, r], 1);
    assert Added([q, p, r], 0);
  }

  lemma EscapedSpaces(host: string)
    requires HostName(host)
    ensures EscapeAll([host, "a b"]) == [host, "a%20b"] && EscapeAll([host, "a%20b"]) == [host, "a%2520b"]
    ensures EscapeAll([host, "a%2520b"])[1] != "a b" && EscapeAll([host, "a%2520b"])[1] != "a%20b"
  {
    hide Escape;
    HostUnchanged(host);
    EscapedMiddle(' ', "%20", "");
    EscapedMiddle('%', "%25", "20");
    EscapeSegment("a%2520b");
    assert "a" + [' '] + "" + "b" == "a b" && "a" + "%20" + "" + "b" == "a%20b";
    assert "a" + ['%'] + "20" + "b" == "a%20b" && "a" + "%25" + "20" + "b" == "a%2520b";
  }

  lemma EscapedMiddle(c: char, e: string, more: string)
    requires EscapeChar(c) == e && forall i :: 0 <= i < |more| ==> Unescaped(more[i])
    ensures Escape("a" + [c] + more + "b") == "a" + e + more + "b"
  {
    hide Escape;
    UnreservedUnchanged("a");
    UnreservedUnchanged(more);
    UnreservedUnchanged("b");
    EscapedOne(c);
    EscapeConcat("a" + [c] + more, "b");
    EscapeConcat("a" + [c], more);
    EscapeConcat("a", [c]);
  }

  lemma EscapedOne(c: char)
    ensures Escape([c]) == EscapeChar(c)
  {
    assert [c][1..] == "" && EscapeChar(c) + "" == EscapeChar(c);
  }
}
