/**
 How a reference in a saved page finds its local file (localize and pathForURL of
 internal/localize/map.go): through the mapping, through the mapping with the URL
 unescaped, or else where the storage rules would have put the file.
 */
module UrlLookup {
  import opened Collections
  import opened Percent
  import opened Segments
  import opened UrlPath
  import opened CloneMapping
  import opened UrlRoundTrip

  /** No query, no fragment, and nothing that url.Parse rejects. */
  predicate Plain(s: string) {
    forall i :: 0 <= i < |s| ==> s[i] >= ' ' && s[i] != '?' && s[i] != '#' && s[i] != '\U{7F}'
  }

  function FirstSlash(s: string): (i: nat)
    ensures i <= |s| && '/' !in s[..i] && (i < |s| ==> s[i] == '/')
  {
    if s == "" || s[0] == '/' then 0 else FirstSlash(s[1..]) + 1
  }

  /** url.Parse of such an http or https URL. */
  function Parse(s: string): Option<Url> {
    if "https://" <= s then ParseRest(s[8..]) else if "http://" <= s then ParseRest(s[7..]) else None
  }

  function ParseRest(rest: string): Option<Url> {
    var i := FirstSlash(rest);
    var path := Unescape(rest[i..]);
    if path.None? then None else Some(Url(rest[..i], path.value))
  }

  /** Where the storage rules put a URL; nothing for a path with ".." or a URL without host. */
  function PathForUrl(u: Url): Option<Path> {
    if u.host == "" || HasDotDot(FileRules(u.path)) then None else Some([u.host] + NoDots(Split(FileRules(u.path))))
  }

  /** The local file that localize finds for an absolute URL in a tree of files. */
  function Lookup(files: seq<Path>, abs: string): Option<Path>
    requires NonEmptyPaths(files) && Plain(abs)
  {
    var m := Mapping(files);
    var d := Unescape(abs);
    if abs in m then Some(m[abs])
    else if d.Some? && d.value != abs && d.value in m then Some(m[d.value])
    else if Parse(abs).None? then None
    else
      var p := PathForUrl(Parse(abs).value);
      if p.Some? && p.value in files then p else None
  }

  // ---------- what the two spellings parse to ----------

  lemma {:induction false} FirstSlashAfter(a: string, b: string)
    requires '/' !in a && (b == "" || b[0] == '/')
    ensures FirstSlash(a + b) == |a|
  {
    if a == "" {
      assert a + b == b;
    } else {
      FirstSlashAfter(a[1..], b);
      assert (a + b)[1..] == a[1..] + b;
    }
  }

  lemma ParseHost(host: string, b: string, path: string)
    requires '/' !in host && (b == "" || b[0] == '/') && Unescape(b) == Some(path)
    ensures Parse("https://" + host + b) == Some(Url(host, path))
  {
    hide Unescape;
    var s := "https://" + host + b;
    FirstSlashAfter(host, b);
    assert s[8..] == host + b && (host + b)[..|host|] == host && (host + b)[|host|..] == b;
  }

  lemma CleanPathBytes(host: string, segs: seq<string>, slash: bool)
    requires CleanParts(host, segs)
    ensures var path := CleanUrl(host, segs, slash).path;
      AllBytes(path) && '%' !in path && (path == "" || path[0] == '/') && '/' !in host
  {
    hide Join;
    BytesJoin(segs);
    JoinPlain(segs);
  }

  lemma {:induction false} JoinPlain(segs: seq<string>)
    requires NoPercent(segs)
    ensures '%' !in Join(segs)
  {
    if |segs| > 1 {
      JoinPlain(segs[1..]);
    }
  }

  lemma EscapedStart(path: string)
    requires path == "" || path[0] == '/'
    ensures Escape(path) == "" || Escape(path)[0] == '/'
  {
  }

  /** Both spellings of a clean URL parse back to it, and unescaping the one gives the other. */
  lemma Parsed(host: string, segs: seq<string>, slash: bool)
    requires CleanParts(host, segs)
    ensures var u := CleanUrl(host, segs, slash);
      && Parse(UrlString(u)) == Some(u) && Parse(RawString(u)) == Some(u)
      && Unescape(UrlString(u)) == Some(RawString(u)) && Unescape(RawString(u)) == Some(RawString(u))
  {
    hide Escape, Unescape, Parse, AllBytes, Join, UrlSegment;
    var u := CleanUrl(host, segs, slash);
    HostUnchanged(host);
    CleanPathBytes(host, segs, slash);
    UnescapeEscape(u.path);
    UnescapeNothing(u.path);
    EscapedStart(u.path);
    ParseHost(host, Escape(u.path), u.path);
    ParseHost(host, u.path, u.path);
    ConcatIn("https://", host);
    UnescapeAfter("https://" + host, Escape(u.path));
    UnescapeAfter("https://" + host, u.path);
  }

  lemma UnescapeNothing(s: string)
    requires '%' !in s
    ensures Unescape(s) == Some(s)
  {
    UnescapeAfter(s, "");
    assert s + "" == s;
  }

  lemma {:induction false} EscapedPlain(s: string)
    ensures Plain(Escape(s))
  {
    if s != "" {
      EscapedPlain(s[1..]);
      assert Plain(EscapeChar(s[0]));
    }
  }

  lemma PlainConcat(a: string, b: string)
    requires Plain(a) && Plain(b)
    ensures Plain(a + b)
  {
  }

  lemma UrlIsPlain(host: string, path: string)
    requires HostName(host)
    ensures Plain(UrlString(Url(host, path)))
  {
    hide Escape;
    HostUnchanged(host);
    EscapedPlain(host);
    EscapedPlain(path);
    PlainConcat("https://", host);
    PlainConcat("https://" + host, Escape(path));
  }

  /** The fallback agrees with the storage, except where that uses the shared file. */
  lemma PathForIsSaved(host: string, segs: seq<string>, slash: bool)
    requires CleanParts(host, segs)
    ensures var u := CleanUrl(host, segs, slash);
      PathForUrl(u) == if HasDotDot(Join(segs)) then None else Some(SavedAt(u))
  {
    hide HasDotDot, FileRules, NoDots, Split, Join, UrlSegment, AllBytes;
    RulesOf(host, segs, slash);
    assert CleanUrl(host, segs, slash).host == host != "";
  }

  // ---------- which names the mapping holds ----------

  /** Only the file itself holds an unescaped form without "%". */
  lemma NoOtherHolds(files: seq<Path>, i: nat, j: nat, f: Path)
    requires FileTree(files) && NonEmptyPaths(files) && i < |files| && j < |files| && i != j
    requires f in Forms(files[i]) && NoPercent(f)
    ensures !Holds(files, j, f)
  {
    hide EscapeAll, CleanPath, NoPercent, Listed, Forms, Added;
    FilesDiffer(files, i, j);
    FormsDisjoint(files[i], files[j], f);
    ListedIsForm(files[j]);
    forall g | g in Forms(files[j]) ensures EscapeAll(g) != f {
      if EscapeAll(g) == f {
        Unchanged(g);
      }
    }
  }

  /** The fate of the escaped name of a form of file i. */
  lemma EscapedFate(files: seq<Path>, i: nat, f: Path)
    requires FileTree(files) && NonEmptyPaths(files) && i < |files| && f in Forms(files[i])
    ensures var m, e := Mapping(files), Name(EscapeAll(f));
      if NotTaken(files, i, f) then e in m ==> m[e] == files[i] else e in m && m[e] != files[i]
  {
    hide Mapping, Name, CleanPath, Slashless, EscapeAll, Forms, Added, Shadows, FileTree, Listed;
    var k := EscapeAll(f);
    TreeClean(files, i);
    FormsSlashless(files[i], f);
    MappedIff(files, i, k);
    MappingAnswers(files, k);
    NotItself(files[i], f);
    assert k in Keys(files[i]);
    forall j | 0 <= j < |files| && j != i
      ensures Holds(files, j, k) <==> Added(files, j) && Shadows(files[j], files[i], f)
    {
      KeyIsShadow(files, i, j, f);
    }
  }

  /** No registered file takes form f of file i, unless file i is registered after it. */
  ghost predicate NotTaken(files: seq<Path>, i: nat, f: Path)
    requires NonEmptyPaths(files) && i < |files|
  {
    forall j :: 0 <= j < |files| && Shadows(files[j], files[i], f) && Added(files, j) ==> j < i && Added(files, i)
  }

  lemma RawFate(files: seq<Path>, i: nat, f: Path)
    requires FileTree(files) && NonEmptyPaths(files) && i < |files| && f in Forms(files[i]) && NoPercent(f)
    ensures Name(f) in Mapping(files) ==> Mapping(files)[Name(f)] == files[i]
  {
    hide Mapping, Name, CleanPath, Slashless, EscapeAll, Forms, Added, FileTree, Keys, NoPercent, Holds;
    TreeClean(files, i);
    FormsSlashless(files[i], f);
    MappingAnswers(files, f);
    forall j | 0 <= j < |files| && j != i ensures !Holds(files, j, f) {
      NoOtherHolds(files, i, j, f);
    }
  }

  /** No key of a file has a "." segment. */
  lemma KeysHaveNoDot(p: Path, k: Path)
    requires CleanPath(p) && k in Keys(p)
    ensures "." !in k
  {
    hide Escape, HostName, AllBytes;
    HostIsNoDot(p[0]);
    forall f | f in Forms(p) ensures "." !in f {
      assert forall i :: 0 <= i < |p| ==> p[i] != ".";
    }
    if k != Listed(p) {
      var f :| f in Forms(p) && k == EscapeAll(f);
      FormsSlashless(p, f);
      forall i | 0 <= i < |f| ensures k[i] != "." {
        if Escape(f[i]) == "." {
          EscapedDot(f[i]);
        }
      }
    } else {
      ListedIsForm(p);
    }
  }

  lemma HostIsNoDot(host: string)
    requires HostName(host)
    ensures host != "."
  {
  }

  lemma EscapedDot(s: string)
    requires AllBytes(s)
    ensures Escape(s) == "." <==> s == "."
  {
    hide Escape, Unescape;
    UnreservedUnchanged(".");
    UnescapeEscape(s);
    UnescapeEscape(".");
  }

  /** So a URL with a "." segment is no name in the mapping, and nothing shadows it. */
  lemma DotUnmapped(files: seq<Path>, k: Path)
    requires FileTree(files) && NonEmptyPaths(files) && Slashless(k) && "." in k
    ensures Name(k) !in Mapping(files)
  {
    hide Mapping, Name, CleanPath, Slashless, Added, FileTree, Keys;
    MappingAnswers(files, k);
    forall j | 0 <= j < |files| ensures !Holds(files, j, k) {
      TreeClean(files, j);
      if k in Keys(files[j]) {
        KeysHaveNoDot(files[j], k);
      }
    }
  }

  lemma DotNotTaken(files: seq<Path>, i: nat, f: Path)
    requires FileTree(files) && NonEmptyPaths(files) && i < |files| && "." in EscapeAll(f)
    ensures NotTaken(files, i, f)
  {
    hide Added, CleanPath, EscapeAll, FileTree, Keys, Listed;
    forall j | 0 <= j < |files| ensures !Shadows(files[j], files[i], f) {
      TreeClean(files, j);
      ListedIsKey(files[j]);
      if Listed(files[j]) == EscapeAll(f) {
        KeysHaveNoDot(files[j], Listed(files[j]));
      }
    }
  }

  lemma DotEscaped(f: Path)
    requires "." in f
    ensures "." in EscapeAll(f)
  {
    hide Escape;
    UnreservedUnchanged(".");
    var i :| 0 <= i < |f| && f[i] == ".";
    assert EscapeAll(f)[i] == ".";
  }

  /** The shared file has one name. */
  lemma SharedName(host: string, k: Path)
    requires HostName(host) && k in Keys([host, "_safe_path"])
    ensures k == [host, "_safe_path"]
  {
    hide Escape, HostName;
    SafePathClean(host);
    HostUnchanged(host);
    UnreservedUnchanged("_safe_path");
    assert EscapeAll([host, "_safe_path"]) == [host, "_safe_path"];
  }

  /** A URL with ".." is not mapped to the shared file it is saved in. */
  lemma SharedNotFound(files: seq<Path>, host: string, f: Path)
    requires FileTree(files) && NonEmptyPaths(files) && HostName(host) && f != [host, "_safe_path"]
    requires Slashless(f) && Slashless(EscapeAll(f)) && NoPercent(f)
    ensures Name(f) in Mapping(files) ==> Mapping(files)[Name(f)] != [host, "_safe_path"]
    ensures var e := Name(EscapeAll(f)); e in Mapping(files) ==> Mapping(files)[e] != [host, "_safe_path"]
  {
    hide Mapping, Name, CleanPath, Slashless, EscapeAll, Added, FileTree, Keys, NoPercent;
    MappedToFile(files, f);
    MappedToFile(files, EscapeAll(f));
    forall i | 0 <= i < |files| && files[i] == [host, "_safe_path"]
      ensures Name(f) in Mapping(files) ==> Mapping(files)[Name(f)] != files[i]
      ensures Name(EscapeAll(f)) in Mapping(files) ==> Mapping(files)[Name(EscapeAll(f))] != files[i]
    {
      MappedIff(files, i, f);
      MappedIff(files, i, EscapeAll(f));
      if f in Keys(files[i]) {
        SharedName(host, f);
      }
      if EscapeAll(f) in Keys(files[i]) {
        SharedName(host, EscapeAll(f));
        SharedPlain(host);
        Unchanged(f);
      }
    }
  }

  lemma SharedPlain(host: string)
    requires HostName(host)
    ensures NoPercent([host, "_safe_path"])
  {
    HostUnchanged(host);
  }

  // ---------- the round trip ----------

  /** For every clean URL, tree of saved files and walk order: the URL as it is printed leads to the file that it was
      saved in exactly when it has no "..", the file is there, and no registered file has taken the name for good; the
      same URL unescaped, exactly when it has no ".." and the file is there. */
  lemma LookupIff(files: seq<Path>, host: string, segs: seq<string>, slash: bool)
    requires FileTree(files) && NonEmptyPaths(files) && CleanParts(host, segs)
    ensures var u, f := CleanUrl(host, segs, slash), UrlList(host, segs, slash);
      && Plain(UrlString(u))
      && (Lookup(files, UrlString(u)) == Some(SavedAt(u)) <==>
            !HasDotDot(Join(segs)) && exists i :: 0 <= i < |files| && files[i] == SavedAt(u) && NotTaken(files, i, f))
      && (Plain(RawString(u)) ==>
            (Lookup(files, RawString(u)) == Some(SavedAt(u)) <==> !HasDotDot(Join(segs)) && SavedAt(u) in files))
  {
    hide SavedAt, Mapping, HasDotDot, Join, UrlString, RawString, Name, FileFor, EscapeAll, CleanPath, Parse,
      PathForUrl, Slashless, Bytes, NoPercent, Keys, Added, Shadows, UrlList, Forms, Plain, FileTree, NotTaken,
      Unescape, HostName;
    var u, p, f := CleanUrl(host, segs, slash), SavedAt(CleanUrl(host, segs, slash)), UrlList(host, segs, slash);
    UrlIsPlain(host, u.path);
    SavedAtOf(host, segs, slash);
    Spelled(host, segs, slash);
    CleanList(host, segs, slash);
    Parsed(host, segs, slash);
    PathForIsSaved(host, segs, slash);
    if HasDotDot(Join(segs)) {
      NotShared(host, segs, slash);
      SharedNotFound(files, host, f);
    } else {
      MappedToFile(files, f);
      MappedToFile(files, EscapeAll(f));
      forall i | 0 <= i < |files| && files[i] == p
        ensures if NotTaken(files, i, f) then Found(files, Name(EscapeAll(f)), p)
                else Name(EscapeAll(f)) in Mapping(files) && !Found(files, Name(EscapeAll(f)), p)
        ensures Found(files, Name(f), p)
      {
        FoundFate(files, i, host, segs, slash);
      }
    }
  }

  /** The mapping leads to p or nowhere. */
  ghost predicate Found(files: seq<Path>, name: string, p: Path)
    requires NonEmptyPaths(files)
  {
    name in Mapping(files) ==> Mapping(files)[name] == p
  }

  lemma FoundFate(files: seq<Path>, i: nat, host: string, segs: seq<string>, slash: bool)
    requires FileTree(files) && NonEmptyPaths(files) && CleanParts(host, segs) && !HasDotDot(Join(segs))
    requires i < |files| && files[i] == FileFor(host, segs, slash)
    ensures var f, p := UrlList(host, segs, slash), files[i];
      && (if NotTaken(files, i, f) then Found(files, Name(EscapeAll(f)), p)
          else Name(EscapeAll(f)) in Mapping(files) && !Found(files, Name(EscapeAll(f)), p))
      && Found(files, Name(f), p)
  {
    hide Mapping, HasDotDot, Join, Name, FileFor, EscapeAll, Slashless, NoPercent, Added, Shadows, Forms, FileTree,
      NotTaken, HostName, UrlSegment;
    var f := UrlList(host, segs, slash);
    CleanList(host, segs, slash);
    if "." in segs {
      var k :| 0 <= k < |segs| && segs[k] == ".";
      assert f[k + 1] == ".";
      DotEscaped(f);
      DotNotTaken(files, i, f);
      DotUnmapped(files, f);
      DotUnmapped(files, EscapeAll(f));
    } else {
      OwnForm(host, segs, slash);
      EscapedFate(files, i, f);
      RawFate(files, i, f);
    }
  }

  lemma NotShared(host: string, segs: seq<string>, slash: bool)
    requires CleanParts(host, segs) && HasDotDot(Join(segs))
    ensures UrlList(host, segs, slash) != [host, "_safe_path"]
  {
    hide HasDotDot, Join;
    SafePathClean(host);
    NotItsOwn(host, segs, slash);
  }

  /** In trees without "%" in their names the lookup finds the file of every clean URL without "..", in both spellings,
      exactly when it is there. */
  lemma PlainLookup(files: seq<Path>, host: string, segs: seq<string>, slash: bool)
    requires FileTree(files) && NonEmptyPaths(files) && NoPercents(files) && CleanParts(host, segs)
    ensures var u := CleanUrl(host, segs, slash);
      && Plain(UrlString(u))
      && (Lookup(files, UrlString(u)) == Some(SavedAt(u)) <==> !HasDotDot(Join(segs)) && SavedAt(u) in files)
  {
    hide SavedAt, HasDotDot, Join, UrlString, Plain, Lookup, FileTree, NoPercents, NonEmptyPaths, CleanParts, FileFor,
      NotTaken, UrlList;
    var u, f := CleanUrl(host, segs, slash), UrlList(host, segs, slash);
    LookupIff(files, host, segs, slash);
    SavedAtOf(host, segs, slash);
    if !HasDotDot(Join(segs)) && SavedAt(u) in files {
      var i :| 0 <= i < |files| && files[i] == SavedAt(u);
      PlainNotTaken(files, i, host, segs, slash);
    }
  }

  lemma PlainNotTaken(files: seq<Path>, i: nat, host: string, segs: seq<string>, slash: bool)
    requires FileTree(files) && NonEmptyPaths(files) && NoPercents(files) && CleanParts(host, segs)
    requires i < |files| && files[i] == FileFor(host, segs, slash)
    ensures NotTaken(files, i, UrlList(host, segs, slash))
  {
    hide FileFor, Added, Shadows, Forms, FileTree, NoPercents, HostName, UrlSegment, EscapeAll;
    var f := UrlList(host, segs, slash);
    if "." in segs {
      var k :| 0 <= k < |segs| && segs[k] == ".";
      assert f[k + 1] == ".";
      DotEscaped(f);
      DotNotTaken(files, i, f);
    } else {
      OwnForm(host, segs, slash);
      AllAdded(files, i, f);
    }
  }

  /** A reference that escapes more or less than the printed URL does, and is no name itself, finds the file that holds
      the name it spells when unescaped. */
  lemma OtherSpellings(files: seq<Path>, i: nat, k: Path, abs: string)
    requires FileTree(files) && NonEmptyPaths(files) && i < |files| && Slashless(k) && HoldsLast(files, i, k)
    requires Plain(abs) && Unescape(abs) == Some(Name(k)) && abs !in Mapping(files)
    ensures Lookup(files, abs) == Some(files[i])
  {
    hide Mapping, Unescape, Name, HoldsLast, Parse, PathForUrl, FileTree, Slashless;
    MappedIff(files, i, k);
  }

  // ---------- http references ----------

  function HttpString(u: Url): string {
    "http://" + u.host + Escape(u.path)
  }

  function RawHttpString(u: Url): string {
    "http://" + u.host + u.path
  }

  /** The mapping holds https names only. */
  lemma {:induction false} MappingIsHttps(files: seq<Path>, name: string)
    requires FileTree(files) && NonEmptyPaths(files) && name in Mapping(files)
    ensures "https://" <= name
  {
    hide AddUrl, UrlFromLocalPath, CleanPath, FileTree;
    var n := |files| - 1;
    TreePrefix(files, n);
    TreeClean(files, n);
    if name in Mapping(files[..n]) {
      MappingIsHttps(files[..n], name);
    } else {
      AddedIsHttps(Mapping(files[..n]), files[n], name);
    }
  }

  lemma AddedIsHttps(m: map<string, Path>, p: Path, name: string)
    requires CleanPath(p) && name in AddUrl(m, UrlFromLocalPath(p), p) && name !in m
    ensures "https://" <= name
  {
    hide AddUrl, Name, UrlFromLocalPath, CleanPath, EscapeAll, Listed, IsIndexFile;
    AddUrlNames(m, p);
    NamesAreHttps();
  }

  lemma NamesAreHttps()
    ensures forall segs :: "https://" <= Name(segs)
  {
  }

  /** What is neither in the mapping nor an http or https URL is not found. */
  lemma OtherSchemes(files: seq<Path>, abs: string)
    requires FileTree(files) && NonEmptyPaths(files) && Plain(abs)
    requires !("https://" <= abs) && !("http://" <= abs) && '%' !in abs
    ensures Lookup(files, abs) == None
  {
    hide Mapping, Unescape, ParseRest;
    UnescapeNothing(abs);
    if abs in Mapping(files) {
      MappingIsHttps(files, abs);
    }
  }

  lemma ParseHttp(host: string, b: string, path: string)
    requires '/' !in host && (b == "" || b[0] == '/') && Unescape(b) == Some(path)
    ensures var s := "http://" + host + b; Parse(s) == Some(Url(host, path)) && !("https://" <= s)
  {
    hide Unescape;
    var s := "http://" + host + b;
    FirstSlashAfter(host, b);
    assert s[4] == ':' && "https://"[4] == 's';
    assert s[7..] == host + b && (host + b)[..|host|] == host && (host + b)[|host|..] == b;
  }

  lemma ParsedHttp(host: string, segs: seq<string>, slash: bool)
    requires CleanParts(host, segs)
    ensures var u := CleanUrl(host, segs, slash);
      && Parse(HttpString(u)) == Some(u) && Parse(RawHttpString(u)) == Some(u)
      && !("https://" <= HttpString(u)) && !("https://" <= RawHttpString(u))
      && Unescape(HttpString(u)) == Some(RawHttpString(u)) && Unescape(RawHttpString(u)) == Some(RawHttpString(u))
  {
    hide Escape, Unescape, Parse, AllBytes, Join, UrlSegment;
    var u := CleanUrl(host, segs, slash);
    HostUnchanged(host);
    CleanPathBytes(host, segs, slash);
    UnescapeEscape(u.path);
    UnescapeNothing(u.path);
    EscapedStart(u.path);
    ParseHttp(host, Escape(u.path), u.path);
    ParseHttp(host, u.path, u.path);
    ConcatIn("http://", host);
    UnescapeAfter("http://" + host, Escape(u.path));
    UnescapeAfter("http://" + host, u.path);
  }

  lemma HttpIsPlain(host: string, path: string)
    requires HostName(host)
    ensures Plain(HttpString(Url(host, path)))
  {
    hide Escape;
    HostUnchanged(host);
    EscapedPlain(host);
    EscapedPlain(path);
    PlainConcat("http://", host);
    PlainConcat("http://" + host, Escape(path));
  }

  /** With http in front the mapping never helps, and the storage rules find the file of every clean URL, in both
      spellings, exactly when it has no ".." and the file is there. */
  lemma HttpLookup(files: seq<Path>, host: string, segs: seq<string>, slash: bool)
    requires FileTree(files) && NonEmptyPaths(files) && CleanParts(host, segs)
    ensures var u := CleanUrl(host, segs, slash);
      var found := if !HasDotDot(Join(segs)) && SavedAt(u) in files then Some(SavedAt(u)) else None;
      && Plain(HttpString(u)) && Lookup(files, HttpString(u)) == found
      && (Plain(RawHttpString(u)) ==> Lookup(files, RawHttpString(u)) == found)
  {
    hide SavedAt, Mapping, HasDotDot, Join, HttpString, RawHttpString, CleanPath, Parse, PathForUrl, Plain, FileTree,
      Unescape, HostName, UrlSegment;
    var u := CleanUrl(host, segs, slash);
    HttpIsPlain(host, u.path);
    ParsedHttp(host, segs, slash);
    PathForIsSaved(host, segs, slash);
    forall name | name in Mapping(files) ensures "https://" <= name {
      MappingIsHttps(files, name);
    }
  }

  // ---------- URLs without a host ----------

  /** A URL without a host has no file. */
  lemma HostlessNotFound(path: string)
    ensures PathForUrl(Url("", path)) == None
  {
  }
}
