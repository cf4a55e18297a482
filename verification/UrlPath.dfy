/**
 Where a URL is saved (PathForURL of internal/storage/path.go), which URL a saved file
 is read back as (urlFromLocalPath of internal/localize/scan.go), and the map from URLs
 to files that the localizer builds by walking the clone (buildMapping of
 internal/localize/localize.go).

 A char is a byte here.  URLs are https, without port or query; their decoded path has
 no "%", so that decoding it a second time changes nothing.  A file is the list of its
 path segments below the clone root, the host first.
 */
module UrlPath {
  import opened Collections
  import opened Percent
  import opened Segments

  /** A parsed URL: the path is decoded. */
  datatype Url = Url(host: string, path: string)

  type Path = seq<string>

  const INDEX := "index.html"

  // ---------- saving ----------

  /** The URL as url.URL.String prints it, and with nothing escaped. */
  function UrlString(u: Url): string {
    "https://" + u.host + Escape(u.path)
  }

  function RawString(u: Url): string {
    "https://" + u.host + u.path
  }

  function LastSlash(s: string): (i: int)
    ensures -1 <= i < |s|
    ensures i >= 0 ==> s[i] == '/'
    ensures forall k :: i < k < |s| ==> s[k] != '/'
  {
    if s == "" then -1
    else if s[|s| - 1] == '/' then |s| - 1
    else LastSlash(s[..|s| - 1])
  }

  /** The part after the last slash. */
  function BaseName(s: string): string {
    s[LastSlash(s) + 1..]
  }

  predicate HasDotDot(s: string) {
    exists i :: 0 <= i < |s| - 1 && s[i] == '.' && s[i + 1] == '.'
  }

  /** The file name rules, from the URL's path to the path below the host directory. */
  function FileRules(path: string): string {
    var a := if path == "" || path == "/" then "/" + INDEX else path;
    var b := if a[|a| - 1] == '/' then a + INDEX else a;
    var c := if b[0] == '/' then b[1..] else b;
    if '.' !in BaseName(c) then c + "/" + INDEX else c
  }

  function FileName(path: string): string {
    if HasDotDot(FileRules(path)) then "_safe_path" else FileRules(path)
  }

  /** What filepath.Join drops from a path without "..": empty and "." segments. */
  function NoDots(segs: seq<string>): (r: seq<string>)
    ensures forall i :: 0 <= i < |r| ==> r[i] in segs && r[i] != "" && r[i] != "."
  {
    if segs == [] then []
    else
      assert forall s :: s in segs[1..] ==> s in segs;
      (if Dropped(segs[0]) then [] else [segs[0]]) + NoDots(segs[1..])
  }

  predicate Dropped(s: string) {
    s == "" || s == "."
  }

  function SavedAt(u: Url): (p: Path)
    ensures p != []
  {
    [u.host] + NoDots(Split(FileName(u.path)))
  }

  // ---------- reading back ----------

  function UrlFromLocalPath(p: Path): string
    requires p != []
  {
    var rest := if Join(p[1..]) == "" then "/" else Join(p[1..]);
    UrlString(Url(p[0], "/" + rest))
  }

  predicate IsIndexUrl(u: string) {
    |u| >= |INDEX| + 1 && u[|u| - |INDEX| - 1..] == "/" + INDEX
  }

  function IndexBase(u: string): string
    requires IsIndexUrl(u)
  {
    u[..|u| - |INDEX| - 1]
  }

  /** addURL: the URL itself, its unescaped form, and for a directory page its two directory forms. */
  function AddUrl(m: map<string, Path>, u: string, p: Path): map<string, Path> {
    var d := Unescape(u);
    var m' := if d.Some? && d.value != u then m[u := p][d.value := p] else m[u := p];
    if IsIndexUrl(u) && IndexBase(u) != "" then m'[IndexBase(u) + "/" := p][IndexBase(u) := p] else m'
  }

  /** One file of the reverse scan: only a URL not yet known is added. */
  function ScanFile(m: map<string, Path>, p: Path): map<string, Path>
    requires p != []
  {
    var u := UrlFromLocalPath(p);
    if u in m then m else AddUrl(m, u, p)
  }

  ghost predicate NonEmptyPaths(files: seq<Path>) {
    forall i :: 0 <= i < |files| ==> files[i] != []
  }

  function Mapping(files: seq<Path>): map<string, Path>
    requires NonEmptyPaths(files)
  {
    if files == [] then map[]
    else
      assert files[|files| - 1] != [];
      ScanFile(Mapping(files[..|files| - 1]), files[|files| - 1])
  }

  /** The closure addURL. */
  method AddUrlTo(urlToLocal: map<string, Path>, u: string, p: Path) returns (r: map<string, Path>)
    ensures r == AddUrl(urlToLocal, u, p)
  {
    hide Unescape, IsIndexUrl, IndexBase;
    r := urlToLocal[u := p];
    var d := Unescape(u);
    if d.Some? && d.value != u {
      r := r[d.value := p];
    }
    if IsIndexUrl(u) {
      var base := IndexBase(u);
      if base != "" {
        r := r[base + "/" := p];
        r := r[base := p];
      }
    }
  }

  method BuildMapping(files: seq<Path>) returns (urlToLocal: map<string, Path>)
    requires NonEmptyPaths(files)
    ensures urlToLocal == Mapping(files)
  {
    hide AddUrl, UrlFromLocalPath;
    urlToLocal := map[];
    for i := 0 to |files|
      invariant urlToLocal == Mapping(files[..i])
    {
      assert files[..i + 1][..i] == files[..i];
      var u := UrlFromLocalPath(files[i]);
      if u !in urlToLocal {
        urlToLocal := AddUrlTo(urlToLocal, u, files[i]);
      }
    }
    assert files[..|files|] == files;
  }

  // ---------- files and their names ----------

  predicate FileSegment(s: string) {
    s != "" && s != "." && s != ".." && '/' !in s && AllBytes(s)
  }

  /** A host, or a file beside the host directories: printed unchanged, and not skipped as outside the root. */
  predicate HostName(s: string) {
    FileSegment(s) && !(".." <= s) && forall i :: 0 <= i < |s| ==> Unreserved(s[i])
  }

  ghost predicate CleanPath(p: Path) {
    p != [] && HostName(p[0]) && forall i :: 0 < i < |p| ==> FileSegment(p[i])
  }

  /** A tree of files: no file listed twice, no file also a directory. */
  ghost predicate FileTree(files: seq<Path>) {
    && (forall i :: 0 <= i < |files| ==> CleanPath(files[i]))
    && (forall i, j :: 0 <= i < |files| && 0 <= j < |files| && i != j ==> !(files[i] <= files[j]))
  }

  /** The segments of the URL a file is read back as: a file beside the hosts gets two slashes. */
  function Listed(p: Path): Path
    requires p != []
  {
    if |p| == 1 then [p[0], "", ""] else p
  }

  /** The directory of an index file. */
  predicate IsIndexFile(p: Path) {
    |p| >= 2 && p[|p| - 1] == INDEX
  }

  function Directory(p: Path): Path
    requires |p| >= 2
  {
    p[..|p| - 1]
  }

  /** The segment lists a file is known under: its own, and for an index file its directory without and with
      a trailing slash. */
  function Forms(p: Path): set<Path>
    requires p != []
  {
    {Listed(p)} + (if IsIndexFile(p) then {Directory(p), Directory(p) + [""]} else {})
  }

  /** The lists whose names addURL registers: every form escaped, but only the file's own form unescaped. */
  function Keys(p: Path): set<Path>
    requires p != []
  {
    (set f | f in Forms(p) :: EscapeAll(f)) + {Listed(p)}
  }

  function Name(segs: seq<string>): string {
    "https://" + Join(segs)
  }

  ghost predicate Slashless(segs: seq<string>) {
    segs != [] && forall i :: 0 <= i < |segs| ==> '/' !in segs[i]
  }

  ghost predicate Bytes(segs: seq<string>) {
    forall i :: 0 <= i < |segs| ==> AllBytes(segs[i])
  }

  lemma NameInjective(a: seq<string>, b: seq<string>)
    requires Slashless(a) && Slashless(b) && Name(a) == Name(b)
    ensures a == b
  {
    assert Name(a)[8..] == Join(a) && Name(b)[8..] == Join(b);
    SplitJoin(a);
    SplitJoin(b);
  }

  lemma EscapeAllInjective(a: seq<string>, b: seq<string>)
    requires Bytes(a) && Bytes(b) && EscapeAll(a) == EscapeAll(b)
    ensures a == b
  {
    forall i | 0 <= i < |a| ensures a[i] == b[i] {
      UnescapeEscape(a[i]);
      UnescapeEscape(b[i]);
      assert EscapeAll(a)[i] == EscapeAll(b)[i];
    }
  }

  lemma EscapedSlashless(a: seq<string>)
    requires Slashless(a)
    ensures Slashless(EscapeAll(a))
  {
    forall i | 0 <= i < |a| ensures '/' !in EscapeAll(a)[i] {
      EscapeSegment(a[i]);
    }
  }

  lemma FormsSlashless(p: Path, f: Path)
    requires CleanPath(p) && f in Forms(p)
    ensures Slashless(f) && Bytes(f) && Slashless(EscapeAll(f))
  {
    assert Slashless(f) && Bytes(f);
    EscapedSlashless(f);
  }

  lemma KeysSlashless(p: Path, k: Path)
    requires CleanPath(p) && k in Keys(p)
    ensures Slashless(k)
  {
    hide EscapeAll, Escape, Slashless;
    if k == Listed(p) {
      FormsSlashless(p, k);
    } else {
      var f :| f in Forms(p) && k == EscapeAll(f);
      FormsSlashless(p, f);
    }
  }

  /** Files of one tree share no form. */
  lemma FormsDisjoint(p: Path, q: Path, f: Path)
    requires CleanPath(p) && CleanPath(q) && !(p <= q) && !(q <= p) && f in Forms(p)
    ensures f !in Forms(q)
  {
    assert p <= p + [INDEX] && q <= q + [INDEX];
    FormDetermines(p, f);
    if f in Forms(q) {
      FormDetermines(q, f);
    }
  }

  /** A form tells its file: without its empty segments it is the file, or the directory of the index file. */
  lemma FormDetermines(p: Path, f: Path)
    requires CleanPath(p) && f in Forms(p)
    ensures f != [] && (p == Bare(f) || p == Bare(f) + [INDEX])
  {
    if |p| == 1 {
      assert f[..2] == [p[0], ""] && f[..2][..1] == p;
      assert Bare(p) == p && Bare(f[..2]) == p;
    } else if f == p {
      assert Bare(f) == p;
    } else {
      assert p == Directory(p) + [INDEX];
      assert p[|p| - 2] != "" && Directory(p)[|p| - 2] == p[|p| - 2];
      if f != Directory(p) {
        assert f[..|f| - 1] == Directory(p);
      }
      assert Bare(f) == Directory(p);
    }
  }

  function Bare(f: Path): Path {
    if f != [] && f[|f| - 1] == "" then Bare(f[..|f| - 1]) else f
  }

  // ---------- what addURL registers ----------

  /** The text around the last slash is unique. */
  lemma LastSlashUnique(x: string, a: string, y: string, b: string)
    requires x + "/" + a == y + "/" + b && '/' !in a && '/' !in b
    ensures x == y && a == b
  {
    BaseNameOf(x + "/", a);
    BaseNameOf(y + "/", b);
    assert x == (x + "/" + a)[..|x|] && y == (y + "/" + b)[..|y|];
  }

  lemma IndexNameIff(segs: seq<string>)
    requires |segs| >= 2 && Slashless(segs)
    ensures IsIndexUrl(Name(segs)) <==> segs[|segs| - 1] == INDEX
    ensures segs[|segs| - 1] == INDEX ==> IndexBase(Name(segs)) == Name(segs[..|segs| - 1])
  {
    hide Join;
    var n := |segs| - 1;
    var last := segs[n];
    var u := Name(segs);
    assert segs == segs[..n] + [last];
    JoinConcat(segs[..n], [last]);
    JoinOne(last);
    assert u == Name(segs[..n]) + "/" + last;
    if IsIndexUrl(u) {
      IndexIsClean();
      assert u == IndexBase(u) + "/" + INDEX;
      LastSlashUnique(IndexBase(u), INDEX, Name(segs[..n]), last);
    }
  }

  lemma NameWithSlash(segs: seq<string>)
    requires segs != []
    ensures Name(segs + [""]) == Name(segs) + "/"
  {
    JoinConcat(segs, [""]);
    assert "https://" + (Join(segs) + "/" + "") == "https://" + Join(segs) + "/";
  }

  /** A clean file is read back as the escaped name of its list. */
  lemma ReadBack(p: Path)
    requires CleanPath(p)
    ensures UrlFromLocalPath(p) == Name(EscapeAll(Listed(p)))
    ensures Unescape(UrlFromLocalPath(p)) == Some(Name(Listed(p)))
  {
    hide Escape, Unescape, EscapeAll, IsByte, HostName, FileSegment, AllBytes, Join, Listed;
    ListedStarts(p);
    var host, list := p[0], Listed(p);
    var path := "/" + Join(list[1..]);
    ReadBackPath(p);
    HostUnchanged(host);
    EscapedPath(list);
    PathIsBytes(p);
    UnescapeEscape(path);
    ConcatIn("https://", host);
    UnescapeAfter("https://" + host, Escape(path));
    AfterHost(list);
    AfterHost(EscapeAll(list));
  }

  lemma ListedStarts(p: Path)
    requires p != []
    ensures Listed(p)[0] == p[0] && |Listed(p)| > 1
  {
  }

  lemma EscapedPath(list: Path)
    requires |list| > 1
    ensures Escape("/" + Join(list[1..])) == "/" + Join(EscapeAll(list)[1..])
  {
    hide Escape, Join;
    EscapeConcat("/", Join(list[1..]));
    UnreservedUnchanged("/");
    EscapeJoin(list[1..]);
    assert EscapeAll(list)[1..] == EscapeAll(list[1..]);
  }

  lemma AfterHost(list: Path)
    requires |list| > 1
    ensures Name(list) == "https://" + list[0] + ("/" + Join(list[1..]))
  {
  }

  lemma ReadBackPath(p: Path)
    requires CleanPath(p)
    ensures UrlFromLocalPath(p) == UrlString(Url(p[0], "/" + Join(Listed(p)[1..])))
  {
    if |p| == 1 {
      assert Join(["", ""]) == "/";
      assert Listed(p)[1..] == ["", ""];
      assert Join(p[1..]) == "";
    } else {
      assert p[1..][0] != "";
      assert Join(p[1..]) != "";
    }
  }

  lemma PathIsBytes(p: Path)
    requires CleanPath(p)
    ensures AllBytes("/" + Join(Listed(p)[1..]))
  {
    var rest := Listed(p)[1..];
    forall i | 0 <= i < |rest| ensures AllBytes(rest[i]) {
    }
    BytesJoin(rest);
  }

  lemma {:induction false} BytesJoin(segs: seq<string>)
    requires Bytes(segs)
    ensures AllBytes(Join(segs))
  {
    if |segs| > 1 {
      BytesJoin(segs[1..]);
    }
  }

  lemma EscapeIndexIff(s: string)
    requires AllBytes(s)
    ensures Escape(s) == INDEX <==> s == INDEX
  {
    hide Escape, Unescape;
    UnreservedUnchanged(INDEX);
    UnescapeEscape(s);
    UnescapeEscape(INDEX);
  }

  /** The keys of a clean path, listed. */
  lemma KeysOf(p: Path)
    requires CleanPath(p)
    ensures var l, e := Listed(p), EscapeAll(Listed(p));
      && |e| >= 2 && Slashless(e) && Slashless(l)
      && (e[|e| - 1] == INDEX <==> IsIndexFile(p))
      && Keys(p) == if IsIndexFile(p) then {l, e, e[..|e| - 1], e[..|e| - 1] + [""]} else {l, e}
  {
    hide Escape, IsByte, Unreserved;
    var l, e := Listed(p), EscapeAll(Listed(p));
    FormsSlashless(p, l);
    EscapeIndexIff(l[|l| - 1]);
    assert Keys(p) == {EscapeAll(l), l} + (set f | f in Forms(p) && f != l :: EscapeAll(f));
    if IsIndexFile(p) {
      var d := Directory(p);
      EscapeSegment("");
      assert e[..|e| - 1] == EscapeAll(d) && EscapeAll(d) + [""] == EscapeAll(d + [""]);
      assert Forms(p) == {l, d, d + [""]};
    } else {
      assert Forms(p) == {l};
    }
  }

  lemma AddUrlAs(m: map<string, Path>, u: string, d: string, p: Path)
    requires Unescape(u) == Some(d)
    ensures AddUrl(m, u, p) ==
      var m' := m[u := p][d := p];
      if IsIndexUrl(u) && IndexBase(u) != "" then m'[IndexBase(u) + "/" := p][IndexBase(u) := p] else m'
  {
    hide Unescape;
  }

  /** addURL in terms of names. */
  lemma AddUrlNames(m: map<string, Path>, p: Path)
    requires CleanPath(p)
    ensures var l, e := Listed(p), EscapeAll(Listed(p));
      && |e| >= 2
      && AddUrl(m, UrlFromLocalPath(p), p) ==
           var m' := m[Name(e) := p][Name(l) := p];
           if IsIndexFile(p) then m'[Name(e[..|e| - 1] + [""]) := p][Name(e[..|e| - 1]) := p] else m'
  {
    hide Name, IsIndexUrl, IndexBase, UrlFromLocalPath, Unescape, EscapeAll, HostName, FileSegment, Slashless, Keys,
      AddUrl, Listed;
    var e := EscapeAll(Listed(p));
    ReadBack(p);
    KeysOf(p);
    IndexNameIff(e);
    NameNotEmpty(e[..|e| - 1]);
    NameWithSlash(e[..|e| - 1]);
    AddUrlAs(m, UrlFromLocalPath(p), Name(Listed(p)), p);
  }

  /** addURL registers a clean path under exactly the names of its keys. */
  lemma AddUrlEffect(m: map<string, Path>, p: Path, k: Path)
    requires CleanPath(p) && Slashless(k)
    ensures var m' := AddUrl(m, UrlFromLocalPath(p), p);
      if k in Keys(p) then Name(k) in m' && m'[Name(k)] == p
      else (Name(k) in m' <==> Name(k) in m) && (Name(k) in m ==> m'[Name(k)] == m[Name(k)])
  {
    hide Name, UrlFromLocalPath, EscapeAll, Slashless, Keys, AddUrl, HostName, FileSegment, Listed, IsIndexFile;
    AddUrlNames(m, p);
    KeysOf(p);
    forall g | g in Keys(p) ensures Name(g) == Name(k) <==> g == k {
      KeysSlashless(p, g);
      if Name(g) == Name(k) {
        NameInjective(g, k);
      }
    }
  }

  lemma NameNotEmpty(segs: seq<string>)
    ensures Name(segs) != ""
  {
  }

  lemma {:induction false} BaseNameOf(a: string, s: string)
    requires '/' !in s && (a == "" || a[|a| - 1] == '/')
    ensures BaseName(a + s) == s
  {
    var t := a + s;
    var i := LastSlash(t);
    assert forall k :: |a| <= k < |t| ==> t[k] == s[k - |a|] && t[k] != '/';
    if a != "" {
      assert t[|a| - 1] == '/';
    }
    assert i == |a| - 1;
    assert t[|a|..] == s;
  }

  lemma IndexIsClean()
    ensures '.' in INDEX && '/' !in INDEX && !HasDotDot(INDEX) && INDEX != ""
  {
  }

  lemma HostUnchanged(host: string)
    requires HostName(host)
    ensures Escape(host) == host && '%' !in host
  {
    UnreservedUnchanged(host);
  }
}
