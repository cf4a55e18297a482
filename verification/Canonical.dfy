/**
 The canonical key of internal/localize/canonical.go: pagination segments of the path
 and noise parameters of the query are dropped unless a name is preserved.

 In a path a char is a code point, in a raw query a byte.  Lower-casing is that of
 ASCII letters.
 */
module Canonical {
  import opened Percent
  import opened Segments
  import opened Text

  /** A name as the rules compare it: trimmed and in lower case. */
  function Fold(s: string): string {
    LowerAll(Trim(s, IsSpace))
  }

  // ---------- path segments ----------

  const MARKERS := ["page", "paged", "comment-page"]

  /** "page", "paged", "comment-page", alone or followed by "-" or "_" and anything. */
  predicate IsMarker(l: string) {
    exists i :: 0 <= i < |MARKERS| && (l == MARKERS[i] || MARKERS[i] + "-" <= l || MARKERS[i] + "_" <= l)
  }

  predicate AllDigits(s: string) {
    s != "" && forall i :: 0 <= i < |s| ==> '0' <= s[i] <= '9'
  }

  function Value(s: string): nat {
    if s == "" || !('0' <= s[|s| - 1] <= '9') then 0
    else Value(s[..|s| - 1]) * 10 + (s[|s| - 1] as int - '0' as int)
  }

  /** strconv.ParseInt in base 10 with 64 bits succeeds. */
  predicate IsInt64(s: string) {
    var signed := s != "" && (s[0] == '-' || s[0] == '+');
    var body := if signed then s[1..] else s;
    AllDigits(body) && Value(body) <= (if signed && s[0] == '-' then 0x8000_0000_0000_0000 else 0x7FFF_FFFF_FFFF_FFFF)
  }

  predicate Drops(preserved: set<string>, s: string, prev: string) {
    var l, pl := Fold(s), Fold(prev);
    l != "" && l !in preserved && pl !in preserved && (IsMarker(l) || (IsInt64(l) && IsMarker(pl)))
  }

  /** The segments kept after a segment prev. */
  function KeptAfter(preserved: set<string>, prev: string, segs: seq<string>): seq<string>
    decreases |segs|
  {
    if segs == [] then []
    else (if Drops(preserved, segs[0], prev) then [] else [segs[0]]) + KeptAfter(preserved, segs[0], segs[1..])
  }

  function KeptSegments(preserved: set<string>, segs: seq<string>): seq<string> {
    KeptAfter(preserved, "", segs)
  }

  predicate IsSlash(c: char) {
    c == '/'
  }

  function CanonicalPath(preserved: set<string>, path: string): string {
    "/" + Join(KeptSegments(preserved, Split(Trim(path, IsSlash))))
  }

  /** The path part of canonicalKey. */
  method ReducePath(preserved: set<string>, path: string) returns (r: string)
    ensures r == CanonicalPath(preserved, path)
  {
    hide Drops, Split, Trim;
    var segs := Split(Trim(path, IsSlash));
    var kept := [];
    var prev := "";
    assert segs[0..] == segs && [] + KeptAfter(preserved, "", segs) == KeptAfter(preserved, "", segs);
    for i := 0 to |segs|
      invariant KeptSegments(preserved, segs) == kept + KeptAfter(preserved, prev, segs[i..])
    {
      assert segs[i..][1..] == segs[i + 1..];
      var s := segs[i];
      if !Drops(preserved, s, prev) {
        kept := kept + [s];
      }
      prev := s;
    }
    assert segs[|segs|..] == [] && kept + [] == kept;
    r := "/" + Join(kept);
  }

  /** Paths without pagination markers, dated ones included, keep every segment. */
  lemma {:induction false} NothingDropped(preserved: set<string>, prev: string, segs: seq<string>)
    requires !IsMarker(Fold(prev)) && forall i :: 0 <= i < |segs| ==> !IsMarker(Fold(segs[i]))
    ensures KeptAfter(preserved, prev, segs) == segs
    decreases |segs|
  {
    hide IsMarker, Fold, IsInt64;
    if segs != [] {
      NothingDropped(preserved, segs[0], segs[1..]);
      assert [segs[0]] + segs[1..] == segs;
    }
  }

  lemma {:induction false} NoMarkerKept(prev: string, segs: seq<string>)
    ensures forall i :: 0 <= i < |KeptAfter({}, prev, segs)| ==> !IsMarker(Fold(KeptAfter({}, prev, segs)[i]))
    decreases |segs|
  {
    hide IsMarker, Fold, IsInt64;
    if segs != [] {
      NoMarkerKept(segs[0], segs[1..]);
      EmptyIsNoMarker();
    }
  }

  lemma EmptyIsNoMarker()
    ensures !IsMarker("") && Fold("") == ""
  {
  }

  /** With no preserved names the kept segments are all kept again. */
  lemma KeptTwice(segs: seq<string>)
    ensures KeptSegments({}, KeptSegments({}, segs)) == KeptSegments({}, segs)
  {
    hide IsMarker, Fold;
    EmptyIsNoMarker();
    NoMarkerKept("", segs);
    NothingDropped({}, "", KeptSegments({}, segs));
  }

  // ---------- the canonical path of a canonical path ----------

  lemma {:induction false} KeptNoSeparator(preserved: set<string>, prev: string, segs: seq<string>)
    requires forall i :: 0 <= i < |segs| ==> '/' !in segs[i]
    ensures forall i :: 0 <= i < |KeptAfter(preserved, prev, segs)| ==> '/' !in KeptAfter(preserved, prev, segs)[i]
    decreases |segs|
  {
    hide Drops;
    if segs != [] {
      KeptNoSeparator(preserved, segs[0], segs[1..]);
    }
  }

  lemma {:induction false} KeptShrinks(preserved: set<string>, prev: string, segs: seq<string>)
    ensures |Join(KeptAfter(preserved, prev, segs))| <= |Join(segs)|
    ensures |KeptAfter(preserved, prev, segs)| <= |segs|
    ensures segs != [] && segs[1..] == [] ==> KeptAfter(preserved, prev, segs) in {[], segs}
    decreases |segs|
  {
    hide Drops;
    if segs != [] {
      var rest := KeptAfter(preserved, segs[0], segs[1..]);
      KeptShrinks(preserved, segs[0], segs[1..]);
      assert ([segs[0]] + rest)[1..] == rest && [] + rest == rest && [segs[0]] + [] == [segs[0]];
      assert segs == [segs[0]] + segs[1..];
    }
  }

  lemma KeptOfEmpty(preserved: set<string>)
    ensures KeptSegments(preserved, [""]) == [""] && Split("") == [""]
  {
    EmptyIsNoMarker();
    assert [""][1..] == [];
  }

  /** Of a canonical path: one slash, or text after the first slash. */
  lemma TrimSlashFirst(j: string)
    ensures Trim("/" + j, IsSlash) == Trim(j, IsSlash)
  {
    assert ("/" + j)[1..] == j;
  }

  /** When a join of segments is empty, and when it starts or ends with a slash. */
  lemma {:induction false} JoinEnds(segs: seq<string>)
    requires forall i :: 0 <= i < |segs| ==> '/' !in segs[i]
    ensures Join(segs) == "" <==> segs == [] || segs == [""]
    ensures Join(segs) != "" ==>
      && (Join(segs)[0] == '/' <==> |segs| >= 2 && segs[0] == "")
      && (Join(segs)[|Join(segs)| - 1] == '/' <==> |segs| >= 2 && segs[|segs| - 1] == "")
  {
    if |segs| == 1 {
      assert segs == [segs[0]];
    } else if |segs| > 1 {
      var rest := segs[1..];
      JoinEnds(rest);
      assert Join(segs) == segs[0] + "/" + Join(rest);
      assert rest[|rest| - 1] == segs[|segs| - 1];
    }
  }

  lemma SlashSettled()
    ensures CanonicalPath({}, "/") == "/"
  {
    hide Trim, Split, Join, KeptSegments;
    KeptOfEmpty({});
    TrimSlashFirst("");
    TrimNothing("", IsSlash);
    JoinOne("");
    assert "/" + "" == "/";
  }

  /** Kept segments that are kept again, and whose join has no slash at its ends. */
  lemma KeptSettled(kept: seq<string>)
    requires kept != [] && KeptSegments({}, kept) == kept && forall i :: 0 <= i < |kept| ==> '/' !in kept[i]
    requires var j := Join(kept); j != "" && j[0] != '/' && j[|j| - 1] != '/'
    ensures CanonicalPath({}, "/" + Join(kept)) == "/" + Join(kept)
  {
    hide Trim, Split, Join, KeptSegments;
    var j := Join(kept);
    TrimSlashFirst(j);
    TrimNothing(j, IsSlash);
    SplitJoin(kept);
  }

  /** A slash at an end goes, and nothing comes back. */
  lemma SlashUnsettles(j: string)
    requires j != "" && (j[0] == '/' || j[|j| - 1] == '/')
    ensures CanonicalPath({}, "/" + j) != "/" + j
  {
    hide Trim, Split, Join, Drops;
    TrimSlashFirst(j);
    TrimShrinks(j, IsSlash);
    KeptShrinks({}, "", Split(Trim(j, IsSlash)));
    JoinSplit(Trim(j, IsSlash));
    assert |CanonicalPath({}, "/" + j)| <= 1 + |Trim(j, IsSlash)|;
  }

  /** A canonical path with nothing preserved is its own canonical path unless the kept segments start or end with an
      empty one. */
  lemma ResultSettledIff(path: string)
    ensures var kept := KeptSegments({}, Split(Trim(path, IsSlash)));
      var r := CanonicalPath({}, path);
      CanonicalPath({}, r) != r <==> |kept| >= 2 && (kept[0] == "" || kept[|kept| - 1] == "")
  {
    hide Trim, Split, Join, KeptAfter;
    var segs := Split(Trim(path, IsSlash));
    NoSeparator(Trim(path, IsSlash));
    KeptNoSeparator({}, "", segs);
    KeptTwice(segs);
    JoinedSettledIff(KeptSegments({}, segs));
  }

  lemma JoinedSettledIff(kept: seq<string>)
    requires KeptSegments({}, kept) == kept && forall i :: 0 <= i < |kept| ==> '/' !in kept[i]
    ensures CanonicalPath({}, "/" + Join(kept)) != "/" + Join(kept) <==>
      |kept| >= 2 && (kept[0] == "" || kept[|kept| - 1] == "")
  {
    hide CanonicalPath, KeptSegments, Join;
    var j := Join(kept);
    JoinEnds(kept);
    if j == "" {
      SlashSettled();
      assert "/" + j == "/";
    } else if j[0] != '/' && j[|j| - 1] != '/' {
      KeptSettled(kept);
    } else {
      SlashUnsettles(j);
    }
  }

  // ---------- which paths have a settled canonical path ----------

  /** Segment k of a path is dropped, by its predecessor in the path. */
  predicate Gone(prev: string, segs: seq<string>, k: nat)
    requires k < |segs|
  {
    Drops({}, segs[k], if k == 0 then prev else segs[k - 1])
  }

  lemma {:induction false} AllGoneIff(prev: string, segs: seq<string>)
    ensures KeptAfter({}, prev, segs) == [] <==> forall k :: 0 <= k < |segs| ==> Gone(prev, segs, k)
    decreases |segs|
  {
    hide Drops;
    if segs != [] {
      AllGoneIff(segs[0], segs[1..]);
      assert Gone(prev, segs, 0) == Drops({}, segs[0], prev);
      assert forall k :: 0 <= k < |segs| - 1 ==> Gone(segs[0], segs[1..], k) == Gone(prev, segs, k + 1);
      assert forall k :: 0 < k < |segs| ==> Gone(prev, segs, k) == Gone(segs[0], segs[1..], k - 1);
    }
  }

  /** The first kept segment. */
  lemma {:induction false} FirstKept(prev: string, segs: seq<string>) returns (i: nat)
    requires KeptAfter({}, prev, segs) != []
    ensures i < |segs| && !Gone(prev, segs, i) && (forall k :: 0 <= k < i ==> Gone(prev, segs, k))
    ensures KeptAfter({}, prev, segs)[0] == segs[i]
    ensures |KeptAfter({}, prev, segs)| >= 2 <==> exists k :: i < k < |segs| && !Gone(prev, segs, k)
    decreases |segs|
  {
    hide Drops;
    var rest := KeptAfter({}, segs[0], segs[1..]);
    assert forall k :: 0 < k < |segs| ==> Gone(prev, segs, k) == Gone(segs[0], segs[1..], k - 1);
    assert forall k :: 0 <= k < |segs| - 1 ==> Gone(segs[0], segs[1..], k) == Gone(prev, segs, k + 1);
    if Gone(prev, segs, 0) {
      assert [] + rest == rest;
      i := FirstKept(segs[0], segs[1..]);
      i := i + 1;
    } else {
      AllGoneIff(segs[0], segs[1..]);
      i := 0;
    }
  }

  /** The last kept segment. */
  ghost predicate IsLastKept(prev: string, segs: seq<string>, i: nat)
    requires i < |segs|
  {
    && !Gone(prev, segs, i) && (forall k :: i < k < |segs| ==> Gone(prev, segs, k))
    && var kept := KeptAfter({}, prev, segs);
       && kept != [] && kept[|kept| - 1] == segs[i]
       && (|kept| >= 2 <==> exists k :: 0 <= k < i && !Gone(prev, segs, k))
  }

  lemma {:induction false} LastKept(prev: string, segs: seq<string>) returns (i: nat)
    requires KeptAfter({}, prev, segs) != []
    ensures i < |segs| && IsLastKept(prev, segs, i)
    decreases |segs|
  {
    hide Drops, IsLastKept;
    AllGoneIff(segs[0], segs[1..]);
    if KeptAfter({}, segs[0], segs[1..]) == [] {
      i := 0;
      OnlyFirstKept(prev, segs);
    } else {
      var m := LastKept(segs[0], segs[1..]);
      i := m + 1;
      LastKeptNext(prev, segs, m);
    }
  }

  /** What is kept of a path, and which segments are dropped, from its tail. */
  lemma KeptOfTail(prev: string, segs: seq<string>)
    requires segs != []
    ensures var rest := KeptAfter({}, segs[0], segs[1..]);
      KeptAfter({}, prev, segs) == if Gone(prev, segs, 0) then rest else [segs[0]] + rest
    ensures forall k :: 0 < k < |segs| ==> Gone(prev, segs, k) == Gone(segs[0], segs[1..], k - 1)
    ensures forall k :: 0 <= k < |segs| - 1 ==> Gone(segs[0], segs[1..], k) == Gone(prev, segs, k + 1)
  {
    hide Drops;
    var rest := KeptAfter({}, segs[0], segs[1..]);
    assert [] + rest == rest;
  }

  lemma OnlyFirstKept(prev: string, segs: seq<string>)
    requires segs != [] && KeptAfter({}, prev, segs) != [] && KeptAfter({}, segs[0], segs[1..]) == []
    ensures IsLastKept(prev, segs, 0)
  {
    hide Drops, KeptAfter, Gone;
    AllGoneIff(segs[0], segs[1..]);
    KeptOfTail(prev, segs);
  }

  lemma LastKeptNext(prev: string, segs: seq<string>, m: nat)
    requires segs != [] && m < |segs| - 1 && IsLastKept(segs[0], segs[1..], m)
    ensures IsLastKept(prev, segs, m + 1)
  {
    hide Drops, KeptAfter, Gone;
    KeptOfTail(prev, segs);
    var rest := KeptAfter({}, segs[0], segs[1..]);
    assert (exists k :: 0 <= k < m + 1 && !Gone(prev, segs, k)) <==> !Gone(prev, segs, 0) || |rest| >= 2 by {
      if k :| 0 <= k < m && !Gone(segs[0], segs[1..], k) {
        assert !Gone(prev, segs, k + 1);
      }
    }
  }

  /** Empty segment i ends up at the front of what is kept, with more behind it, or at its end, with more before it. */
  ghost predicate Exposed(segs: seq<string>, i: nat)
    requires i < |segs|
  {
    segs[i] == "" &&
    (((forall k :: 0 <= k < i ==> Gone("", segs, k)) && exists k :: i < k < |segs| && !Gone("", segs, k)) ||
     ((forall k :: i < k < |segs| ==> Gone("", segs, k)) && exists k :: 0 <= k < i && !Gone("", segs, k)))
  }

  lemma EmptyStays(prev: string, segs: seq<string>, i: nat)
    requires i < |segs| && segs[i] == ""
    ensures !Gone(prev, segs, i)
  {
    EmptyIsNoMarker();
  }

  lemma ExposedIff(segs: seq<string>)
    ensures var kept := KeptAfter({}, "", segs);
      |kept| >= 2 && (kept[0] == "" || kept[|kept| - 1] == "") <==> exists i :: 0 <= i < |segs| && Exposed(segs, i)
  {
    hide Gone, KeptAfter;
    var kept := KeptAfter({}, "", segs);
    AllGoneIff("", segs);
    forall i | 0 <= i < |segs| && segs[i] == "" ensures !Gone("", segs, i) {
      EmptyStays("", segs, i);
    }
    if kept != [] {
      var a := FirstKept("", segs);
      var b := LastKept("", segs);
      assert Exposed(segs, a) <==> |kept| >= 2 && segs[a] == "";
      assert Exposed(segs, b) <==> |kept| >= 2 && segs[b] == "";
      forall i | 0 <= i < |segs| && Exposed(segs, i) ensures i == a || i == b {
        assert !Gone("", segs, i);
      }
    }
  }

  /** With no preserved names the canonical path of any path is its own canonical path exactly when dropping segments
      exposes none of its empty segments at either end. */
  lemma PathIdempotentIff(path: string)
    ensures var segs := Split(Trim(path, IsSlash));
      CanonicalPath({}, CanonicalPath({}, path)) == CanonicalPath({}, path) <==>
        forall i :: 0 <= i < |segs| ==> !Exposed(segs, i)
  {
    hide CanonicalPath, Exposed, Split, Trim;
    ResultSettledIff(path);
    ExposedIff(Split(Trim(path, IsSlash)));
  }

  /** The path /page//x: its canonical path is //x, whose own is /x. */
  lemma EmptySegmentUnsettles()
    ensures var path := "/" + Join(["page", "", "x"]);
      && CanonicalPath({}, path) == "/" + Join(["", "x"])
      && CanonicalPath({}, CanonicalPath({}, path)) != CanonicalPath({}, path)
  {
    hide Trim, Split, KeptSegments;
    var segs, j := ["page", "", "x"], Join(["page", "", "x"]);
    assert j[0] == 'p' && j[|j| - 1] == 'x';
    TrimSlashFirst(j);
    TrimNothing(j, IsSlash);
    SplitJoin(segs);
    assert KeptSegments({}, segs) == ["", "x"] by { PageGoes(); }
    assert Join(["", "x"]) == "/x";
    ResultSettledIff("/" + j);
  }

  lemma PageGoes()
    ensures KeptSegments({}, ["page", "", "x"]) == ["", "x"]
  {
    hide Drops;
    assert ["page", "", "x"][1..] == ["", "x"] && ["", "x"][1..] == ["x"] && ["x"][1..] == [];
    OnlyPageDrops();
    assert KeptAfter({}, "", ["x"]) == ["x"];
    assert KeptAfter({}, "page", ["", "x"]) == ["", "x"];
  }

  lemma OnlyPageDrops()
    ensures Drops({}, "page", "") && !Drops({}, "", "page") && !Drops({}, "x", "")
  {
    hide IsInt64;
    FoldsToItself("page");
    FoldsToItself("x");
    EmptyIsNoMarker();
    assert MARKERS[0] == "page";
    assert forall i :: 0 <= i < |MARKERS| ==> MARKERS[i][0] != 'x';
  }

  lemma JoinNothing()
    ensures Join([]) == ""
  {
  }

  /** A path without empty segments, as every file of a clone has. */
  ghost predicate Proper(segs: seq<string>) {
    segs != [] && forall i :: 0 <= i < |segs| ==> segs[i] != "" && '/' !in segs[i]
  }

  /** Its canonical path is the path of the kept segments. */
  lemma CanonicalProper(preserved: set<string>, segs: seq<string>)
    requires Proper(segs)
    ensures CanonicalPath(preserved, "/" + Join(segs)) == "/" + Join(KeptSegments(preserved, segs))
  {
    hide KeptSegments;
    var j := Join(segs);
    ProperEnds(segs);
    TrimSlashFirst(j);
    TrimNothing(j, IsSlash);
    SplitJoin(segs);
  }

  lemma {:induction false} ProperEnds(segs: seq<string>)
    requires Proper(segs)
    ensures Join(segs) != "" && Join(segs)[0] != '/' && Join(segs)[|Join(segs)| - 1] != '/'
  {
    if |segs| > 1 {
      ProperEnds(segs[1..]);
    }
  }

  lemma {:induction false} KeptProper(preserved: set<string>, prev: string, segs: seq<string>)
    requires forall i :: 0 <= i < |segs| ==> segs[i] != "" && '/' !in segs[i]
    ensures var kept := KeptAfter(preserved, prev, segs); kept == [] || Proper(kept)
    decreases |segs|
  {
    hide Drops;
    if segs != [] {
      KeptProper(preserved, segs[0], segs[1..]);
    }
  }

  lemma CanonicalTwice(preserved: set<string>, segs: seq<string>)
    requires Proper(segs)
    ensures var kept := KeptSegments(preserved, segs);
      CanonicalPath(preserved, CanonicalPath(preserved, "/" + Join(segs))) ==
        if kept == [] then "/" else "/" + Join(KeptSegments(preserved, kept))
  {
    hide Trim, Join, Split;
    var kept := KeptSegments(preserved, segs);
    CanonicalProper(preserved, segs);
    KeptProper(preserved, "", segs);
    if kept == [] {
      JoinNothing();
      TrimSlashFirst("");
      TrimNothing("", IsSlash);
      KeptOfEmpty(preserved);
      JoinOne("");
      assert "/" + "" == "/";
    } else {
      CanonicalProper(preserved, kept);
    }
  }

  // ---------- preserved names and idempotence ----------

  function Zeros(n: nat): string {
    seq(n, _ => '0')
  }

  lemma {:induction false} ZerosAreZero(n: nat)
    ensures Value(Zeros(n)) == 0
  {
    if n > 0 {
      assert Zeros(n)[..n - 1] == Zeros(n - 1);
      ZerosAreZero(n - 1);
    }
  }

  /** Names that folding leaves alone. */
  lemma FoldsToItself(s: string)
    requires forall i :: 0 <= i < |s| ==> !IsSpace(s[i]) && !('A' <= s[i] <= 'Z')
    ensures Fold(s) == s
  {
  }

  /** A finite set of names leaves a marker and two page numbers unused. */
  lemma {:induction false} LongerThanAll(names: set<string>) returns (n: nat)
    ensures n > 0 && forall x :: x in names ==> |x| < n
  {
    if names == {} {
      n := 1;
    } else {
      var x :| x in names;
      var m := LongerThanAll(names - {x});
      n := m + |x| + 1;
      assert names == (names - {x}) + {x};
    }
  }

  lemma NumberOfZeros(n: nat)
    requires n > 0
    ensures Fold(Zeros(n)) == Zeros(n) && IsInt64(Zeros(n)) && !IsMarker(Zeros(n))
  {
    FoldsToItself(Zeros(n));
    ZerosAreZero(n);
    assert forall i :: 0 <= i < |MARKERS| ==> MARKERS[i][0] != '0';
    assert Zeros(n)[0] == '0';
  }

  lemma MarkerOfZeros(n: nat)
    ensures Fold("page-" + Zeros(n)) == "page-" + Zeros(n) && IsMarker("page-" + Zeros(n))
  {
    var m := "page-" + Zeros(n);
    FoldsToItself(m);
    assert MARKERS[0] + "-" == "page-" && "page-" <= m;
  }

  /** After a preserved name a marker is kept; its number goes, and the next number takes its place. */
  lemma PreservedNameShiftsNumbers(preserved: set<string>, x: string, m: string, n: string)
    requires x in preserved && Fold(x) == x && Fold(m) == m && Fold(n) == n
    requires m !in preserved && n !in preserved && IsMarker(m) && IsInt64(n) && !IsMarker(n)
    ensures KeptSegments(preserved, [x, m, n, n]) == [x, m, n]
    ensures KeptSegments(preserved, [x, m, n]) == [x, m]
  {
    hide IsMarker, Fold, IsInt64;
    NumbersAreNotEmpty();
    EmptyIsNoMarker();
    assert [x, m, n, n][1..] == [m, n, n] && [m, n, n][1..] == [n, n] && [n, n][1..] == [n] && [n][1..] == [];
    assert [x, m, n][1..] == [m, n] && [m, n][1..] == [n];
    assert KeptAfter(preserved, n, [n]) == [n];
    assert KeptAfter(preserved, m, [n, n]) == [n];
    assert KeptAfter(preserved, m, [n]) == [];
    assert KeptAfter(preserved, x, [m, n, n]) == [m] + [n];
    assert KeptAfter(preserved, x, [m, n]) == [m] + [];
  }

  lemma JoinInjective(a: seq<string>, b: seq<string>)
    requires Proper(a) && Proper(b) && Join(a) == Join(b)
    ensures a == b
  {
    SplitJoin(a);
    SplitJoin(b);
  }

  /** On paths without empty segments the canonical path is its own canonical path for all paths exactly when no name
      is preserved.  Preserved names are trimmed, lower-cased and not empty. */
  lemma IdempotentIffNothingPreserved(preserved: set<string>)
    requires forall x :: x in preserved ==> x != "" && '/' !in x && Fold(x) == x
    ensures (forall segs :: Proper(segs) ==> Settled(preserved, segs)) <==> preserved == {}
  {
    hide IsMarker, Fold, IsInt64, KeptSegments, Join, CanonicalPath;
    if preserved == {} {
      forall segs | Proper(segs) ensures Settled(preserved, segs) {
        KeptTwice(segs);
        CanonicalTwice(preserved, segs);
        CanonicalProper(preserved, segs);
        JoinNothing();
      }
    } else {
      var x :| x in preserved;
      var n := LongerThanAll(preserved);
      NumberOfZeros(n);
      MarkerOfZeros(n);
      var m, z := "page-" + Zeros(n), Zeros(n);
      var segs := [x, m, z, z];
      assert Proper(segs) && Proper([x, m]) && Proper([x, m, z]);
      PreservedNameShiftsNumbers(preserved, x, m, z);
      CanonicalTwice(preserved, segs);
      CanonicalProper(preserved, segs);
      if Settled(preserved, segs) {
        assert ("/" + Join([x, m]))[1..] == ("/" + Join([x, m, z]))[1..];
        JoinInjective([x, m], [x, m, z]);
      }
      assert !Settled(preserved, segs);
    }
  }

  ghost predicate Settled(preserved: set<string>, segs: seq<string>) {
    var r := CanonicalPath(preserved, "/" + Join(segs)); CanonicalPath(preserved, r) == r
  }

  // ---------- pagination ----------

  lemma Associate(a: seq<string>, b: seq<string>, c: seq<string>)
    ensures a + (b + c) == a + b + c
  {
  }

  lemma {:induction false} KeptConcat(preserved: set<string>, prev: string, a: seq<string>, b: seq<string>)
    ensures KeptAfter(preserved, prev, a + b) ==
      KeptAfter(preserved, prev, a) + KeptAfter(preserved, if a == [] then prev else a[|a| - 1], b)
    decreases |a|
  {
    hide Drops;
    if a == [] {
      assert a + b == b;
    } else {
      var head := if Drops(preserved, a[0], prev) then [] else [a[0]];
      var last := a[|a| - 1];
      KeptConcat(preserved, a[0], a[1..], b);
      assert (a + b)[1..] == a[1..] + b && (a + b)[0] == a[0];
      assert KeptAfter(preserved, prev, a + b) == head + KeptAfter(preserved, a[0], a[1..] + b);
      assert KeptAfter(preserved, prev, a) == head + KeptAfter(preserved, a[0], a[1..]);
      assert (if a[1..] == [] then a[0] else a[1..][|a| - 2]) == last;
      Associate(head, KeptAfter(preserved, a[0], a[1..]), KeptAfter(preserved, last, b));
    }
  }

  /** Paging through a document does not change its key: a marker and a page number anywhere in the path vanish,
      exactly when neither of them nor the segment before them is preserved.  What follows, such as index.html,
      starts with neither a marker nor a number. */
  lemma PaginationVanishesIff(preserved: set<string>, segs: seq<string>, marker: string, number: string,
                              rest: seq<string>)
    requires IsMarker(Fold(marker)) && IsInt64(Fold(number)) && "" !in preserved
    requires rest != [] ==> !IsMarker(Fold(rest[0])) && !IsInt64(Fold(rest[0]))
    ensures KeptSegments(preserved, segs + [marker, number] + rest) == KeptSegments(preserved, segs + rest) <==>
      && Fold(marker) !in preserved && Fold(number) !in preserved
      && (segs == [] || Fold(segs[|segs| - 1]) !in preserved)
  {
    hide IsMarker, Fold, IsInt64;
    var last := if segs == [] then "" else segs[|segs| - 1];
    KeptConcat(preserved, "", segs + [marker, number], rest);
    KeptConcat(preserved, "", segs, [marker, number]);
    KeptConcat(preserved, "", segs, rest);
    NumbersAreNotEmpty();
    EmptyIsNoMarker();
    assert [marker, number][1..] == [number] && [number][1..] == [];
    assert KeptAfter(preserved, number, []) == [];
    assert KeptAfter(preserved, marker, [number]) == [] <==> Drops(preserved, number, marker);
    var tail := KeptAfter(preserved, last, [marker, number]);
    assert tail == [] <==> Drops(preserved, marker, last) && Drops(preserved, number, marker);
    var base, more := KeptSegments(preserved, segs), KeptAfter(preserved, last, rest);
    assert KeptSegments(preserved, segs + [marker, number] + rest) == base + tail + more;
    assert KeptSegments(preserved, segs + rest) == base + more;
    assert |base + tail + more| == |base + more| + |tail|;
    assert base + [] + more == base + more;
  }

  lemma NumbersAreNotEmpty()
    ensures !IsInt64("")
  {
  }

  // ---------- query parameters ----------

  const DROP_NAMES: set<string> := {
    "paged", "page", "replytocom", "add-to-cart", "added-to-cart", "remove_item", "download_item", "wc-ajax", "preview",
    "no_reply", "amp", "consumer_key", "nonce", "utm_source", "utm_medium", "utm_campaign", "utm_term", "utm_content",
    "gclid", "fbclid", "msclkid", "ref", "source", "session_id", "s_id"
  }

  function SpacesForPlus(s: string): (r: string)
    ensures |r| == |s|
  {
    seq(|s|, i requires 0 <= i < |s| => if s[i] == '+' then ' ' else s[i])
  }

  /** url.QueryUnescape of what comes before the first "=", in lower case; a malformed one counts as empty. */
  function QueryKey(item: string): string {
    match Unescape(SpacesForPlus(Split(item, '=')[0]))
    case None => ""
    case Some(key) => LowerAll(key)
  }

  predicate DropsItem(preserved: set<string>, item: string) {
    var key := QueryKey(item);
    key !in preserved && (key in DROP_NAMES || "utm_" <= key)
  }

  function KeptItems(preserved: set<string>, items: seq<string>): seq<string> {
    if items == [] then []
    else (if DropsItem(preserved, items[0]) then [] else [items[0]]) + KeptItems(preserved, items[1..])
  }

  function StripQuery(preserved: set<string>, raw: string): string {
    if raw == "" then "" else Join(KeptItems(preserved, Split(raw, '&')), '&')
  }

  method StripDropQuery(preserved: set<string>, raw: string) returns (r: string)
    ensures r == StripQuery(preserved, raw)
  {
    hide DropsItem, Split;
    if raw == "" {
      return "";
    }
    var parts := Split(raw, '&');
    var kept := [];
    assert parts[0..] == parts && [] + KeptItems(preserved, parts) == KeptItems(preserved, parts);
    for i := 0 to |parts|
      invariant KeptItems(preserved, parts) == kept + KeptItems(preserved, parts[i..])
    {
      var rest := KeptItems(preserved, parts[i + 1..]);
      assert parts[i..][0] == parts[i] && parts[i..][1..] == parts[i + 1..];
      assert [] + rest == rest && (kept + [parts[i]]) + rest == kept + ([parts[i]] + rest);
      if !DropsItem(preserved, parts[i]) {
        kept := kept + [parts[i]];
      }
    }
    assert parts[|parts|..] == [] && kept + [] == kept;
    r := Join(kept, '&');
  }

  /** Exactly the items that are no noise survive. */
  lemma {:induction false} KeptItemsExactly(preserved: set<string>, items: seq<string>, p: string)
    ensures p in KeptItems(preserved, items) <==> p in items && !DropsItem(preserved, p)
  {
    hide DropsItem;
    if items != [] {
      var rest := KeptItems(preserved, items[1..]);
      KeptItemsExactly(preserved, items[1..], p);
      assert p in items <==> p == items[0] || p in items[1..];
      assert !DropsItem(preserved, items[0]) ==> (p in [items[0]] + rest <==> p == items[0] || p in rest);
      assert [] + rest == rest;
    }
  }

  lemma {:induction false} ItemsTwice(preserved: set<string>, items: seq<string>)
    ensures KeptItems(preserved, KeptItems(preserved, items)) == KeptItems(preserved, items)
  {
    hide DropsItem;
    if items != [] {
      var rest := KeptItems(preserved, items[1..]);
      ItemsTwice(preserved, items[1..]);
      assert [] + rest == rest;
      assert ([items[0]] + rest)[1..] == rest;
    }
  }

  lemma {:induction false} KeptItemsConcat(preserved: set<string>, a: seq<string>, b: seq<string>)
    ensures KeptItems(preserved, a + b) == KeptItems(preserved, a) + KeptItems(preserved, b)
  {
    hide DropsItem;
    if a == [] {
      assert a + b == b;
    } else {
      KeptItemsConcat(preserved, a[1..], b);
      assert (a + b)[0] == a[0] && (a + b)[1..] == a[1..] + b;
      var head := if DropsItem(preserved, a[0]) then [] else [a[0]];
      Associate(head, KeptItems(preserved, a[1..]), KeptItems(preserved, b));
    }
  }

  /** The stripped query has exactly the kept items, in their order. */
  lemma StrippedItems(preserved: set<string>, raw: string)
    ensures var kept := KeptItems(preserved, Split(raw, '&'));
      if kept == [] then StripQuery(preserved, raw) == "" else Split(StripQuery(preserved, raw), '&') == kept
  {
    hide DropsItem, Split, Join, KeptItems;
    var items := Split(raw, '&');
    var kept := KeptItems(preserved, items);
    JoinsNothing();
    if raw == "" {
      SplitOne("", '&');
      OneItem(preserved, "");
      NothingKept();
    } else if kept != [] {
      NoSeparator(raw, '&');
      forall i | 0 <= i < |kept| ensures '&' !in kept[i] {
        KeptItemsExactly(preserved, items, kept[i]);
      }
      SplitJoin(kept, '&');
    }
  }

  lemma OneItem(preserved: set<string>, p: string)
    ensures KeptItems(preserved, [p]) == if DropsItem(preserved, p) then [] else [p]
  {
    hide DropsItem;
    assert [p][1..] == [];
  }

  lemma NothingKept()
    ensures forall preserved: set<string> :: KeptItems(preserved, []) == []
  {
  }

  /** Stripping a raw query twice is stripping it once, and the items left are the kept ones. */
  lemma StripTwice(preserved: set<string>, raw: string)
    ensures StripQuery(preserved, StripQuery(preserved, raw)) == StripQuery(preserved, raw)
    ensures StripQuery(preserved, raw) != "" ==>
      Split(StripQuery(preserved, raw), '&') == KeptItems(preserved, Split(raw, '&'))
  {
    hide DropsItem, Split, Join, KeptItems;
    var items := Split(raw, '&');
    var kept := KeptItems(preserved, items);
    if StripQuery(preserved, raw) != "" {
      NoSeparator(raw, '&');
      forall i | 0 <= i < |kept| ensures '&' !in kept[i] {
        KeptItemsExactly(preserved, items, kept[i]);
      }
      assert kept != [] by { assert Join([], '&') == "" by { JoinsNothing(); } }
      SplitJoin(kept, '&');
      ItemsTwice(preserved, items);
    }
  }

  lemma JoinsNothing()
    ensures Join([], '&') == ""
  {
  }
}
