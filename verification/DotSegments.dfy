/**
 remove_dot_segments of section 5.2.4 of RFC 3986, and exactly when normalizePath of
 internal/queue/strip.go agrees with it on absolute paths (up to a trailing slash and
 the %7E substitution).
 */
module DotSegments {
  import opened Segments
  import opened PathNormal

  // ---------- the algorithm of the RFC ----------

  /** The end of the first path segment, including a leading slash but not the next one. */
  function SegmentEnd(s: string, from: nat): (k: nat)
    requires from <= |s|
    ensures from <= k <= |s|
    ensures forall i :: from <= i < k ==> s[i] != '/'
    ensures k < |s| ==> s[k] == '/'
    decreases |s| - from
  {
    if from == |s| || s[from] == '/' then from else SegmentEnd(s, from + 1)
  }

  function DropLast(out: seq<string>): seq<string> {
    if out == [] then [] else out[..|out| - 1]
  }

  /** The loop over the input buffer; the output buffer is kept as its segments. */
  function RemoveDots(input: string, out: seq<string>): seq<string>
    decreases |input|
  {
    if input == "" then out
    else if "../" <= input then RemoveDots(input[3..], out)
    else if "./" <= input then RemoveDots(input[2..], out)
    else if "/./" <= input then RemoveDots(input[2..], out)
    else if input == "/." then RemoveDots("/", out)
    else if "/../" <= input then RemoveDots(input[3..], DropLast(out))
    else if input == "/.." then RemoveDots("/", DropLast(out))
    else if input == "." || input == ".." then out
    else
      var k := SegmentEnd(input, 1);
      RemoveDots(input[k..], out + [input[..k]])
  }

  function Flatten(out: seq<string>): string {
    if out == [] then "" else out[0] + Flatten(out[1..])
  }

  function Rfc(path: string): string {
    Flatten(RemoveDots(path, []))
  }

  function TrimSlash(s: string): string {
    if |s| > 1 && s[|s| - 1] == '/' then s[..|s| - 1] else s
  }

  // ---------- the algorithm on segments ----------

  /** Segments as the RFC moves them: each with its leading slash. */
  function Slashed(stack: seq<string>): (r: seq<string>)
    ensures |r| == |stack| && forall i :: 0 <= i < |stack| ==> r[i] == "/" + stack[i]
  {
    seq(|stack|, i requires 0 <= i < |stack| => "/" + stack[i])
  }

  /** The last segment: a dot segment leaves a trailing slash. */
  function Finish(stack: seq<string>, last: string): seq<string> {
    if last == "." then stack + [""]
    else if last == ".." then DropLast(stack) + [""]
    else stack + [last]
  }

  ghost predicate Segment(s: string) {
    '/' !in s
  }

  /** The prefix tests, byte by byte. */
  lemma Tests(s: string)
    ensures "../" <= s <==> |s| >= 3 && s[0] == '.' && s[1] == '.' && s[2] == '/'
    ensures "./" <= s <==> |s| >= 2 && s[0] == '.' && s[1] == '/'
    ensures "/./" <= s <==> |s| >= 3 && s[0] == '/' && s[1] == '.' && s[2] == '/'
    ensures "/../" <= s <==> |s| >= 4 && s[0] == '/' && s[1] == '.' && s[2] == '.' && s[3] == '/'
    ensures s == "/." <==> |s| == 2 && s[0] == '/' && s[1] == '.'
    ensures s == "/.." <==> |s| == 3 && s[0] == '/' && s[1] == '.' && s[2] == '.'
    ensures s == "." <==> |s| == 1 && s[0] == '.'
    ensures s == ".." <==> |s| == 2 && s[0] == '.' && s[1] == '.'
  {
  }

  /** Rule 2E: a segment that is no dot segment moves to the output. */
  lemma Moves(seg: string, rest: string, out: seq<string>)
    requires Segment(seg) && seg != "." && seg != ".." && (rest == "" || (rest[0] == '/' && seg != ""))
    ensures RemoveDots("/" + seg + rest, out) == RemoveDots(rest, out + ["/" + seg])
  {
    var input := "/" + seg + rest;
    var n := |seg| + 1;
    assert forall i :: 0 <= i < |seg| ==> input[i + 1] == seg[i] && seg[i] != '/';
    assert rest != "" ==> input[n] == '/';
    Tests(input);
    Tests(seg);
    var k := SegmentEnd(input, 1);
    assert forall i :: 1 <= i < n ==> input[i] == seg[i - 1];
    assert input[..n] == "/" + seg && input[n..] == rest;
  }

  lemma JustSlash(out: seq<string>)
    ensures RemoveDots("/", out) == out + ["/"]
  {
    Moves("", "", out);
    assert "/" + "" + "" == "/" && "/" + "" == "/";
  }

  lemma LastDots(out: seq<string>)
    ensures RemoveDots("/.", out) == out + ["/"] && RemoveDots("/..", out) == DropLast(out) + ["/"]
  {
    Tests("/.");
    Tests("/..");
    JustSlash(out);
    JustSlash(DropLast(out));
  }

  lemma SlashedNext(stack: seq<string>, x: string)
    ensures Slashed(stack + [x]) == Slashed(stack) + ["/" + x]
    ensures Slashed(DropLast(stack)) == DropLast(Slashed(stack))
  {
  }

  lemma RfcLast(stack: seq<string>, last: string)
    requires Segment(last)
    ensures RemoveDots("/" + last, Slashed(stack)) == Slashed(Finish(stack, last))
  {
    hide RemoveDots, Slashed, DropLast;
    LastDots(Slashed(stack));
    SlashedNext(stack, last);
    SlashedNext(stack, "");
    SlashedNext(DropLast(stack), "");
    assert "/" + "" == "/" && "/" + "." == "/." && "/" + ".." == "/..";
    if last != "." && last != ".." {
      Moves(last, "", Slashed(stack));
      assert "/" + last + "" == "/" + last;
      Stops(Slashed(stack) + ["/" + last]);
    }
  }

  lemma Stops(out: seq<string>)
    ensures RemoveDots("", out) == out
  {
  }

  /** A segment with more to come. */
  lemma RfcStep(stack: seq<string>, seg: string, more: string)
    requires Segment(seg) && seg != ""
    ensures RemoveDots("/" + seg + "/" + more, Slashed(stack)) == RemoveDots("/" + more, Slashed(Inner(stack, seg)))
  {
    var rest := "/" + more;
    var input := "/" + seg + rest;
    assert "/" + seg + "/" + more == input;
    Tests(input);
    if seg == "." {
      assert input[2..] == rest;
    } else if seg == ".." {
      assert input[3..] == rest;
      assert Slashed(Inner(stack, seg)) == DropLast(Slashed(stack));
    } else {
      Moves(seg, rest, Slashed(stack));
      assert Slashed(stack + [seg]) == Slashed(stack) + ["/" + seg];
    }
  }

  /** Segment lists of absolute paths without empty segments, except possibly the last. */
  ghost predicate Solid(mid: seq<string>) {
    forall i :: 0 <= i < |mid| ==> Segment(mid[i]) && mid[i] != ""
  }

  lemma FoldFront(stack: seq<string>, x: string, rest: seq<string>)
    ensures Fold(stack, [x] + rest) == Fold(Inner(stack, x), rest)
  {
    FoldConcat(stack, [x], rest);
    assert [x][..0] == [];
    assert Fold(stack, []) == stack;
    assert Fold(stack, [x]) == Inner(stack, x);
  }

  lemma {:induction false} RfcOnSegments(stack: seq<string>, mid: seq<string>, last: string)
    requires Solid(mid) && Segment(last)
    ensures RemoveDots("/" + Join(mid + [last]), Slashed(stack)) == Slashed(Finish(Fold(stack, mid), last))
    decreases |mid|
  {
    hide RemoveDots, Inner, Finish;
    if mid == [] {
      assert mid + [last] == [last];
      RfcLast(stack, last);
    } else {
      var x, rest := mid[0], mid[1..];
      assert mid == [x] + rest && (mid + [last])[1..] == rest + [last];
      assert Join(mid + [last]) == x + "/" + Join(rest + [last]);
      assert "/" + Join(mid + [last]) == "/" + x + "/" + Join(rest + [last]);
      RfcStep(stack, x, Join(rest + [last]));
      RfcOnSegments(Inner(stack, x), rest, last);
      FoldFront(stack, x, rest);
    }
  }

  lemma {:induction false} FlattenSlashed(stack: seq<string>)
    requires stack != []
    ensures Flatten(Slashed(stack)) == "/" + Join(stack)
  {
    var r := Slashed(stack);
    if |stack| == 1 {
      assert r[1..] == [];
      assert r[0] + "" == r[0];
    } else {
      FlattenSlashed(stack[1..]);
      assert r[1..] == Slashed(stack[1..]);
    }
  }

  // ---------- comparison with normalizePath ----------

  /** A ".." comes when no ordinary segment is left to remove. */
  predicate Climbs(depth: nat, segs: seq<string>)
    decreases |segs|
  {
    if segs == [] then false
    else if segs[0] == ".." then depth == 0 || Climbs(depth - 1, segs[1..])
    else if segs[0] == "." || segs[0] == "" then Climbs(depth, segs[1..])
    else Climbs(depth + 1, segs[1..])
  }

  /** What is left of the leading empty segment. */
  function Root(climbs: bool): seq<string> {
    if climbs then [] else [""]
  }

  lemma {:induction false} RootedFold(stack: seq<string>, mid: seq<string>)
    ensures Fold([""] + stack, mid) == Root(Climbs(|stack|, mid)) + Fold(stack, mid)
    decreases |mid|
  {
    if mid == [] {
    } else {
      var x, rest := mid[0], mid[1..];
      assert mid == [x] + rest;
      FoldFront([""] + stack, x, rest);
      FoldFront(stack, x, rest);
      if x == ".." && stack == [] {
        assert Inner([""] + stack, x) == [];
      } else {
        assert Inner([""] + stack, x) == [""] + Inner(stack, x);
        RootedFold(Inner(stack, x), rest);
      }
    }
  }

  /** Depth reached by the segments, when they do not climb. */
  lemma {:induction false} ClimbsLast(stack: seq<string>, mid: seq<string>, last: string)
    ensures Climbs(|stack|, mid + [last]) <==> Climbs(|stack|, mid) || (last == ".." && Fold(stack, mid) == [])
    decreases |mid|
  {
    if mid == [] {
      assert mid + [last] == [last] && [last][1..] == [];
      assert |stack| == 0 <==> stack == [];
    } else {
      var x, rest := mid[0], mid[1..];
      assert mid == [x] + rest && (mid + [last])[1..] == rest + [last];
      FoldFront(stack, x, rest);
      if x == ".." && stack == [] {
      } else {
        ClimbsLast(Inner(stack, x), rest, last);
      }
    }
  }

  lemma OuterRooted(r: seq<string>, last: string)
    ensures Outer([""] + r, last) == Root(last == ".." && r == []) + Outer(r, last)
  {
  }

  lemma RootedResolve(mid: seq<string>, last: string)
    ensures Resolve([""] + mid + [last]) == Root(Climbs(0, mid + [last])) + Outer(Fold([], mid), last)
  {
    hide Fold, Climbs, Resolve;
    ResolveSandwich("", mid, last);
    RootedFold([], mid);
    assert [""] + [] == [""] && Outer([], "") == [""];
    ClimbsLast([], mid, last);
    var r := Fold([], mid);
    assert [] + r == r && [] + Outer(r, last) == Outer(r, last);
    OuterRooted(r, last);
  }

  lemma {:induction false} SolidFold(mid: seq<string>)
    requires Solid(mid)
    ensures Ordinary(Fold([], mid))
  {
    if mid != [] {
      SolidFold(mid[..|mid| - 1]);
    }
  }

  /** The RFC's result without its trailing slash, from the resolved segments. */
  lemma RfcTrimmed(mid: seq<string>, last: string)
    requires Solid(mid) && Segment(last)
    ensures var t := Body(Outer(Fold([], mid), last));
      TrimSlash(Rfc("/" + Join(mid + [last]))) == if t == [] then "/" else "/" + Join(t)
  {
    hide RemoveDots, Fold, Ordinary, Tame, Body, Outer;
    var r := Fold([], mid);
    RfcOnSegments([], mid, last);
    assert Slashed([]) == [];
    SolidFold(mid);
    OuterTame(r, last);
    FlattenSlashed(Finish(r, last));
    TrimFinished(Body(Outer(r, last)), last == "." || last == ".." || last == "");
  }

  /** A trailing empty segment is the trailing slash. */
  lemma TrimFinished(t: seq<string>, slash: bool)
    requires Ordinary(t) && (t == [] ==> slash)
    ensures TrimSlash("/" + Join(if slash then t + [""] else t)) == if t == [] then "/" else "/" + Join(t)
  {
    if t == [] {
      assert t + [""] == [""];
    } else {
      JoinEnds(t);
      if slash {
        JoinConcat(t, [""]);
        assert "/" + (Join(t) + "/" + "") == "/" + Join(t) + "/";
        assert ("/" + Join(t) + "/")[..|Join(t)| + 1] == "/" + Join(t);
      }
    }
  }

  lemma ResolveOf(mid: seq<string>, last: string)
    requires Solid(mid) && Segment(last)
    ensures Resolve(Split("/" + Join(mid + [last]))) == Root(Climbs(0, mid + [last])) + Outer(Fold([], mid), last)
  {
    hide Fold, Climbs, Resolve, Split, Join, Outer;
    var segs := mid + [last];
    SplitConcat("", Join(segs));
    SplitJoin(segs);
    SplitSeparator("");
    assert "" + "/" + Join(segs) == "/" + Join(segs);
    assert [""] + segs == [""] + mid + [last];
    RootedResolve(mid, last);
  }

  /** Joining with and without the leading empty segment. */
  lemma ShapeOfRooted(big: seq<string>, climbs: bool)
    requires Tame(Root(climbs) + big) && Tame(big) && Body(big) != [""]
    ensures Shape(Root(climbs) + big) ==
      if Body(big) == [] then "/" else if climbs then Join(Body(big)) else "/" + Join(Body(big))
  {
    hide Shape, Join;
    ShapeIsBody(Root(climbs) + big);
    if climbs {
      assert [] + big == big;
    } else {
      var t := Body(big);
      assert Body([""] + big) == if big == [] then [] else [""] + t;
      if t != [] {
        JoinConcat([""], t);
        JoinOne("");
        assert "" + "/" + Join(t) == "/" + Join(t);
      }
    }
  }

  /** A list of ordinary segments. */
  ghost predicate Ordinary(r: seq<string>) {
    forall i :: 0 <= i < |r| ==> Segment(r[i]) && r[i] != "" && !IsDots(r[i])
  }

  lemma OuterTame(r: seq<string>, last: string)
    requires Ordinary(r) && Segment(last)
    ensures Tame(Outer(r, last)) && Body(Outer(r, last)) != [""]
    ensures Body(Outer(r, last)) ==
      if last == ".." then DropLast(r) else if last == "." || last == "" then r else r + [last]
    ensures Ordinary(Body(Outer(r, last)))
  {
  }

  /** The source's result, from the resolved segments: a climb costs the leading slash. */
  lemma NormalTrimmed(mid: seq<string>, last: string)
    requires Solid(mid) && Segment(last)
    ensures var t := Body(Outer(Fold([], mid), last));
      Normal("/" + Join(mid + [last])) ==
        if t == [] then "/" else if Climbs(0, mid + [last]) then Tilde(Join(t)) else Tilde("/" + Join(t))
  {
    hide Fold, Climbs, Resolve, Split, Tilde, Join, Shape, Tame, Outer;
    var p := "/" + Join(mid + [last]);
    ResolveOf(mid, last);
    ResolveTame(p);
    SolidFold(mid);
    OuterTame(Fold([], mid), last);
    ShapeOfRooted(Outer(Fold([], mid), last), Climbs(0, mid + [last]));
    TildeNothing();
  }

  /** On an absolute path without empty segments (a trailing slash aside), normalizePath agrees with the RFC,
      up to the trailing slash and %7E, exactly when no ".." climbs above the root or the path resolves to
      the root anyway. */
  lemma AgreesWithRfcIff(mid: seq<string>, last: string)
    requires Solid(mid) && Segment(last)
    ensures var p := "/" + Join(mid + [last]);
      Normal(p) == Tilde(TrimSlash(Rfc(p))) <==> !Climbs(0, mid + [last]) || TrimSlash(Rfc(p)) == "/"
  {
    hide Normal, Rfc, TrimSlash, Climbs, Fold, Tilde, Join;
    NormalTrimmed(mid, last);
    RfcTrimmed(mid, last);
    TildeNothing();
    var t := Body(Outer(Fold([], mid), last));
    if t != [] {
      TildeSlash("", Join(t));
      assert "" + "/" + Join(t) == "/" + Join(t);
      assert |Tilde("/" + Join(t))| == 1 + |Tilde(Join(t))|;
      SolidFold(mid);
      OuterTame(Fold([], mid), last);
      JoinEnds(t);
    }
  }

  // ---------- absolute paths with empty segments ----------

  function NonEmpty(segs: seq<string>): (r: seq<string>)
    ensures forall i :: 0 <= i < |r| ==> r[i] in segs && r[i] != ""
  {
    if segs == [] then []
    else
      var n := |segs| - 1;
      assert forall s :: s in segs[..n] ==> s in segs;
      NonEmpty(segs[..n]) + (if segs[n] == "" then [] else [segs[n]])
  }

  /** The segments of an absolute path without the empty ones in its interior: each run of slashes becomes one. */
  function Squeezed(path: string): (r: seq<string>)
    requires path != ""
    ensures r != []
  {
    var segs := Split(path[1..]);
    NonEmpty(segs[..|segs| - 1]) + [segs[|segs| - 1]]
  }

  function Squeeze(path: string): string
    requires path != ""
  {
    "/" + Join(Squeezed(path))
  }

  lemma {:induction false} FoldNonEmpty(stack: seq<string>, segs: seq<string>)
    ensures Fold(stack, NonEmpty(segs)) == Fold(stack, segs)
  {
    hide Outer;
    if segs != [] {
      var n := |segs| - 1;
      FoldNonEmpty(stack, segs[..n]);
      var rest := NonEmpty(segs[..n]);
      if segs[n] == "" {
        assert rest + [] == rest;
      } else {
        assert (rest + [segs[n]])[..|rest|] == rest;
      }
    }
  }

  lemma SqueezedSolid(path: string)
    requires path != ""
    ensures var r := Squeezed(path); Solid(r[..|r| - 1]) && Segment(r[|r| - 1]) && r == r[..|r| - 1] + [r[|r| - 1]]
  {
    hide Split;
    var segs := Split(path[1..]);
    var n := |segs| - 1;
    NoSeparator(path[1..]);
    var mid := NonEmpty(segs[..n]);
    assert Squeezed(path)[..|mid|] == mid;
    forall i | 0 <= i < |mid| ensures Segment(mid[i]) {
      var k :| 0 <= k < n && segs[..n][k] == mid[i];
      assert segs[k] == mid[i];
    }
  }

  /** Squeezing does not change the outcome. */
  lemma SqueezeKeeps(path: string)
    requires path != "" && path[0] == '/'
    ensures Normal(Squeeze(path)) == Normal(path)
  {
    hide Split, Fold, Outer, Tilde, Shape, Join, NonEmpty;
    var segs := Split(path[1..]);
    var n := |segs| - 1;
    var mid, last := NonEmpty(segs[..n]), segs[n];
    assert "" + "/" + path[1..] == path && "" + "/" + Join(mid + [last]) == Squeeze(path);
    SplitConcat("", path[1..]);
    SplitConcat("", Join(mid + [last]));
    SplitSeparator("");
    SqueezedSolid(path);
    assert Squeezed(path) == mid + [last];
    SplitJoin(mid + [last]);
    ResolveSandwich("", segs[..n], last);
    ResolveSandwich("", mid, last);
    assert [""] + segs == [""] + segs[..n] + [last] && [""] + (mid + [last]) == [""] + mid + [last];
    FoldNonEmpty(Outer([], ""), segs[..n]);
  }

  /** On every absolute path normalizePath agrees with the RFC's result for the path with its runs of slashes squeezed,
      up to the trailing slash and %7E, exactly when no ".." climbs above the root or the path resolves to the root
      anyway. */
  lemma AgreesOnAbsoluteIff(path: string)
    requires path != "" && path[0] == '/'
    ensures var q := Squeeze(path);
      Normal(path) == Tilde(TrimSlash(Rfc(q))) <==> !Climbs(0, Squeezed(path)) || TrimSlash(Rfc(q)) == "/"
  {
    hide Normal, Rfc, TrimSlash, Climbs, Tilde, Join, Solid, Squeezed;
    var r := Squeezed(path);
    SqueezedSolid(path);
    SqueezeKeeps(path);
    AgreesWithRfcIff(r[..|r| - 1], r[|r| - 1]);
  }

  /** A path without double slashes is squeezed already. */
  lemma SqueezedAlready(path: string)
    requires path != "" && path[0] == '/' && !HasDoubleSlash(path)
    ensures Squeeze(path) == path
  {
    hide Split, Join, NonEmpty;
    var segs := Split(path[1..]);
    var n := |segs| - 1;
    assert !HasDoubleSlash(path[1..]) by {
      assert forall i :: 0 <= i < |path| - 1 ==> path[1..][i] == path[i + 1];
    }
    NoEmptyInside(path[1..]);
    JoinSplit(path[1..]);
    assert n > 0 ==> segs[0] != "" by {
      FirstOf(path[1..]);
    }
    NothingEmpty(segs[..n]);
    assert segs[..n] + [segs[n]] == segs;
  }

  lemma FirstOf(s: string)
    ensures |Split(s)| > 1 && (s == "" || s[0] != '/') ==> Split(s)[0] != ""
  {
  }

  lemma {:induction false} NothingEmpty(segs: seq<string>)
    requires "" !in segs
    ensures NonEmpty(segs) == segs
  {
    if segs != [] {
      var n := |segs| - 1;
      assert segs[n] in segs && forall s :: s in segs[..n] ==> s in segs;
      NothingEmpty(segs[..n]);
      assert segs[..n] + [segs[n]] == segs;
    }
  }

  // ---------- the smallest climb ----------

  lemma OneClimb(s: string)
    requires Segment(s) && s != "" && !IsDots(s)
    ensures Fold([], [".."]) == [] && Outer([], s) == [s] && Climbs(0, [".."] + [s])
    ensures "/" + Join([".."] + [s]) == "/../" + s
  {
  }

  /** The smallest climb: the leading slash is lost. */
  lemma ClimbLosesSlash(s: string)
    requires Segment(s) && s != "" && !IsDots(s)
    ensures Normal("/../" + s) == Tilde(s) && TrimSlash(Rfc("/../" + s)) == "/" + s
  {
    hide Normal, Rfc, TrimSlash, Fold, Outer, Climbs, Join, Tilde;
    OneClimb(s);
    NormalTrimmed([".."], s);
    RfcTrimmed([".."], s);
    JoinOne(s);
    assert Body([s]) == [s];
  }
}
