/**
 normalizePath of internal/queue/strip.go: the string passes and the segment stack,
 against one pass over the segments, with its normal form and its relation to
 remove_dot_segments of section 5.2.4 of RFC 3986.
 */
module PathNormal {
  import opened Segments

  /** strings.ReplaceAll for a non-empty pattern. */
  function ReplaceAll(s: string, old': string, new': string): string
    requires old' != ""
  {
    if |s| < |old'| then s
    else if old' <= s then new' + ReplaceAll(s[|old'|..], old', new')
    else [s[0]] + ReplaceAll(s[1..], old', new')
  }

  // ---------- one pass over the segments ----------

  /** An interior segment: "." and "" vanish, ".." removes its predecessor. */
  function Inner(stack: seq<string>, seg: string): seq<string> {
    if seg == "" then stack else Outer(stack, seg)
  }

  /** The first and the last segment: an empty one counts. */
  function Outer(stack: seq<string>, seg: string): seq<string> {
    if seg == ".." then (if stack == [] then [] else stack[..|stack| - 1])
    else if seg == "." then stack
    else stack + [seg]
  }

  function Fold(stack: seq<string>, segs: seq<string>): seq<string> {
    if segs == [] then stack else Inner(Fold(stack, segs[..|segs| - 1]), segs[|segs| - 1])
  }

  function Resolve(segs: seq<string>): seq<string>
    requires segs != []
  {
    var first := Outer([], segs[0]);
    if |segs| == 1 then first
    else Outer(Fold(first, segs[1..|segs| - 1]), segs[|segs| - 1])
  }

  /** Join, drop one trailing slash, never empty. */
  function Shape(stack: seq<string>): string {
    var p := Join(stack);
    var q := if |p| > 1 && p[|p| - 1] == '/' then p[..|p| - 1] else p;
    if q == "" then "/" else q
  }

  function Tilde(s: string): string {
    ReplaceAll(s, "%7E", "~")
  }

  /** The specification: the normalized path in one pass. */
  function Normal(path: string): string {
    if path == "" then "/" else Tilde(Shape(Resolve(Split(path))))
  }

  // ---------- the string passes do not change the outcome ----------

  lemma {:induction false} FoldConcat(stack: seq<string>, a: seq<string>, b: seq<string>)
    ensures Fold(stack, a + b) == Fold(Fold(stack, a), b)
    decreases |b|
  {
    if b == [] {
      assert a + b == a;
    } else {
      var n := |b| - 1;
      FoldConcat(stack, a, b[..n]);
      assert (a + b)[..|a + b| - 1] == a + b[..n];
    }
  }

  lemma Sandwich<T>(s: seq<T>)
    requires |s| > 1
    ensures s == [s[0]] + s[1..|s| - 1] + [s[|s| - 1]]
  {
  }

  lemma ResolveSandwich(first: string, mid: seq<string>, last: string)
    ensures Resolve([first] + mid + [last]) == Outer(Fold(Outer([], first), mid), last)
  {
  }

  /** An interior segment that is "." or empty can be left out. */
  lemma FoldSkips(stack: seq<string>, a: seq<string>, x: string, b: seq<string>)
    requires x == "." || x == ""
    ensures Fold(stack, a + [x] + b) == Fold(stack, a + b)
  {
    FoldConcat(stack, a + [x], b);
    FoldConcat(stack, a, [x]);
    FoldConcat(stack, a, b);
    var s := Fold(stack, a);
    assert [x][..0] == [];
    assert Fold(s, [x]) == Inner(Fold(s, []), x);
  }

  lemma ResolveSkips(a: seq<string>, x: string, b: seq<string>)
    requires a != [] && b != [] && (x == "." || x == "")
    ensures Resolve(a + [x] + b) == Resolve(a + b)
  {
    hide Outer, Fold, Resolve;
    var first, last := a[0], b[|b| - 1];
    var m1, m2 := a[1..], b[..|b| - 1];
    assert a + [x] + b == [first] + (m1 + [x] + m2) + [last];
    assert a + b == [first] + (m1 + m2) + [last];
    ResolveSandwich(first, m1 + [x] + m2, last);
    ResolveSandwich(first, m1 + m2, last);
    FoldSkips(Outer([], first), m1, x, m2);
  }

  /** Replacing "/./" or "//" by "/" anywhere. */
  lemma ReplaceOne(a: string, x: string, b: string)
    requires x == "." || x == ""
    ensures Resolve(Split(a + ("/" + x + "/") + b)) == Resolve(Split(a + "/" + b))
  {
    hide Resolve, Split;
    SplitConcat(a, x + "/" + b);
    SplitConcat(x, b);
    SplitConcat(a, b);
    SplitOne(x);
    assert a + ("/" + x + "/") + b == a + "/" + (x + "/" + b);
    assert Split(a) + ([x] + Split(b)) == Split(a) + [x] + Split(b);
    ResolveSkips(Split(a), x, Split(b));
  }

  lemma {:induction false} ReplaceAllKeeps(before: string, s: string, x: string)
    requires x == "." || x == ""
    ensures Resolve(Split(before + ReplaceAll(s, "/" + x + "/", "/"))) == Resolve(Split(before + s))
    decreases |s|
  {
    hide Resolve, Split;
    var p := "/" + x + "/";
    var n := |p|;
    if |s| < n {
    } else if p <= s {
      ReplaceAllKeeps(before + "/", s[n..], x);
      ReplaceOne(before, x, s[n..]);
      assert before + p + s[n..] == before + s;
      assert before + "/" + ReplaceAll(s[n..], p, "/") == before + ("/" + ReplaceAll(s[n..], p, "/"));
    } else {
      ReplaceAllKeeps(before + [s[0]], s[1..], x);
      assert before + [s[0]] + s[1..] == before + s;
      assert before + [s[0]] + ReplaceAll(s[1..], p, "/") == before + ([s[0]] + ReplaceAll(s[1..], p, "/"));
    }
  }

  predicate HasDoubleSlash(s: string) {
    exists i :: 0 <= i < |s| - 1 && s[i] == '/' && s[i + 1] == '/'
  }

  lemma {:induction false} ReplaceShrinks(s: string)
    ensures |ReplaceAll(s, "//", "/")| <= |s|
    ensures HasDoubleSlash(s) ==> |ReplaceAll(s, "//", "/")| < |s|
    ensures s != "" ==> ReplaceAll(s, "//", "/") != ""
  {
    if |s| < 2 {
    } else if "//" <= s {
      ReplaceShrinks(s[2..]);
    } else {
      ReplaceShrinks(s[1..]);
      if HasDoubleSlash(s) {
        var i :| 0 <= i < |s| - 1 && s[i] == '/' && s[i + 1] == '/';
        assert i != 0;
        assert s[1..][i - 1] == '/' && s[1..][i] == '/';
      }
    }
  }

  /** Without double slashes no interior segment is empty. */
  lemma {:induction false} NoEmptyInside(s: string)
    requires !HasDoubleSlash(s)
    ensures forall i :: 0 < i < |Split(s)| - 1 ==> Split(s)[i] != ""
    ensures s != "" && s[0] != '/' ==> Split(s)[0] != ""
    ensures s == "" ==> |Split(s)| == 1
  {
    if s != "" {
      forall i | 0 <= i < |s[1..]| - 1 ensures !(s[1..][i] == '/' && s[1..][i + 1] == '/') {
        assert s[1..][i] == s[i + 1] && s[1..][i + 1] == s[i + 2];
      }
      NoEmptyInside(s[1..]);
      assert s[0] == '/' && s[1..] != "" ==> s[1..][0] != '/';
    }
  }

  // ---------- the method ----------

  /** The plain stack pass of the source: no segment is treated specially. */
  function Plain(stack: seq<string>, segs: seq<string>): seq<string> {
    if segs == [] then stack else Outer(Plain(stack, segs[..|segs| - 1]), segs[|segs| - 1])
  }

  lemma {:induction false} PlainIsFold(stack: seq<string>, segs: seq<string>)
    requires forall i :: 0 <= i < |segs| ==> segs[i] != ""
    ensures Plain(stack, segs) == Fold(stack, segs)
  {
    if segs != [] {
      PlainIsFold(stack, segs[..|segs| - 1]);
    }
  }

  lemma {:induction false} PlainConcat(stack: seq<string>, a: seq<string>, b: seq<string>)
    ensures Plain(stack, a + b) == Plain(Plain(stack, a), b)
    decreases |b|
  {
    if b == [] {
      assert a + b == a;
    } else {
      var n := |b| - 1;
      PlainConcat(stack, a, b[..n]);
      assert (a + b)[..|a + b| - 1] == a + b[..n];
    }
  }

  lemma PlainOne(stack: seq<string>, seg: string)
    ensures Plain(stack, [seg]) == Outer(stack, seg)
  {
  }

  lemma PlainSandwich(first: string, mid: seq<string>, last: string)
    requires forall i :: 0 <= i < |mid| ==> mid[i] != ""
    ensures Plain([], [first] + mid + [last]) == Outer(Fold(Outer([], first), mid), last)
  {
    hide Outer, Plain, Fold;
    PlainConcat([], [first] + mid, [last]);
    PlainConcat([], [first], mid);
    PlainOne([], first);
    PlainIsFold(Outer([], first), mid);
    PlainOne(Fold(Outer([], first), mid), last);
  }

  lemma PlainIsResolve(segs: seq<string>)
    requires segs != [] && forall i :: 0 < i < |segs| - 1 ==> segs[i] != ""
    ensures Plain([], segs) == Resolve(segs)
  {
    hide Outer, Plain, Fold;
    var n := |segs| - 1;
    if n == 0 {
      PlainOne([], segs[0]);
      assert segs == [segs[0]];
    } else {
      Sandwich(segs);
      PlainSandwich(segs[0], segs[1..n], segs[n]);
      ResolveSandwich(segs[0], segs[1..n], segs[n]);
    }
  }

  /** One turn of the segment loop. */
  lemma PlainNext(segs: seq<string>, i: nat)
    requires i < |segs|
    ensures Plain([], segs[..i + 1]) == Outer(Plain([], segs[..i]), segs[i])
  {
    assert segs[..i + 1][..i] == segs[..i];
  }

  /** The passes over the string: no double slash is left and the outcome is the same. */
  method CollapseSlashes(path: string) returns (p: string)
    requires path != ""
    ensures p != "" && !HasDoubleSlash(p) && Resolve(Split(p)) == Resolve(Split(path))
  {
    hide Resolve, Split;
    p := ReplaceAll(path, "/./", "/");
    ReplaceAllKeeps("", path, ".");
    assert "" + p == p && "" + path == path && "/" + "." + "/" == "/./";
    while HasDoubleSlash(p)
      invariant p != "" && Resolve(Split(p)) == Resolve(Split(path))
      decreases |p|
    {
      ReplaceAllKeeps("", p, "");
      assert "" + p == p && "/" + "" + "/" == "//";
      assert "" + ReplaceAll(p, "//", "/") == ReplaceAll(p, "//", "/");
      ReplaceShrinks(p);
      p := ReplaceAll(p, "//", "/");
    }
  }

  method NormalizePath(path: string) returns (r: string)
    ensures r == Normal(path)
  {
    hide Resolve, Split, Tilde, ReplaceAll;
    if path == "" {
      return "/";
    }
    var p := CollapseSlashes(path);
    var segments := Split(p);
    var resolved: seq<string> := [];
    for i := 0 to |segments|
      invariant resolved == Plain([], segments[..i])
    {
      var seg := segments[i];
      PlainNext(segments, i);
      if seg == ".." {
        if |resolved| > 0 {
          resolved := resolved[..|resolved| - 1];
        }
      } else if seg != "." {
        resolved := resolved + [seg];
      }
    }
    assert segments[..|segments|] == segments;
    NoEmptyInside(p);
    PlainIsResolve(segments);
    r := Join(resolved);
    if |r| > 1 && r[|r| - 1] == '/' {
      r := r[..|r| - 1];
    }
    if r == "" {
      r := "/";
    }
    r := Tilde(r);
  }

  // ---------- the normal form ----------

  predicate IsDots(seg: string) {
    seg == "." || seg == ".."
  }

  /** No dot segments, no slashes inside, and only the first or last may be empty. */
  ghost predicate Tame(stack: seq<string>) {
    && (forall i :: 0 <= i < |stack| ==> !IsDots(stack[i]) && '/' !in stack[i])
    && (forall i :: 0 < i < |stack| - 1 ==> stack[i] != "")
  }

  /** In addition nothing after the first is empty. */
  ghost predicate Inside(stack: seq<string>) {
    Tame(stack) && forall i :: 0 < i < |stack| ==> stack[i] != ""
  }

  lemma {:induction false} FoldInside(stack: seq<string>, segs: seq<string>)
    requires Inside(stack) && forall i :: 0 <= i < |segs| ==> '/' !in segs[i]
    ensures Inside(Fold(stack, segs))
  {
    if segs != [] {
      FoldInside(stack, segs[..|segs| - 1]);
    }
  }

  lemma ResolveTame(path: string)
    ensures Tame(Resolve(Split(path)))
  {
    hide Split;
    var segs := Split(path);
    NoSeparator(path);
    if |segs| > 1 {
      FoldInside(Outer([], segs[0]), segs[1..|segs| - 1]);
    }
  }

  /** The stack without a trailing empty segment. */
  function Body(stack: seq<string>): seq<string> {
    if stack != [] && stack[|stack| - 1] == "" then stack[..|stack| - 1] else stack
  }

  /** A path that normalization leaves alone, as segments: at least one, none a dot segment, none empty but
      possibly the first of several. */
  ghost predicate Normalized(segs: seq<string>) {
    && Inside(segs) && segs != [] && segs != [""]
  }

  lemma {:induction false} JoinEnds(segs: seq<string>)
    requires segs != [] && (forall i :: 0 <= i < |segs| ==> '/' !in segs[i])
    ensures segs[|segs| - 1] != "" ==> Join(segs) != "" && Join(segs)[|Join(segs)| - 1] != '/'
    ensures |segs| > 1 ==> Join(segs) != ""
    ensures Join(segs) == "" <==> segs == [""]
  {
    if |segs| > 1 {
      JoinEnds(segs[1..]);
      assert segs[1..][|segs| - 2] == segs[|segs| - 1];
      assert Join(segs) == segs[0] + "/" + Join(segs[1..]);
    } else {
      assert segs == [segs[0]];
      assert segs[0] != "" ==> segs[0][|segs[0]| - 1] in segs[0];
    }
  }

  lemma ShapeIsBody(stack: seq<string>)
    requires Tame(stack)
    ensures Shape(stack) == if Body(stack) == [] || Body(stack) == [""] then "/" else Join(Body(stack))
    ensures Body(stack) != [] && Body(stack) != [""] ==> Normalized(Body(stack)) && Body(stack)[|Body(stack)| - 1] != ""
  {
    var n := |stack|;
    if n > 0 {
      JoinEnds(stack);
      if n > 1 && stack[n - 1] == "" {
        var t := stack[..n - 1];
        JoinEnds(t);
        assert t + [""] == stack;
        JoinConcat(t, [""]);
        assert Join(stack) == Join(t) + "/";
      }
    }
  }

  // ---------- %7E ----------

  predicate StartsWith7E(s: string) {
    |s| >= 3 && s[0] == '%' && s[1] == '7' && s[2] == 'E'
  }

  lemma TildeStep(s: string)
    requires s != ""
    ensures Tilde(s) == if StartsWith7E(s) then "~" + Tilde(s[3..]) else [s[0]] + Tilde(s[1..])
  {
  }

  lemma {:induction false} TildeSlash(a: string, b: string)
    ensures Tilde(a + "/" + b) == Tilde(a) + "/" + Tilde(b)
    decreases |a|
  {
    hide Tilde;
    var s := a + "/" + b;
    TildeStep(s);
    if a == "" {
      TildeNothing();
      assert s[1..] == b;
    } else {
      TildeStep(a);
      assert StartsWith7E(s) <==> StartsWith7E(a);
      if StartsWith7E(a) {
        assert s[3..] == a[3..] + "/" + b;
        TildeSlash(a[3..], b);
      } else {
        assert s[1..] == a[1..] + "/" + b;
        TildeSlash(a[1..], b);
      }
    }
  }

  lemma TildeNothing()
    ensures Tilde("") == "" && Tilde("/") == "/"
  {
  }

  /** What the substitution does to one segment. */
  lemma {:induction false} TildeSegment(s: string)
    ensures Tilde(s) == "" <==> s == ""
    ensures '/' !in s ==> '/' !in Tilde(s)
    ensures Tilde(s) != "" ==> Tilde(s)[0] == (if StartsWith7E(s) then '~' else s[0])
    ensures IsDots(Tilde(s)) ==> Tilde(s) == s
    decreases |s|
  {
    hide Tilde;
    if s == "" {
      TildeNothing();
    } else {
      TildeStep(s);
      if StartsWith7E(s) {
        TildeSegment(s[3..]);
      } else {
        TildeSegment(s[1..]);
        assert s == [s[0]] + s[1..];
        if IsDots(Tilde(s)) {
          assert Tilde(s)[1..] == Tilde(s[1..]);
        }
      }
    }
  }

  lemma {:induction false} TildeTwice(s: string)
    ensures Tilde(Tilde(s)) == Tilde(s)
    decreases |s|
  {
    hide Tilde;
    if s == "" {
      TildeNothing();
    } else {
      TildeStep(s);
      var t := Tilde(s);
      TildeSegment(s);
      TildeStep(t);
      if StartsWith7E(s) {
        TildeTwice(s[3..]);
        assert t[1..] == Tilde(s[3..]);
      } else {
        TildeTwice(s[1..]);
        assert t[1..] == Tilde(s[1..]);
        assert !StartsWith7E(t) by { StillNo7E(s); }
      }
    }
  }

  lemma StillNo7E(s: string)
    requires s != "" && !StartsWith7E(s)
    ensures !StartsWith7E(Tilde(s))
  {
    hide Tilde;
    TildeStep(s);
    TildeSegment(s[1..]);
    assert Tilde(s)[1..] == Tilde(s[1..]);
    if |s| > 1 {
      TildeStep(s[1..]);
      assert s[1..][1..] == s[2..];
      TildeSegment(s[2..]);
      if !StartsWith7E(s[1..]) {
        assert Tilde(s[1..])[1..] == Tilde(s[2..]);
      }
    } else {
      assert s[1..] == "";
    }
  }

  function TildeAll(segs: seq<string>): (r: seq<string>)
    ensures |r| == |segs| && forall i :: 0 <= i < |segs| ==> r[i] == Tilde(segs[i])
  {
    seq(|segs|, i requires 0 <= i < |segs| => Tilde(segs[i]))
  }

  lemma {:induction false} TildeJoin(segs: seq<string>)
    requires segs != []
    ensures Tilde(Join(segs)) == Join(TildeAll(segs))
  {
    hide Tilde;
    if |segs| > 1 {
      TildeJoin(segs[1..]);
      TildeSlash(segs[0], Join(segs[1..]));
      assert TildeAll(segs)[1..] == TildeAll(segs[1..]);
    }
  }

  lemma TildeNormalized(segs: seq<string>)
    requires Normalized(segs)
    ensures Normalized(TildeAll(segs))
  {
    hide Tilde;
    var t := TildeAll(segs);
    forall i | 0 <= i < |t| ensures !IsDots(t[i]) && '/' !in t[i] && (t[i] == "" <==> segs[i] == "") {
      TildeSegment(segs[i]);
    }
    assert |segs| == 1 ==> segs == [segs[0]] && t == [t[0]];
  }

  // ---------- idempotence ----------

  lemma {:induction false} FoldPushes(stack: seq<string>, segs: seq<string>)
    requires forall i :: 0 <= i < |segs| ==> segs[i] != "" && !IsDots(segs[i])
    ensures Fold(stack, segs) == stack + segs
  {
    if segs != [] {
      var n := |segs| - 1;
      FoldPushes(stack, segs[..n]);
      assert segs[..n] + [segs[n]] == segs;
    }
  }

  lemma ResolveNormalized(segs: seq<string>)
    requires Normalized(segs)
    ensures Resolve(segs) == segs
  {
    var n := |segs| - 1;
    assert Outer([], segs[0]) == [segs[0]];
    if n == 0 {
      assert segs == [segs[0]];
    } else {
      FoldPushes([segs[0]], segs[1..n]);
      assert [segs[0]] + segs[1..n] + [segs[n]] == segs;
    }
  }

  /** Every result is "/" or the join of a normalized segment list on which %7E substitution is done. */
  lemma ResultForm(path: string) returns (segs: seq<string>)
    ensures Normal(path) == "/" || (Normalized(segs) && Normal(path) == Join(segs) && Tilde(Join(segs)) == Join(segs))
  {
    hide Split, Resolve, Tilde, Shape;
    TildeNothing();
    segs := [];
    if path != "" {
      ResolveTame(path);
      var stack := Resolve(Split(path));
      ShapeIsBody(stack);
      if Body(stack) != [] && Body(stack) != [""] {
        segs := TildeAll(Body(stack));
        TildeJoin(Body(stack));
        TildeTwice(Join(Body(stack)));
        TildeNormalized(Body(stack));
      }
    }
  }

  /** The result has no dot segment, no interior empty segment and no trailing slash unless it is "/". */
  lemma NormalForm(path: string)
    ensures var g := Split(Normal(path));
      Normal(path) == "/" ||
      (g[|g| - 1] != "" && forall i :: 0 <= i < |g| ==> !IsDots(g[i]) && (i > 0 ==> g[i] != ""))
  {
    hide Normal;
    var segs := ResultForm(path);
    if Normal(path) != "/" {
      SplitJoin(segs);
    }
  }

  /** Normalization is idempotent. */
  lemma NormalTwice(path: string)
    ensures Normal(Normal(path)) == Normal(path)
  {
    hide Split, Resolve, Tilde, Shape;
    var r := Normal(path);
    var segs := ResultForm(path);
    if r == "/" {
      SlashIsNormal();
    } else {
      SplitJoin(segs);
      JoinEnds(segs);
      ResolveNormalized(segs);
      ShapeIsBody(segs);
    }
  }

  lemma SlashIsNormal()
    ensures Normal("/") == "/"
  {
  }
}
