/**
 Splitting text at a separator as strings.Split does, by default a path at its
 slashes, and joining path segments again as strings.Join does.
 */
module Segments {
  function Split(s: string, sep: char := '/'): (r: seq<string>)
    ensures |r| > 0
  {
    if s == "" then [""]
    else Extend(s[0], Split(s[1..], sep), sep)
  }

  function Join(segs: seq<string>, sep: char := '/'): string {
    if segs == [] then ""
    else if |segs| == 1 then segs[0]
    else segs[0] + [sep] + Join(segs[1..], sep)
  }

  /** The segment list of c + s, given that of s. */
  function Extend(c: char, t: seq<string>, sep: char): (r: seq<string>)
    requires |t| > 0
    ensures |r| > 0
  {
    if c == sep then [""] + t else [[c] + t[0]] + t[1..]
  }

  lemma ExtendConcat(c: char, t: seq<string>, u: seq<string>, sep: char)
    requires |t| > 0
    ensures Extend(c, t + u, sep) == Extend(c, t, sep) + u
  {
  }

  lemma {:induction false} NoSeparator(s: string, sep: char := '/')
    ensures forall i :: 0 <= i < |Split(s, sep)| ==> sep !in Split(s, sep)[i]
  {
    if s != "" {
      NoSeparator(s[1..], sep);
    }
  }

  lemma {:induction false} SplitConcat(a: string, b: string, sep: char := '/')
    ensures Split(a + [sep] + b, sep) == Split(a, sep) + Split(b, sep)
  {
    hide Extend;
    var s := a + [sep] + b;
    if a == "" {
      assert s == [sep] + b;
      SplitSeparator(b, sep);
    } else {
      SplitConcat(a[1..], b, sep);
      assert s[1..] == a[1..] + [sep] + b;
      ExtendConcat(a[0], Split(a[1..], sep), Split(b, sep), sep);
    }
  }

  lemma SplitSeparator(b: string, sep: char := '/')
    ensures Split([sep] + b, sep) == [""] + Split(b, sep) && Split("", sep) == [""]
  {
    assert ([sep] + b)[1..] == b;
  }

  lemma {:induction false} JoinSplit(s: string)
    ensures Join(Split(s)) == s
  {
    if s != "" {
      JoinSplit(s[1..]);
      var t := Split(s[1..]);
      if s[0] == '/' {
        assert ([""] + t)[1..] == t;
        assert "" + "/" + s[1..] == s;
      } else {
        assert ([[s[0]] + t[0]] + t[1..])[1..] == t[1..];
        assert |t| > 1 ==> [s[0]] + t[0] + "/" + Join(t[1..]) == [s[0]] + (t[0] + "/" + Join(t[1..]));
        assert [s[0]] + s[1..] == s;
      }
    }
  }

  lemma {:induction false} SplitOne(s: string, sep: char := '/')
    requires sep !in s
    ensures Split(s, sep) == [s]
  {
    if s != "" {
      SplitOne(s[1..], sep);
      assert [s[0]] + s[1..] == s;
    }
  }

  lemma {:induction false} SplitJoin(segs: seq<string>, sep: char := '/')
    requires segs != [] && forall i :: 0 <= i < |segs| ==> sep !in segs[i]
    ensures Split(Join(segs, sep), sep) == segs
  {
    SplitOne(segs[0], sep);
    if |segs| > 1 {
      SplitJoin(segs[1..], sep);
      SplitConcat(segs[0], Join(segs[1..], sep), sep);
      assert [segs[0]] + segs[1..] == segs;
    } else {
      assert segs == [segs[0]];
    }
  }

  lemma {:induction false} JoinConcat(a: seq<string>, b: seq<string>)
    requires a != [] && b != []
    ensures Join(a + b) == Join(a) + "/" + Join(b)
  {
    if |a| == 1 {
      assert (a + b)[1..] == b;
    } else {
      JoinConcat(a[1..], b);
      assert (a + b)[1..] == a[1..] + b;
    }
  }

  lemma JoinOne(s: string)
    ensures Join([s]) == s
  {
  }
}
