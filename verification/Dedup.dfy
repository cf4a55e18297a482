/**
 The grouping loop of Dedup in internal/localize/dedup.go: pages with the same
 canonical key collapse to one representative.  The laws hold for every assignment of
 keys, weights and noise flags to files, so in particular for the canonical key and
 clean weight of internal/localize/canonical.go.
 */
module Dedup {
  import opened Collections

  /** A walked file with what the loop asks about it: is it an HTML page, is it noise, its canonical key, its
      clean weight, and its path relative to the clone root. */
  datatype File = File(rel: string, html: bool, noise: bool, key: string, weight: int)

  datatype Group = Group(rep: File, collapsed: seq<string>)

  datatype State = State(groups: map<string, Group>, total: nat, kept: nat, collapsed: nat)

  const NO_GROUPS := State(map[], 0, 0, 0)

  // ---------- the order among candidates ----------

  /** Go's byte-wise string comparison. */
  predicate LexLess(a: string, b: string) {
    if b == "" then false
    else if a == "" then true
    else a[0] < b[0] || (a[0] == b[0] && LexLess(a[1..], b[1..]))
  }

  /** a is preferred to b: lighter, or equally light with the lexicographically smaller path. */
  predicate Preferred(a: File, b: File) {
    a.weight < b.weight || (a.weight == b.weight && LexLess(a.rel, b.rel))
  }

  lemma {:induction false} LexTotal(a: string, b: string)
    ensures LexLess(a, b) || LexLess(b, a) || a == b
    ensures !(LexLess(a, b) && LexLess(b, a)) && !LexLess(a, a)
  {
    if a != "" && b != "" {
      LexTotal(a[1..], b[1..]);
      assert a == [a[0]] + a[1..] && b == [b[0]] + b[1..];
    }
    if a != "" {
      LexTotal(a[1..], a[1..]);
    }
  }

  lemma {:induction false} LexTransitive(a: string, b: string, c: string)
    requires LexLess(a, b) && LexLess(b, c)
    ensures LexLess(a, c)
  {
    if a != "" && a[0] == b[0] == c[0] {
      LexTransitive(a[1..], b[1..], c[1..]);
    }
  }

  lemma PreferredTransitive(a: File, b: File, c: File)
    requires Preferred(a, b) && Preferred(b, c)
    ensures Preferred(a, c)
  {
    if a.weight == c.weight {
      LexTransitive(a.rel, b.rel, c.rel);
    }
  }

  // ---------- the loop ----------

  function Visit(s: State, f: File): State {
    if !f.html then s
    else if f.noise then s.(total := s.total + 1, collapsed := s.collapsed + 1)
    else if f.key !in s.groups then
      s.(total := s.total + 1, kept := s.kept + 1, groups := s.groups[f.key := Group(f, [])])
    else
      var g := s.groups[f.key];
      s.(total := s.total + 1, collapsed := s.collapsed + 1,
         groups := s.groups[f.key := Group(if Preferred(f, g.rep) then f else g.rep, g.collapsed + [f.rel])])
  }

  function VisitAll(files: seq<File>): State {
    if files == [] then NO_GROUPS else Visit(VisitAll(files[..|files| - 1]), files[|files| - 1])
  }

  method GroupFiles(files: seq<File>) returns (groups: map<string, Group>, total: nat, kept: nat, collapsed: nat)
    ensures State(groups, total, kept, collapsed) == VisitAll(files)
  {
    groups, total, kept, collapsed := map[], 0, 0, 0;
    for i := 0 to |files|
      invariant State(groups, total, kept, collapsed) == VisitAll(files[..i])
    {
      assert files[..i + 1][..i] == files[..i];
      var f := files[i];
      if !f.html {
        continue;
      }
      total := total + 1;
      if f.noise {
        collapsed := collapsed + 1;
        continue;
      }
      if f.key !in groups {
        groups := groups[f.key := Group(f, [])];
        kept := kept + 1;
        continue;
      }
      var g := groups[f.key];
      collapsed := collapsed + 1;
      groups := groups[f.key := Group(if Preferred(f, g.rep) then f else g.rep, g.collapsed + [f.rel])];
    }
    assert files[..|files|] == files;
  }

  // ---------- what it computes ----------

  /** The pages that compete for key k. */
  predicate Competes(f: File, k: string) {
    f.html && !f.noise && f.key == k
  }

  ghost predicate IsLeast(rep: File, files: seq<File>, k: string) {
    && rep in files && Competes(rep, k)
    && forall f :: f in files && Competes(f, k) ==> f == rep || Preferred(rep, f)
  }

  /** Distinct files have distinct relative paths. */
  ghost predicate DistinctPaths(files: seq<File>) {
    forall f, g :: f in files && g in files && f.rel == g.rel ==> f == g
  }

  function CountHtml(files: seq<File>): nat {
    if files == [] then 0 else CountHtml(files[..|files| - 1]) + (if files[|files| - 1].html then 1 else 0)
  }

  ghost predicate Grouped(s: State, files: seq<File>) {
    && (forall k :: k in s.groups <==> exists f :: f in files && Competes(f, k))
    && (forall k :: k in s.groups ==> IsLeast(s.groups[k].rep, files, k))
  }

  lemma LeastOfOne(files: seq<File>, f: File)
    requires Competes(f, f.key) && forall x :: x in files ==> !Competes(x, f.key)
    ensures IsLeast(f, files + [f], f.key)
  {
  }

  lemma LeastNext(rep: File, files: seq<File>, f: File, k: string)
    requires IsLeast(rep, files, k) && DistinctPaths(files + [f])
    ensures IsLeast(if Competes(f, k) && Preferred(f, rep) then f else rep, files + [f], k)
  {
    if Competes(f, k) {
      LexTotal(f.rel, rep.rel);
      if Preferred(f, rep) {
        forall x | x in files && Competes(x, k) ensures x == f || Preferred(f, x) {
          if x != rep {
            PreferredTransitive(f, rep, x);
          }
        }
      }
    }
  }

  lemma {:induction false} VisitAllGroups(files: seq<File>)
    requires DistinctPaths(files)
    ensures Grouped(VisitAll(files), files)
    decreases |files|
  {
    if files != [] {
      var n := |files| - 1;
      var before, f := files[..n], files[n];
      assert before + [f] == files;
      VisitAllGroups(before);
      VisitGroups(VisitAll(before), before, f);
    }
  }

  lemma VisitGroups(s: State, before: seq<File>, f: File)
    requires Grouped(s, before) && DistinctPaths(before + [f])
    ensures Grouped(Visit(s, f), before + [f])
  {
    hide IsLeast;
    var files := before + [f];
    var s' := Visit(s, f);
    forall k ensures k in s'.groups <==> exists x :: x in files && Competes(x, k) {
      if Competes(f, k) {
        assert f in files;
      }
      if x :| x in before && Competes(x, k) {
        assert x in files;
      }
    }
    forall k | k in s'.groups ensures IsLeast(s'.groups[k].rep, files, k) {
      if k in s.groups {
        LeastNext(s.groups[k].rep, before, f, k);
      } else {
        assert k == f.key && Competes(f, k);
        LeastOfOne(before, f);
      }
    }
  }

  lemma {:induction false} Counts(files: seq<File>)
    ensures var s := VisitAll(files);
      s.total == CountHtml(files) && s.kept == |s.groups| && s.total == s.kept + s.collapsed
  {
    if files != [] {
      Counts(files[..|files| - 1]);
    }
  }

  // ---------- independence of the walk order ----------

  lemma LeastIsUnique(a: File, b: File, files: seq<File>, files': seq<File>, k: string)
    requires IsLeast(a, files, k) && IsLeast(b, files', k) && multiset(files) == multiset(files')
    ensures a == b
  {
    assert a in multiset(files') && b in multiset(files);
    LexTotal(a.rel, b.rel);
  }

  lemma CountHtmlWithout(files: seq<File>, j: nat)
    requires j < |files|
    ensures multiset(RemoveAt(files, j)) == multiset(files) - multiset{files[j]}
    ensures CountHtml(files) == CountHtml(RemoveAt(files, j)) + (if files[j].html then 1 else 0)
  {
    RemoveAtBag(files, j);
    CountHtmlMove(files[..j], files[j], files[j + 1..]);
  }

  lemma {:induction false} CountHtmlSame(files: seq<File>, files': seq<File>)
    requires multiset(files) == multiset(files')
    ensures CountHtml(files) == CountHtml(files')
    decreases |files|
  {
    hide CountHtml;
    if files == [] {
      assert |multiset(files')| == 0;
    } else {
      var f := files[0];
      assert f in multiset(files');
      var j :| 0 <= j < |files'| && files'[j] == f;
      CountHtmlWithout(files, 0);
      CountHtmlWithout(files', j);
      CountHtmlSame(RemoveAt(files, 0), RemoveAt(files', j));
    }
  }

  lemma {:induction false} CountHtmlMove(a: seq<File>, f: File, b: seq<File>)
    ensures CountHtml(a + [f] + b) == CountHtml(a + b) + (if f.html then 1 else 0)
    decreases |b|
  {
    if b == [] {
      assert a + b == a && a + [f] + b == a + [f] && (a + [f])[..|a|] == a;
    } else {
      var n := |b| - 1;
      CountHtmlMove(a, f, b[..n]);
      assert (a + [f] + b)[..|a| + 1 + n] == a + [f] + b[..n];
      assert (a + b)[..|a| + n] == a + b[..n];
    }
  }

  /** For every two walk orders of the same files: the same keys, for each key the same one page kept, namely
      the least by weight and then path, and the same counts, kept plus collapsed making up the total. */
  lemma WalkOrderIrrelevant(files: seq<File>, files': seq<File>)
    requires multiset(files) == multiset(files') && DistinctPaths(files)
    ensures var s, s' := VisitAll(files), VisitAll(files');
      && s.groups.Keys == s'.groups.Keys
      && (forall k :: k in s.groups ==> s.groups[k].rep == s'.groups[k].rep && IsLeast(s.groups[k].rep, files, k))
      && s.total == s'.total && s.kept == s'.kept == |s.groups| && s.collapsed == s'.collapsed
      && s.total == s.kept + s.collapsed
  {
    hide VisitAll, IsLeast, CountHtml, DistinctPaths, Competes;
    var s, s' := VisitAll(files), VisitAll(files');
    SameMembers(files, files');
    assert DistinctPaths(files') by { StillDistinct(files, files'); }
    VisitAllGroups(files);
    VisitAllGroups(files');
    Counts(files);
    Counts(files');
    CountHtmlSame(files, files');
    assert s.groups.Keys == s'.groups.Keys;
    assert |s.groups| == |s.groups.Keys| && |s'.groups| == |s'.groups.Keys|;
    forall k | k in s.groups ensures s.groups[k].rep == s'.groups[k].rep && IsLeast(s.groups[k].rep, files, k) {
      LeastIsUnique(s.groups[k].rep, s'.groups[k].rep, files, files', k);
    }
  }

  lemma StillDistinct(files: seq<File>, files': seq<File>)
    requires DistinctPaths(files) && forall f :: f in files <==> f in files'
    ensures DistinctPaths(files')
  {
  }

  lemma SameMembers(files: seq<File>, files': seq<File>)
    requires multiset(files) == multiset(files')
    ensures forall f :: f in files <==> f in files'
  {
    assert forall f :: f in files <==> f in multiset(files);
    assert forall f :: f in files' <==> f in multiset(files');
  }

  // ---------- the manifest ----------

  function PathsFor(files: seq<File>, k: string): seq<string> {
    if files == [] then []
    else PathsFor(files[..|files| - 1], k) + (if Competes(files[|files| - 1], k) then [files[|files| - 1].rel] else [])
  }

  /** The collapsed list of a group is every competing path but the first one walked. */
  lemma {:induction false} CollapsedIsAllButFirst(files: seq<File>, k: string)
    requires k in VisitAll(files).groups
    ensures PathsFor(files, k) != [] && VisitAll(files).groups[k].collapsed == PathsFor(files, k)[1..]
    decreases |files|
  {
    var n := |files| - 1;
    if k in VisitAll(files[..n]).groups {
      CollapsedIsAllButFirst(files[..n], k);
    } else {
      NoPathsYet(files[..n], k);
    }
  }

  lemma {:induction false} NoPathsYet(files: seq<File>, k: string)
    requires k !in VisitAll(files).groups
    ensures PathsFor(files, k) == []
    decreases |files|
  {
    if files != [] {
      NoPathsYet(files[..|files| - 1], k);
    }
  }

  /** The walk lists each file once. */
  ghost predicate WalkedOnce(files: seq<File>) {
    forall i, j :: 0 <= i < j < |files| ==> files[i].rel != files[j].rel
  }

  lemma {:induction false} PathsWalkedOnce(files: seq<File>, k: string)
    requires WalkedOnce(files)
    ensures forall i, j :: 0 <= i < j < |PathsFor(files, k)| ==> PathsFor(files, k)[i] != PathsFor(files, k)[j]
    ensures forall p :: p in PathsFor(files, k) ==> exists i :: 0 <= i < |files| && files[i].rel == p
    decreases |files|
  {
    if files != [] {
      var n := |files| - 1;
      PathsWalkedOnce(files[..n], k);
      var before := PathsFor(files[..n], k);
      forall p | p in before ensures p != files[n].rel && exists i :: 0 <= i < |files| && files[i].rel == p {
        var i :| 0 <= i < n && files[..n][i].rel == p;
        assert files[i].rel == p;
      }
      var paths := PathsFor(files, k);
      forall i, j | 0 <= i < j < |paths| ensures paths[i] != paths[j] {
        assert paths[i] == before[i] && before[i] in before;
      }
      assert files[n].rel == files[n].rel;
    }
  }

  /** So the manifest entry of the kept page leaves that page out exactly when the first page walked is the least one:
      it depends on the walk order. */
  lemma ManifestRightIff(files: seq<File>, k: string)
    requires WalkedOnce(files) && k in VisitAll(files).groups
    ensures var g := VisitAll(files).groups[k];
      && PathsFor(files, k) != []
      && (g.rep.rel !in g.collapsed <==> exists f :: IsLeast(f, files, k) && f.rel == PathsFor(files, k)[0])
  {
    hide VisitAll, WalkedOnce;
    assert DistinctPaths(files) by { OnceIsDistinct(files); }
    CollapsedIsAllButFirst(files, k);
    VisitAllGroups(files);
    PathsWalkedOnce(files, k);
    var rep := VisitAll(files).groups[k].rep;
    PathsOfCompeting(files, rep, k);
    var paths := PathsFor(files, k);
    var i :| 0 <= i < |paths| && paths[i] == rep.rel;
    if i > 0 {
      assert paths[1..][i - 1] == rep.rel;
    }
    assert IsLeast(rep, files, k);
    forall f | IsLeast(f, files, k) ensures f == rep {
      LeastIsUnique(f, rep, files, files, k);
    }
  }

  lemma OnceIsDistinct(files: seq<File>)
    requires WalkedOnce(files)
    ensures DistinctPaths(files)
  {
  }

  lemma {:induction false} PathsOfCompeting(files: seq<File>, f: File, k: string)
    requires f in files && Competes(f, k)
    ensures f.rel in PathsFor(files, k)
    decreases |files|
  {
    var n := |files| - 1;
    if f != files[n] {
      PathsOfCompeting(files[..n], f, k);
    }
  }

  /** Two walks of the same two pages: one lists the kept page as collapsed. */
  lemma ManifestDependsOnOrder(light: File, heavy: File, k: string)
    requires Competes(light, k) && Competes(heavy, k) && light.weight < heavy.weight
    ensures VisitAll([light, heavy]).groups[k] == Group(light, [heavy.rel])
    ensures VisitAll([heavy, light]).groups[k] == Group(light, [light.rel])
  {
    TwoVisits(light, heavy);
    TwoVisits(heavy, light);
  }

  lemma TwoVisits(a: File, b: File)
    ensures VisitAll([a, b]) == Visit(Visit(NO_GROUPS, a), b)
  {
    assert [a, b][..1] == [a] && [a][..0] == [];
    assert VisitAll([a]) == Visit(VisitAll([]), a);
  }
}
