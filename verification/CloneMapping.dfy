/**
 What the reverse scan of buildMapping (internal/localize/localize.go) leaves in the
 mapping, for every tree of files and every walk order.
 */
module CloneMapping {
  import opened Percent
  import opened UrlPath

  lemma TreePrefix(files: seq<Path>, n: nat)
    requires FileTree(files) && n <= |files|
    ensures FileTree(files[..n]) && NonEmptyPaths(files[..n])
  {
  }

  lemma TreeClean(files: seq<Path>, i: nat)
    requires FileTree(files) && i < |files|
    ensures CleanPath(files[i])
  {
  }

  lemma FilesDiffer(files: seq<Path>, i: nat, j: nat)
    requires FileTree(files) && i < |files| && j < |files| && i != j
    ensures CleanPath(files[i]) && CleanPath(files[j])
    ensures !(files[i] <= files[j]) && !(files[j] <= files[i]) && files[i] != files[j]
  {
  }

  lemma ListedIsKey(p: Path)
    requires p != []
    ensures EscapeAll(Listed(p)) in Keys(p) && Listed(p) in Keys(p)
  {
    assert Listed(p) in Forms(p);
  }

  /** The unescaped name of another file spells the escaped name of form f of p. */
  ghost predicate Shadows(q: Path, p: Path, f: Path)
    requires q != []
  {
    q != p && Listed(q) == EscapeAll(f)
  }

  /** The walk registers file j: no registered file before it shadows its own name. */
  ghost predicate Added(files: seq<Path>, j: nat)
    requires NonEmptyPaths(files) && j < |files|
    decreases j
  {
    forall k :: 0 <= k < j && Shadows(files[k], files[j], Listed(files[j])) ==> !Added(files, k)
  }

  lemma {:induction false} AddedPrefix(files: seq<Path>, n: nat, j: nat)
    requires NonEmptyPaths(files) && j < n <= |files|
    ensures NonEmptyPaths(files[..n]) && Added(files[..n], j) == Added(files, j)
    decreases j
  {
    hide Shadows;
    assert files[..n][j] == files[j];
    forall k | 0 <= k < j ensures Added(files[..n], k) == Added(files, k) && files[..n][k] == files[k] {
      AddedPrefix(files, n, k);
    }
  }

  /** The only way to another file's escaped name is to spell it unescaped. */
  lemma KeyIsShadow(files: seq<Path>, i: nat, j: nat, f: Path)
    requires FileTree(files) && NonEmptyPaths(files) && i < |files| && j < |files| && i != j && f in Forms(files[i])
    ensures EscapeAll(f) in Keys(files[j]) <==> Shadows(files[j], files[i], f)
  {
    hide EscapeAll, Forms, CleanPath, Listed;
    var p, q := files[i], files[j];
    FilesDiffer(files, i, j);
    FormsDisjoint(p, q, f);
    FormsSlashless(p, f);
    forall g | g in Forms(q) ensures EscapeAll(g) != EscapeAll(f) {
      FormsSlashless(q, g);
      if EscapeAll(g) == EscapeAll(f) {
        EscapeAllInjective(g, f);
      }
    }
  }

  ghost predicate Holds(files: seq<Path>, j: nat, k: Path)
    requires NonEmptyPaths(files) && j < |files|
  {
    Added(files, j) && k in Keys(files[j])
  }

  ghost predicate HoldsLast(files: seq<Path>, i: nat, k: Path)
    requires NonEmptyPaths(files) && i < |files|
  {
    Holds(files, i, k) && forall j :: i < j < |files| ==> !Holds(files, j, k)
  }

  lemma HoldsPrefix(files: seq<Path>, n: nat, j: nat, k: Path)
    requires NonEmptyPaths(files) && j < n <= |files|
    ensures NonEmptyPaths(files[..n]) && Holds(files[..n], j, k) == Holds(files, j, k)
  {
    AddedPrefix(files, n, j);
    assert files[..n][j] == files[j];
  }

  /** The last registered file with a key, if there is one. */
  lemma {:induction false} LastHolder(files: seq<Path>, n: nat, k: Path) returns (i: int)
    requires NonEmptyPaths(files) && n <= |files|
    ensures -1 <= i < n && (i >= 0 ==> Holds(files, i, k))
    ensures forall j :: i < j < n ==> !Holds(files, j, k)
  {
    hide Holds;
    if n == 0 {
      i := -1;
    } else if Holds(files, n - 1, k) {
      i := n - 1;
    } else {
      i := LastHolder(files, n - 1, k);
    }
  }

  /** What the scan has put under a name: nothing, or the last registered file with that key. */
  ghost predicate Answers(files: seq<Path>, k: Path)
    requires NonEmptyPaths(files)
  {
    && (Name(k) in Mapping(files) <==> exists j :: 0 <= j < |files| && Holds(files, j, k))
    && (forall i :: 0 <= i < |files| && HoldsLast(files, i, k) ==>
        Name(k) in Mapping(files) && Mapping(files)[Name(k)] == files[i])
  }

  lemma {:induction false} MappingAnswers(files: seq<Path>, k: Path)
    requires FileTree(files) && NonEmptyPaths(files) && Slashless(k)
    ensures Answers(files, k)
    decreases |files|, 0
  {
    hide AddUrl, Name, UrlFromLocalPath, Keys, CleanPath, Slashless, Added, FileTree, Holds, HoldsLast;
    if files != [] {
      var n := |files| - 1;
      TreePrefix(files, n);
      TreeClean(files, n);
      MappingAnswers(files[..n], k);
      AddedIffUnknown(files, n);
      AddUrlEffect(Mapping(files[..n]), files[n], k);
      OneMore(files, k);
    }
  }

  /** The holders of a key with one more file. */
  lemma OneMore(files: seq<Path>, k: Path)
    requires NonEmptyPaths(files) && files != []
    ensures var n := |files| - 1;
      && NonEmptyPaths(files[..n])
      && (Holds(files, n, k) <==> Added(files, n) && k in Keys(files[n]))
      && (forall j :: 0 <= j < n ==> Holds(files[..n], j, k) == Holds(files, j, k) && files[..n][j] == files[j])
      && (forall i :: 0 <= i < n ==> HoldsLast(files, i, k) == (HoldsLast(files[..n], i, k) && !Holds(files, n, k)))
      && HoldsLast(files, n, k) == Holds(files, n, k)
  {
    hide Added, Keys;
    var n := |files| - 1;
    forall j | 0 <= j < n ensures Holds(files[..n], j, k) == Holds(files, j, k) && files[..n][j] == files[j] {
      HoldsPrefix(files, n, j, k);
    }
  }

  /** A file is registered exactly when its read-back URL is new. */
  lemma AddedIffUnknown(files: seq<Path>, n: nat)
    requires FileTree(files) && NonEmptyPaths(files) && n < |files|
    ensures NonEmptyPaths(files[..n]) && (Added(files, n) <==> UrlFromLocalPath(files[n]) !in Mapping(files[..n]))
    decreases n, 1
  {
    hide Mapping, Name, UrlFromLocalPath, Keys, CleanPath, Slashless, Forms;
    var p := files[n];
    var f := Listed(p);
    var k := EscapeAll(f);
    TreePrefix(files, n);
    TreeClean(files, n);
    ReadBack(p);
    ListedIsKey(p);
    KeysSlashless(p, k);
    MappingAnswers(files[..n], k);
    assert f in Forms(p) by { ListedIsForm(p); }
    forall j | 0 <= j < n
      ensures Holds(files[..n], j, k) <==> Added(files, j) && Shadows(files[j], p, f)
    {
      HoldsPrefix(files, n, j, k);
      KeyIsShadow(files, n, j, f);
    }
  }

  lemma ListedIsForm(p: Path)
    requires p != []
    ensures Listed(p) in Forms(p)
  {
  }

  /** For every tree, walk order, file and name: the name is mapped to the file exactly when the file is the last
      registered one with that key. */
  lemma MappedIff(files: seq<Path>, i: nat, k: Path)
    requires FileTree(files) && NonEmptyPaths(files) && i < |files| && Slashless(k)
    ensures Name(k) in Mapping(files) && Mapping(files)[Name(k)] == files[i] <==> HoldsLast(files, i, k)
  {
    hide Holds, Mapping, CleanPath, Slashless;
    MappingAnswers(files, k);
    var m := LastHolder(files, |files|, k);
    if m >= 0 && m != i {
      FilesDiffer(files, m, i);
    }
  }

  /** A name is mapped only to a file of the tree. */
  lemma MappedToFile(files: seq<Path>, k: Path)
    requires FileTree(files) && NonEmptyPaths(files) && Slashless(k)
    ensures Name(k) in Mapping(files) ==> Mapping(files)[Name(k)] in files
  {
    hide Holds, Mapping, FileTree, Slashless;
    MappingAnswers(files, k);
    var m := LastHolder(files, |files|, k);
    assert m >= 0 ==> HoldsLast(files, m, k);
  }

  /** A file is known under its read-back URL exactly when no registered file shadows it, before or after it. */
  lemma OwnUrlIff(files: seq<Path>, i: nat)
    requires FileTree(files) && NonEmptyPaths(files) && i < |files|
    ensures UrlFromLocalPath(files[i]) in Mapping(files) && Mapping(files)[UrlFromLocalPath(files[i])] == files[i] <==>
      forall j :: 0 <= j < |files| && Shadows(files[j], files[i], Listed(files[i])) ==> !Added(files, j)
  {
    hide Mapping, Name, UrlFromLocalPath, CleanPath, Slashless, EscapeAll, Listed, Keys;
    var p := files[i];
    TreeClean(files, i);
    ReadBack(p);
    ListedIsForm(p);
    EscapedKnownIff(files, i, Listed(p));
  }

  /** Under the escaped name of any of its forms a file is known exactly when it is registered and no file that shadows
      the form is registered after it. */
  lemma EscapedKnownIff(files: seq<Path>, i: nat, f: Path)
    requires FileTree(files) && NonEmptyPaths(files) && i < |files| && f in Forms(files[i])
    ensures Name(EscapeAll(f)) in Mapping(files) && Mapping(files)[Name(EscapeAll(f))] == files[i] <==>
      Added(files, i) && forall j :: i < j < |files| && Shadows(files[j], files[i], f) ==> !Added(files, j)
  {
    hide Mapping, Name, CleanPath, Slashless, EscapeAll, Listed, Forms, Added, Shadows, FileTree;
    TreeClean(files, i);
    FormsSlashless(files[i], f);
    MappedIff(files, i, EscapeAll(f));
    assert EscapeAll(f) in Keys(files[i]);
    forall j | i < j < |files|
      ensures Holds(files, j, EscapeAll(f)) <==> Added(files, j) && Shadows(files[j], files[i], f)
    {
      KeyIsShadow(files, i, j, f);
    }
  }

  /** Unescaped, a form names its file exactly when the file is registered, the form is the file's own or has nothing
      to escape, and no file registered later has it for an escaped name. */
  lemma RawKnownIff(files: seq<Path>, i: nat, f: Path)
    requires FileTree(files) && NonEmptyPaths(files) && i < |files| && f in Forms(files[i])
    ensures Name(f) in Mapping(files) && Mapping(files)[Name(f)] == files[i] <==>
      && Added(files, i) && (f == Listed(files[i]) || EscapeAll(f) == f)
      && forall j :: i < j < |files| && Added(files, j) ==> forall g :: g in Forms(files[j]) ==> EscapeAll(g) != f
  {
    hide Mapping, Name, CleanPath, Slashless, EscapeAll, Added, FileTree, Listed, Forms;
    TreeClean(files, i);
    FormsSlashless(files[i], f);
    MappedIff(files, i, f);
    OwnKeyIff(files[i], f);
    forall j | i < j < |files|
      ensures Holds(files, j, f) <==> Added(files, j) && exists g :: g in Forms(files[j]) && EscapeAll(g) == f
    {
      FilesDiffer(files, i, j);
      FormsDisjoint(files[i], files[j], f);
      ListedIsForm(files[j]);
    }
  }

  lemma OwnKeyIff(p: Path, f: Path)
    requires CleanPath(p) && f in Forms(p)
    ensures f in Keys(p) <==> f == Listed(p) || EscapeAll(f) == f
  {
    hide HostName, FileSegment, Escape;
    EscapeSegment("");
    EscapeSegment(INDEX);
    forall g | g in Forms(p) && EscapeAll(g) == f ensures g == f {
      assert |g| == |f| && f[|f| - 1] == Escape(g[|g| - 1]);
    }
  }

  predicate NoPercent(segs: seq<string>) {
    forall i :: 0 <= i < |segs| ==> '%' !in segs[i]
  }

  /** Only a file with a "%" in its name can shadow another. */
  lemma PercentShadows(q: Path, p: Path, f: Path)
    requires CleanPath(p) && CleanPath(q) && !(p <= q) && !(q <= p) && NoPercent(q) && f in Forms(p)
    ensures !Shadows(q, p, f)
  {
    assert NoPercent(Listed(q)) && Listed(q) in Forms(q);
    FormsDisjoint(p, q, f);
    if Listed(q) == EscapeAll(f) {
      Unchanged(f);
    }
  }

  /** Escaping that leaves no "%" changed nothing. */
  lemma Unchanged(f: Path)
    requires NoPercent(EscapeAll(f))
    ensures EscapeAll(f) == f
  {
    forall i | 0 <= i < |f| ensures EscapeAll(f)[i] == f[i] {
      EscapeSegment(f[i]);
      assert '%' !in EscapeAll(f)[i];
    }
  }

  ghost predicate NoPercents(files: seq<Path>) {
    forall i :: 0 <= i < |files| ==> NoPercent(files[i])
  }

  /** In a tree without "%" every file is registered and none is shadowed. */
  lemma AllAdded(files: seq<Path>, i: nat, f: Path)
    requires FileTree(files) && NonEmptyPaths(files) && NoPercents(files) && i < |files| && f in Forms(files[i])
    ensures Added(files, i) && forall j :: 0 <= j < |files| ==> !Shadows(files[j], files[i], f)
  {
    hide Shadows, CleanPath, Forms, NoPercent;
    ListedIsForm(files[i]);
    forall j | 0 <= j < |files|
      ensures !Shadows(files[j], files[i], f) && !Shadows(files[j], files[i], Listed(files[i]))
    {
      if j == i {
        NotItself(files[i], f);
        NotItself(files[i], Listed(files[i]));
      } else {
        FilesDiffer(files, i, j);
        PercentShadows(files[j], files[i], f);
        PercentShadows(files[j], files[i], Listed(files[i]));
      }
    }
  }

  lemma NotItself(p: Path, f: Path)
    requires p != []
    ensures !Shadows(p, p, f)
  {
  }
}
