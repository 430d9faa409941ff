/**
 * The imperative tree walks of a backup: verification against the manifest,
 * restore into a staging directory, and capture of one tree
 * (internal/backup/backup.go).
 *
 * Which system calls work and what the archive holds while it is read come from
 * outside; when all calls work and the archive stays as it is, the walks succeed.
 */
module BackupCopy {
  import opened Common
  import opened PathText
  import opened BackupTree

  // filepath.WalkDir visits every entry, a directory before its children.
  predicate Walks(walk: seq<Path>, t: Tree) {
    && (forall i :: 0 <= i < |walk| ==> walk[i] in t)
    && (forall p :: p in t ==> p in walk)
    && (forall i, j :: 0 <= i < j < |walk| ==> walk[i] != walk[j] && !(walk[j] <= walk[i]))
  }

  // ------------------------------------------------------------ verification

  method ExpectedMaps(m: Manifest) returns (files: map<Path, Spec>, directories: map<Path, Spec>)
    requires ValidManifest(m)
    ensures forall p: Path :: p in files <==> ExpectedAt(m, p).Some? && ExpectedAt(m, p).value.FileSpec?
    ensures forall p: Path :: p in directories <==> ExpectedAt(m, p).Some? && ExpectedAt(m, p).value.DirSpec?
    ensures forall p: Path :: p in files ==> files[p] == ExpectedAt(m, p).value
    ensures forall p: Path :: p in directories ==> directories[p] == ExpectedAt(m, p).value
  {
    hide ValidManifest, ExpectedAt, Items;
    var items := Items(m);
    files, directories := map[], map[];
    for i := 0 to |items|
      invariant forall p: Path :: p in files ==>
                  ExpectedAt(m, p) == Some(files[p]) && files[p].FileSpec?
      invariant forall p: Path :: p in directories ==>
                  ExpectedAt(m, p) == Some(directories[p]) && directories[p].DirSpec?
      invariant forall j :: 0 <= j < i ==>
                  if items[j].spec.FileSpec? then items[j].path in files else items[j].path in directories
    {
      ItemIsExpected(m, items[i]);
      if items[i].spec.FileSpec? {
        files := files[items[i].path := items[i].spec];
      } else {
        directories := directories[items[i].path := items[i].spec];
      }
    }
    forall p: Path | ExpectedAt(m, p).Some?
      ensures if ExpectedAt(m, p).value.FileSpec? then p in files else p in directories
    {
      ExpectedIsItem(m, p);
      var j :| 0 <= j < |items| && items[j] == Item(p, ExpectedAt(m, p).value);
    }
  }

  // verifyTreeContentsContext
  method VerifyTreeContents(t: Tree, walk: seq<Path>, m: Manifest) returns (ok: bool)
    requires ValidManifest(m) && Walks(walk, t)
    requires MANIFEST in t && t[MANIFEST].File?
    ensures ok <==> Matches(t, m)
  {
    hide ValidManifest, ExpectedAt;
    var files, directories := ExpectedMaps(m);
    var seen := {};
    for i := 0 to |walk|
      invariant forall j :: 0 <= j < i && walk[j] != MANIFEST ==>
                  ExpectedAt(m, walk[j]).Some? && Conforms(t[walk[j]], ExpectedAt(m, walk[j]).value) && walk[j] in seen
      invariant forall p :: p in seen ==> p in t && p != MANIFEST
    {
      var p := walk[i];
      match t[p]
      case Special =>
        if p != MANIFEST {
          assert !Matches(t, m) by { NonconformingPath(t, m, p); }
          return false;
        }
      case Dir(mode) =>
        if p !in directories || directories[p] != DirSpec(mode) {
          assert !Matches(t, m) by { NonconformingPath(t, m, p); }
          return false;
        }
        seen := seen + {p};
      case File(mode, content) =>
        if p != MANIFEST {
          if p !in files || files[p] != FileSpec(|content|, Sha(content), mode) {
            assert !Matches(t, m) by { NonconformingPath(t, m, p); }
            return false;
          }
          seen := seen + {p};
        }
    }
    ok := files.Keys + directories.Keys <= seen;
    if ok {
      forall p: Path | p in t && p != MANIFEST
        ensures ExpectedAt(m, p).Some? && Conforms(t[p], ExpectedAt(m, p).value)
      {
        var j :| 0 <= j < |walk| && walk[j] == p;
      }
    } else {
      var p :| p in files.Keys + directories.Keys && p !in seen;
      MissingPath(t, walk, m, seen, p);
    }
  }

  lemma NonconformingPath(t: Tree, m: Manifest, p: Path)
    requires p in t && p != MANIFEST
    requires ExpectedAt(m, p).None? || !Conforms(t[p], ExpectedAt(m, p).value)
    ensures !Matches(t, m)
  {
  }

  lemma MissingPath(t: Tree, walk: seq<Path>, m: Manifest, seen: set<Path>, p: Path)
    requires ValidManifest(m) && Walks(walk, t) && ExpectedAt(m, p).Some? && p !in seen
    requires forall j :: 0 <= j < |walk| && walk[j] != MANIFEST ==> walk[j] in seen
    ensures !Matches(t, m)
  {
    ExpectedIsItem(m, p);
    ItemIsExpected(m, Item(p, ExpectedAt(m, p).value));
    assert p in t ==> p in walk;
    assert p !in t;
  }

  // An archive that verifies lists every parent directory.
  predicate ParentListed(m: Manifest, p: Path) {
    |p| > 1 && ExpectedAt(m, p).Some? ==>
      ExpectedAt(m, p[..|p| - 1]).Some? && ExpectedAt(m, p[..|p| - 1]).value.DirSpec?
  }

  ghost predicate ParentClosed(m: Manifest) { forall p: Path :: ParentListed(m, p) }

  lemma VerifiedIsParentClosed(t: Tree, m: Manifest)
    requires WellFormed(t) && Matches(t, m) && MANIFEST in t && t[MANIFEST].File?
    ensures ParentClosed(m)
  {
    forall p: Path ensures ParentListed(m, p) {
      if |p| > 1 && ExpectedAt(m, p).Some? {
        var q := p[..|p| - 1];
        assert p in t && ParentOk(t, p);
        assert q in t && t[q].Dir?;
        assert q != MANIFEST;
        assert Conforms(t[q], ExpectedAt(m, q).value);
      }
    }
  }

  // ------------------------------------------------------- directory ordering

  predicate DistinctItems(items: seq<Item>) {
    forall i, j :: 0 <= i < j < |items| ==> items[i].path != items[j].path
  }

  predicate ByDepth(items: seq<Item>) {
    forall i, j :: 0 <= i < j < |items| ==> |items[i].path| <= |items[j].path|
  }

  function Directories(items: seq<Item>): (r: seq<Item>)
    ensures forall x :: x in r <==> x in items && x.spec.DirSpec?
  {
    if items == [] then []
    else (if items[0].spec.DirSpec? then [items[0]] else []) + Directories(items[1..])
  }

  function InsertByDepth(x: Item, s: seq<Item>): (r: seq<Item>)
    ensures forall y :: y in r <==> y == x || y in s
  {
    if s == [] then [x]
    else if |x.path| <= |s[0].path| then [x] + s
    else [s[0]] + InsertByDepth(x, s[1..])
  }

  function SortByDepth(s: seq<Item>): (r: seq<Item>)
    ensures forall y :: y in r <==> y in s
  {
    if s == [] then [] else InsertByDepth(s[0], SortByDepth(s[1..]))
  }

  predicate Leads(x: Item, s: seq<Item>) {
    forall y :: y in s ==> |x.path| <= |y.path| && x.path != y.path
  }

  lemma ConsOrder(x: Item, s: seq<Item>)
    requires ByDepth(s) && DistinctItems(s) && Leads(x, s)
    ensures ByDepth([x] + s) && DistinctItems([x] + s)
  {
    forall j | 0 <= j < |s| ensures |x.path| <= |s[j].path| && x.path != s[j].path {
      assert s[j] in s;
    }
  }

  lemma HeadLeads(s: seq<Item>)
    requires s != [] && ByDepth(s) && DistinctItems(s)
    ensures Leads(s[0], s[1..]) && ByDepth(s[1..]) && DistinctItems(s[1..])
  {
  }

  lemma {:induction false} InsertKeepsOrder(x: Item, s: seq<Item>)
    requires ByDepth(s) && DistinctItems(s) && forall y :: y in s ==> y.path != x.path
    ensures ByDepth(InsertByDepth(x, s)) && DistinctItems(InsertByDepth(x, s))
  {
    hide ByDepth, DistinctItems;
    if s == [] {
      ConsOrderEmpty(x);
    } else {
      HeadLeads(s);
      if |x.path| <= |s[0].path| {
        assert s == [s[0]] + s[1..];
        ConsOrder(x, s);
      } else {
        InsertKeepsOrder(x, s[1..]);
        ConsOrder(s[0], InsertByDepth(x, s[1..]));
      }
    }
  }

  lemma ConsOrderEmpty(x: Item)
    ensures ByDepth([x]) && DistinctItems([x])
  {
  }

  lemma {:induction false} SortOrders(s: seq<Item>)
    requires DistinctItems(s)
    ensures ByDepth(SortByDepth(s)) && DistinctItems(SortByDepth(s))
  {
    if s != [] {
      SortOrders(s[1..]);
      forall y | y in SortByDepth(s[1..]) ensures y.path != s[0].path {
        assert y in s[1..];
      }
      InsertKeepsOrder(s[0], SortByDepth(s[1..]));
    }
  }

  lemma {:induction false} DirectoriesDistinct(items: seq<Item>)
    requires DistinctItems(items)
    ensures DistinctItems(Directories(items))
  {
    if items != [] {
      DirectoriesDistinct(items[1..]);
      var rest := Directories(items[1..]);
      forall j | 0 <= j < |rest| ensures rest[j].path != items[0].path {
        assert rest[j] in rest && rest[j] in items[1..];
      }
    }
  }

  lemma PrefixedDistinct(prefix: Path, files: seq<Artifact>)
    requires DistinctPaths(files)
    ensures DistinctItems(Prefixed(prefix, files))
  {
    forall i, j | 0 <= i < j < |files| ensures prefix + files[i].path != prefix + files[j].path {
      assert (prefix + files[i].path)[|prefix|..] == files[i].path;
      assert (prefix + files[j].path)[|prefix|..] == files[j].path;
    }
  }

  lemma ConcatDistinct(a: seq<Item>, b: seq<Item>)
    requires DistinctItems(a) && DistinctItems(b)
    requires forall x, y :: x in a && y in b ==> x.path != y.path
    ensures DistinctItems(a + b)
  {
    var s := a + b;
    forall i, j | 0 <= i < j < |s| ensures s[i].path != s[j].path {
      if i < |a| <= j {
        assert s[i] in a && s[j] in b;
      }
    }
  }

  lemma {:induction false} TrashDistinct(trees: seq<TreeManifest>)
    requires forall t :: 0 <= t < |trees| ==> ValidTree(trees[t])
    requires forall t, u :: 0 <= t < u < |trees| ==> trees[t].name != trees[u].name
    ensures DistinctItems(TrashItems(trees))
  {
    if trees != [] {
      TrashDistinct(trees[1..]);
      var first := Prefixed([TRASH, trees[0].name], trees[0].files);
      PrefixedDistinct([TRASH, trees[0].name], trees[0].files);
      forall x, y | x in first && y in TrashItems(trees[1..]) ensures x.path != y.path {
        var t, i := TrashItemFrom(trees[1..], y);
        assert y.path[1] == trees[1..][t].name;
        assert x.path[1] == trees[0].name;
      }
      ConcatDistinct(first, TrashItems(trees[1..]));
    }
  }

  lemma TreeItemsDistinct(m: Manifest)
    requires ValidManifest(m)
    ensures DistinctItems(TreeItems(m))
  {
    PrefixedDistinct([DESCRIPTORS], m.descriptors.files);
    TrashDistinct(m.trash);
    var d := Prefixed([DESCRIPTORS], m.descriptors.files);
    forall x, y | x in d && y in TrashItems(m.trash) ensures x.path != y.path {
      var t, i := TrashItemFrom(m.trash, y);
      assert y.path[0] == TRASH && x.path[0] == DESCRIPTORS;
    }
    ConcatDistinct(d, TrashItems(m.trash));
  }
}
