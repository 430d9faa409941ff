/**
 * Exact tree capture, verification and restore (internal/backup/backup.go).
 *
 * Archive-relative paths are lists of components.  Any system call may fail at
 * any time, and the archive may hold anything when a restore reads it.
 */
module BackupTree {
  import opened Common
  import opened PathText

  type Path = seq<string>

  // Special stands for a symlink or any other non-regular entry.
  datatype Node = Dir(mode: nat) | File(mode: nat, content: string) | Special

  type Tree = map<Path, Node>

  // SHA-256 as an injective function.
  datatype Digest = NoDigest | Sha(content: string)

  datatype Artifact = Artifact(path: Path, directory: bool, size: nat, digest: Digest, mode: nat)
  datatype TreeManifest = TreeManifest(name: string, files: seq<Artifact>)
  datatype Manifest = Manifest(database: Artifact, key: Artifact, descriptors: TreeManifest, trash: seq<TreeManifest>)

  const MANIFEST: Path := ["manifest.json"]
  const DATABASE: Path := ["database.sqlite"]
  const KEY_FILE: Path := ["keys", "credentials.key"]
  const KEYS := "keys"
  const DESCRIPTORS := "descriptors"
  const TRASH := "trash"
  const PRIVATE := 448          // 0o700

  // --------------------------------------------------------------- manifest

  predicate ValidPath(p: Path) { p != [] && AllPlain(p) }

  // validateArtifact
  predicate ValidArtifact(a: Artifact) {
    ValidPath(a.path) && if a.directory then a.size == 0 && a.digest == NoDigest else a.digest.Sha?
  }

  predicate DistinctPaths(files: seq<Artifact>) {
    forall i, j :: 0 <= i < j < |files| ==> files[i].path != files[j].path
  }

  // validateTreeManifest
  predicate ValidTree(t: TreeManifest) {
    Plain(t.name) && DistinctPaths(t.files) && forall i :: 0 <= i < |t.files| ==> ValidArtifact(t.files[i])
  }

  // validateManifest, without the format, schema and size ceilings
  predicate ValidManifest(m: Manifest) {
    && m.trash != []
    && ValidArtifact(m.database) && m.database.path == DATABASE && !m.database.directory && m.database.mode == 384
    && ValidArtifact(m.key) && m.key.path == KEY_FILE && !m.key.directory && m.key.mode % 64 == 0
    && m.descriptors.name == DESCRIPTORS && ValidTree(m.descriptors)
    && (forall t :: 0 <= t < |m.trash| ==> ValidTree(m.trash[t]) && m.trash[t].name != DESCRIPTORS)
    && (forall t, u :: 0 <= t < u < |m.trash| ==> m.trash[t].name != m.trash[u].name)
  }

  // ----------------------------------------------------------- what it lists

  datatype Spec = DirSpec(mode: nat) | FileSpec(size: nat, digest: Digest, mode: nat)

  function SpecOf(a: Artifact): Spec {
    if a.directory then DirSpec(a.mode) else FileSpec(a.size, a.digest, a.mode)
  }

  predicate Conforms(n: Node, s: Spec) {
    match n
    case Dir(mode) => s == DirSpec(mode)
    case File(mode, content) => s == FileSpec(|content|, Sha(content), mode)
    case Special => false
  }

  function Find(files: seq<Artifact>, p: Path): Option<Spec> {
    if files == [] then None
    else if files[0].path == p then Some(SpecOf(files[0]))
    else Find(files[1..], p)
  }

  function FindTree(trees: seq<TreeManifest>, name: string): Option<seq<Artifact>> {
    if trees == [] then None
    else if trees[0].name == name then Some(trees[0].files)
    else FindTree(trees[1..], name)
  }

  // What the archive must hold at one path.
  function ExpectedAt(m: Manifest, p: Path): Option<Spec> {
    if p == [KEYS] || p == [DESCRIPTORS] || p == [TRASH] then Some(DirSpec(PRIVATE))
    else if p == m.database.path then Some(SpecOf(m.database))
    else if p == m.key.path then Some(SpecOf(m.key))
    else if |p| > 1 && p[0] == DESCRIPTORS then Find(m.descriptors.files, p[1..])
    else if |p| > 1 && p[0] == TRASH then
      match FindTree(m.trash, p[1])
      case None => None
      case Some(files) => if |p| == 2 then Some(DirSpec(PRIVATE)) else Find(files, p[2..])
    else None
  }

  ghost predicate Matches(t: Tree, m: Manifest) {
    && (forall p: Path :: p != MANIFEST ==> (p in t <==> ExpectedAt(m, p).Some?))
    && (forall p: Path :: p in t && p != MANIFEST ==> Conforms(t[p], ExpectedAt(m, p).value))
  }

  // Every entry below the root lies in a directory of the tree.
  predicate ParentOk(t: Tree, p: Path) {
    p != [] && (|p| > 1 ==> p[..|p| - 1] in t && t[p[..|p| - 1]].Dir?)
  }

  predicate WellFormed(t: Tree) {
    forall p {:trigger ParentOk(t, p)} :: p in t ==> ParentOk(t, p)
  }

  // Main result on content: two trees that match one manifest and carry the same
  // manifest file are the same tree.
  lemma MatchingTreesAreEqual(a: Tree, b: Tree, m: Manifest)
    requires Matches(a, m) && Matches(b, m)
    requires MANIFEST in a && MANIFEST in b && a[MANIFEST] == b[MANIFEST]
    ensures a == b
  {
    forall p | p in a.Keys + b.Keys ensures p in a && p in b && a[p] == b[p] {
      if p != MANIFEST {
        assert p in a <==> ExpectedAt(m, p).Some?;
        assert p in b <==> ExpectedAt(m, p).Some?;
        ConformingNodesAreEqual(a[p], b[p], ExpectedAt(m, p).value);
      }
    }
    assert a.Keys == b.Keys;
  }

  lemma ConformingNodesAreEqual(a: Node, b: Node, s: Spec)
    requires Conforms(a, s) && Conforms(b, s)
    ensures a == b
  {
  }

  // ------------------------------------------------- flattened manifest lists

  datatype Item = Item(path: Path, spec: Spec)

  function Prefixed(prefix: Path, files: seq<Artifact>): seq<Item> {
    seq(|files|, i requires 0 <= i < |files| => Item(prefix + files[i].path, SpecOf(files[i])))
  }

  function TrashRoots(trees: seq<TreeManifest>): seq<Item> {
    seq(|trees|, i requires 0 <= i < |trees| => Item([TRASH, trees[i].name], DirSpec(PRIVATE)))
  }

  function TrashItems(trees: seq<TreeManifest>): seq<Item> {
    if trees == [] then [] else Prefixed([TRASH, trees[0].name], trees[0].files) + TrashItems(trees[1..])
  }

  const FIXED: seq<Item> :=
    [Item([KEYS], DirSpec(PRIVATE)), Item([DESCRIPTORS], DirSpec(PRIVATE)), Item([TRASH], DirSpec(PRIVATE))]

  function CoreFiles(m: Manifest): seq<Item> {
    [Item(m.database.path, SpecOf(m.database)), Item(m.key.path, SpecOf(m.key))]
  }

  function TreeItems(m: Manifest): seq<Item> {
    Prefixed([DESCRIPTORS], m.descriptors.files) + TrashItems(m.trash)
  }

  function Items(m: Manifest): seq<Item> {
    FIXED + TrashRoots(m.trash) + CoreFiles(m) + TreeItems(m)
  }

  lemma {:induction false} FindIsUnique(files: seq<Artifact>, i: nat)
    requires DistinctPaths(files) && i < |files|
    ensures Find(files, files[i].path) == Some(SpecOf(files[i]))
  {
    if i > 0 {
      FindIsUnique(files[1..], i - 1);
    }
  }

  lemma {:induction false} FindFinds(files: seq<Artifact>, p: Path) returns (i: nat)
    requires Find(files, p).Some?
    ensures i < |files| && files[i].path == p && SpecOf(files[i]) == Find(files, p).value
  {
    if files[0].path == p {
      i := 0;
    } else {
      var k := FindFinds(files[1..], p);
      i := k + 1;
    }
  }

  lemma {:induction false} FindTreeIsUnique(trees: seq<TreeManifest>, t: nat)
    requires t < |trees| && forall a, b :: 0 <= a < b < |trees| ==> trees[a].name != trees[b].name
    ensures FindTree(trees, trees[t].name) == Some(trees[t].files)
  {
    if t > 0 {
      FindTreeIsUnique(trees[1..], t - 1);
    }
  }

  lemma {:induction false} FindTreeFinds(trees: seq<TreeManifest>, name: string) returns (t: nat)
    requires FindTree(trees, name).Some?
    ensures t < |trees| && trees[t].name == name && trees[t].files == FindTree(trees, name).value
  {
    if trees[0].name == name {
      t := 0;
    } else {
      var k := FindTreeFinds(trees[1..], name);
      t := k + 1;
    }
  }

  // Membership in the flattened trash list.
  lemma {:induction false} TrashItemAt(trees: seq<TreeManifest>, t: nat, i: nat)
    requires t < |trees| && i < |trees[t].files|
    ensures Item([TRASH, trees[t].name] + trees[t].files[i].path, SpecOf(trees[t].files[i])) in TrashItems(trees)
  {
    if t == 0 {
      assert Prefixed([TRASH, trees[0].name], trees[0].files)[i] in TrashItems(trees);
    } else {
      TrashItemAt(trees[1..], t - 1, i);
    }
  }

  lemma {:induction false} TrashItemFrom(trees: seq<TreeManifest>, item: Item) returns (t: nat, i: nat)
    requires item in TrashItems(trees)
    ensures t < |trees| && i < |trees[t].files|
    ensures item == Item([TRASH, trees[t].name] + trees[t].files[i].path, SpecOf(trees[t].files[i]))
  {
    var first := Prefixed([TRASH, trees[0].name], trees[0].files);
    if item in first {
      t := 0;
      i :| 0 <= i < |first| && first[i] == item;
    } else {
      var u;
      u, i := TrashItemFrom(trees[1..], item);
      t := u + 1;
    }
  }

  // The flattened list and the path-indexed view describe the same archive.
  lemma ItemIsExpected(m: Manifest, item: Item)
    requires ValidManifest(m) && item in Items(m)
    ensures ExpectedAt(m, item.path) == Some(item.spec)
    ensures item.path != [] && item.path != MANIFEST
  {
    if item in FIXED || item in CoreFiles(m) {
    } else if item in TrashRoots(m.trash) {
      var t :| 0 <= t < |m.trash| && TrashRoots(m.trash)[t] == item;
      FindTreeIsUnique(m.trash, t);
    } else if item in Prefixed([DESCRIPTORS], m.descriptors.files) {
      DescriptorItemExpected(m, item);
    } else {
      TrashItemExpected(m, item);
    }
  }

  lemma DescriptorItemExpected(m: Manifest, item: Item)
    requires ValidManifest(m) && item in Prefixed([DESCRIPTORS], m.descriptors.files)
    ensures ExpectedAt(m, item.path) == Some(item.spec) && |item.path| > 1
  {
    var files := m.descriptors.files;
    var i :| 0 <= i < |files| && Prefixed([DESCRIPTORS], files)[i] == item;
    assert ValidArtifact(files[i]);
    assert item.path[0] == DESCRIPTORS && item.path[1..] == files[i].path;
    FindIsUnique(files, i);
  }

  lemma TrashItemExpected(m: Manifest, item: Item)
    requires ValidManifest(m) && item in TrashItems(m.trash)
    ensures ExpectedAt(m, item.path) == Some(item.spec) && |item.path| > 1
  {
    var t, i := TrashItemFrom(m.trash, item);
    var files := m.trash[t].files;
    assert ValidTree(m.trash[t]) && ValidArtifact(files[i]);
    assert item.path[0] == TRASH && item.path[1] == m.trash[t].name && item.path[2..] == files[i].path;
    FindTreeIsUnique(m.trash, t);
    FindIsUnique(files, i);
  }

  lemma ExpectedIsItem(m: Manifest, p: Path)
    requires ValidManifest(m) && ExpectedAt(m, p).Some?
    ensures Item(p, ExpectedAt(m, p).value) in Items(m)
  {
    if p in {[KEYS], [DESCRIPTORS], [TRASH]} {
      assert FIXED[0].path == [KEYS] && FIXED[1].path == [DESCRIPTORS] && FIXED[2].path == [TRASH];
    } else if p == m.database.path || p == m.key.path {
      assert CoreFiles(m)[0].path == m.database.path && CoreFiles(m)[1].path == m.key.path;
    } else if p[0] == DESCRIPTORS {
      var i := FindFinds(m.descriptors.files, p[1..]);
      assert p == [DESCRIPTORS] + m.descriptors.files[i].path;
      assert Prefixed([DESCRIPTORS], m.descriptors.files)[i].path == p;
    } else {
      var t := FindTreeFinds(m.trash, p[1]);
      if |p| == 2 {
        assert p == [TRASH, m.trash[t].name];
        assert TrashRoots(m.trash)[t].path == p;
      } else {
        var i := FindFinds(m.trash[t].files, p[2..]);
        assert p == [TRASH, m.trash[t].name] + m.trash[t].files[i].path;
        TrashItemAt(m.trash, t, i);
      }
    }
  }
}
