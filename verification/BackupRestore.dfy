/**
 * copyManifestTreeSnapshotContext and makeRestoreDirectoriesContext: a verified
 * archive is rebuilt exactly, whatever the archive holds while it is read
 * (internal/backup/backup.go).
 */
module BackupRestore {
  import opened Common
  import opened PathText
  import opened BackupTree
  import opened BackupCopy

  function Parent(p: Path): Path
    requires p != []
  {
    p[..|p| - 1]
  }

  // The parent of p exists; the staging root itself always does.
  predicate ParentDir(t: Tree, p: Path) {
    p != [] && (|p| > 1 ==> Parent(p) in t && t[Parent(p)].Dir?)
  }

  // Everything present is listed, with the listed mode and content.
  ghost predicate Partial(t: Tree, m: Manifest) {
    forall p :: p in t && p != MANIFEST ==> ExpectedAt(m, p).Some? && Conforms(t[p], ExpectedAt(m, p).value)
  }

  predicate Present(t: Tree, items: seq<Item>, n: nat)
    requires n <= |items|
  {
    forall j :: 0 <= j < n ==> items[j].path in t
  }

  // ------------------------------------------------ the order of directories

  function DirectoryPlan(m: Manifest): seq<Item> {
    FIXED + TrashRoots(m.trash) + SortByDepth(Directories(TreeItems(m)))
  }

  // Every directory comes after its parent.
  predicate ParentsFirst(items: seq<Item>) {
    forall j :: 0 <= j < |items| && |items[j].path| > 1 ==>
      exists i :: 0 <= i < j && items[i].path == Parent(items[j].path)
  }

  lemma PlanMembers(m: Manifest, x: Item)
    requires ValidManifest(m)
    ensures x in DirectoryPlan(m) <==> x in Items(m) && x.spec.DirSpec?
  {
    assert x in FIXED ==> x.spec.DirSpec?;
    assert x in TrashRoots(m.trash) ==> x.spec.DirSpec?;
    assert x in CoreFiles(m) ==> x.spec.FileSpec?;
  }

  lemma FixedDistinct()
    ensures DistinctItems(FIXED) && forall x :: x in FIXED ==> |x.path| == 1
  {
    assert KEYS[0] == 'k' && DESCRIPTORS[0] == 'd' && TRASH[0] == 't';
    assert FIXED[0].path[0] == KEYS && FIXED[1].path[0] == DESCRIPTORS && FIXED[2].path[0] == TRASH;
  }

  lemma RootsDistinct(m: Manifest)
    requires ValidManifest(m)
    ensures DistinctItems(FIXED + TrashRoots(m.trash))
    ensures forall x :: x in TrashRoots(m.trash) ==> |x.path| == 2 && x.path[0] == TRASH
  {
    var roots := TrashRoots(m.trash);
    FixedDistinct();
    forall i, j | 0 <= i < j < |roots| ensures roots[i].path != roots[j].path {
      assert roots[i].path[1] == m.trash[i].name && roots[j].path[1] == m.trash[j].name;
    }
    ConcatDistinct(FIXED, roots);
  }

  lemma TreeItemShape(m: Manifest, x: Item)
    requires ValidManifest(m) && x in TreeItems(m)
    ensures (|x.path| >= 2 && x.path[0] == DESCRIPTORS) || |x.path| >= 3
  {
    if x in Prefixed([DESCRIPTORS], m.descriptors.files) {
      var i :| 0 <= i < |m.descriptors.files| && Prefixed([DESCRIPTORS], m.descriptors.files)[i] == x;
      assert ValidArtifact(m.descriptors.files[i]);
    } else {
      var t, i := TrashItemFrom(m.trash, x);
      assert ValidTree(m.trash[t]) && ValidArtifact(m.trash[t].files[i]);
    }
  }

  lemma PlanDistinct(m: Manifest)
    requires ValidManifest(m)
    ensures DistinctItems(DirectoryPlan(m))
  {
    hide ValidManifest, DistinctItems, TreeItems;
    RootsDistinct(m);
    FixedDistinct();
    TreeItemsDistinct(m);
    DirectoriesDistinct(TreeItems(m));
    SortOrders(Directories(TreeItems(m)));
    var front, dirs := FIXED + TrashRoots(m.trash), SortByDepth(Directories(TreeItems(m)));
    forall x, y | x in front && y in dirs ensures x.path != y.path {
      TreeItemShape(m, y);
      assert x in FIXED || x in TrashRoots(m.trash);
      assert TRASH[0] == 't' && DESCRIPTORS[0] == 'd';
    }
    ConcatDistinct(front, dirs);
  }

  lemma PlanParentsFirst(m: Manifest)
    requires ValidManifest(m) && ParentClosed(m)
    ensures ParentsFirst(DirectoryPlan(m))
  {
    var plan := DirectoryPlan(m);
    forall j | 0 <= j < |plan| && |plan[j].path| > 1
      ensures exists i :: 0 <= i < j && plan[i].path == Parent(plan[j].path)
    {
      var i := PlannedParent(m, j);
    }
  }

  lemma PlannedParent(m: Manifest, j: nat) returns (i: nat)
    requires ValidManifest(m) && ParentClosed(m)
    requires j < |DirectoryPlan(m)| && |DirectoryPlan(m)[j].path| > 1
    ensures i < j && DirectoryPlan(m)[i].path == Parent(DirectoryPlan(m)[j].path)
  {
    hide ValidManifest, ExpectedAt, TreeItems, Items;
    var plan := DirectoryPlan(m);
    var x := plan[j];
    PlanMembers(m, x);
    ItemIsExpected(m, x);
    assert ParentListed(m, x.path);
    var q := Parent(x.path);
    var parent := Item(q, ExpectedAt(m, q).value);
    ExpectedIsItem(m, q);
    PlanMembers(m, parent);
    i :| 0 <= i < |plan| && plan[i] == parent;
    if i >= j {
      PlanDepths(m);
    }
  }

  // The directories of the trees lie below the fixed ones and the trash roots.
  lemma TreeDirectories(m: Manifest)
    requires ValidManifest(m)
    ensures var dirs := SortByDepth(Directories(TreeItems(m)));
      ByDepth(dirs) && forall x :: x in dirs ==> |x.path| >= 2
  {
    hide ValidManifest, DistinctItems, TreeItems, ByDepth;
    var dirs := SortByDepth(Directories(TreeItems(m)));
    TreeItemsDistinct(m);
    DirectoriesDistinct(TreeItems(m));
    SortOrders(Directories(TreeItems(m)));
    forall x | x in dirs ensures |x.path| >= 2 {
      TreeItemShape(m, x);
    }
  }

  // The entries of front are no deeper than two and come by depth; those of
  // back are at least as deep and come by depth too.
  lemma ConcatByDepth(front: seq<Item>, back: seq<Item>)
    requires ByDepth(front) && ByDepth(back)
    requires forall x :: x in front ==> |x.path| <= 2
    requires forall x :: x in back ==> |x.path| >= 2
    ensures ByDepth(front + back)
  {
    var all := front + back;
    forall i, j | 0 <= i < j < |all| ensures |all[i].path| <= |all[j].path| {
      assert i < |front| ==> all[i] in front;
      assert j >= |front| ==> all[j] in back;
    }
  }

  // Depth never decreases along the plan.
  lemma PlanDepths(m: Manifest)
    requires ValidManifest(m)
    ensures ByDepth(DirectoryPlan(m))
  {
    var front, back := FIXED + TrashRoots(m.trash), SortByDepth(Directories(TreeItems(m)));
    hide TreeItems, SortByDepth, Directories, ValidManifest;
    TreeDirectories(m);
    assert forall i :: 0 <= i < |front| ==> |front[i].path| == if i < 3 then 1 else 2;
    ConcatByDepth(front, back);
  }

  // ----------------------------------------------------------------- staging

  // What is outside the program: which system calls work, and what the archive
  // holds at a path when the n-th call reads it.
  datatype Outside = Outside(works: nat -> bool, held: (nat, Path) -> Node)

  ghost predicate Worked(x: Outside, a: nat, b: nat) { forall k: nat :: a <= k < b ==> x.works(k) }

  // Every call worked and every listed file was read as listed.
  ghost predicate Faultless(x: Outside, m: Manifest, a: nat, b: nat) {
    Worked(x, a, b) && forall k: nat, item :: a <= k < b && item in Items(m) ==> ReadAs(x, k, item)
  }

  ghost predicate ReadAs(x: Outside, k: nat, item: Item) { item.spec.FileSpec? ==>
    Conforms(x.held(k, item.path), item.spec) }

  class Staging {
    const x: Outside
    var tree: Tree
    var calls: nat

    constructor (x: Outside)
      ensures this.x == x && tree == map[] && calls == 0
    {
      this.x, tree, calls := x, map[], 0;
    }

    method Call() returns (works: bool)
      modifies this`calls
      ensures calls == old(calls) + 1 && works == x.works(old(calls))
    {
      works := x.works(calls);
      calls := calls + 1;
    }

    method Mkdir(p: Path, mode: nat) returns (ok: bool)
      modifies this
      ensures calls == old(calls) + 1
      ensures ok ==> ParentDir(old(tree), p) && p !in old(tree) && tree == old(tree)[p := Dir(mode)]
      ensures !ok ==> tree == old(tree)
      ensures ParentDir(old(tree), p) && p !in old(tree) && x.works(old(calls)) ==> ok
    {
      var works := Call();
      if !works || !ParentDir(tree, p) || p in tree {
        return false;
      }
      tree := tree[p := Dir(mode)];
      return true;
    }

    method MkdirAll(p: Path) returns (ok: bool)
      modifies this
      ensures old(calls) <= calls
      ensures p == [] || (p in old(tree) && old(tree)[p].Dir?) ==> ok && tree == old(tree) && calls == old(calls)
      decreases |p|
    {
      if p == [] {
        return true;
      }
      if p in tree {
        return tree[p].Dir?;
      }
      ok := MkdirAll(Parent(p));
      if ok {
        ok := Mkdir(p, PRIVATE);
      }
    }

    method Chmod(p: Path, mode: nat) returns (ok: bool)
      modifies this
      ensures calls == old(calls) + 1
      ensures ok ==> p in old(tree) && tree == old(tree)[p := if old(tree)[p].Dir? then Dir(mode) else old(tree)[p]]
      ensures !ok ==> tree == old(tree)
      ensures p in old(tree) && x.works(old(calls)) ==> ok
    {
      var works := Call();
      if !works || p !in tree {
        return false;
      }
      if tree[p].Dir? {
        tree := tree[p := Dir(mode)];
      }
      return true;
    }

    // A temporary file in the parent directory, renamed over the target.
    method WriteFile(p: Path, mode: nat, content: string) returns (ok: bool)
      modifies this
      ensures calls == old(calls) + 1
      ensures ok ==> tree == old(tree)[p := File(mode, content)]
      ensures !ok ==> tree == old(tree)
      ensures ParentDir(old(tree), p) && (p in old(tree) ==> !old(tree)[p].Dir?) && x.works(old(calls)) ==> ok
    {
      var works := Call();
      if !works || !ParentDir(tree, p) || (p in tree && tree[p].Dir?) {
        return false;
      }
      tree := tree[p := File(mode, content)];
      return true;
    }

    // copyManifestArtifactContext; the archive may hold anything by now.
    method CopyArtifact(item: Item) returns (ok: bool)
      requires item.path != []
      modifies this
      ensures old(calls) <= calls
      ensures ok && ParentDir(old(tree), item.path) ==>
                && item.path in tree && tree.Keys == old(tree).Keys + {item.path}
                && (forall q :: q in old(tree) && q != item.path ==> tree[q] == old(tree)[q])
                && (item.spec.FileSpec? || (item.path in old(tree) && old(tree)[item.path].Dir?) ==>
                  Conforms(tree[item.path], item.spec))
      ensures ParentDir(old(tree), item.path)
              && (if item.spec.DirSpec? then item.path in old(tree) else (item.path in old(tree) ==>
                !old(tree)[item.path].Dir?))
              && (forall k: nat :: old(calls) <= k < calls ==> x.works(k) && ReadAs(x, k, item))
              ==> ok
    {
      if item.spec.DirSpec? {
        ok := Chmod(item.path, item.spec.mode);
        return;
      }
      ok := MkdirAll(Parent(item.path));
      if !ok {
        return;
      }
      ghost var k := calls;
      assert (forall n: nat :: k <= n < k + 1 ==> x.works(n) && ReadAs(x, n, item)) ==> ReadAs(x, k, item);
      var node := x.held(calls, item.path);
      if !node.File? {
        var _ := Call();
        return false;
      }
      ok := WriteFile(item.path, node.mode, node.content);
      if !ok {
        return;
      }
      ok := FileSpec(|node.content|, Sha(node.content), node.mode) == item.spec;
    }

    // makeRestoreDirectoriesContext
    method MakeDirectories(m: Manifest) returns (ok: bool)
      requires ValidManifest(m) && ParentClosed(m)
      requires tree.Keys == {MANIFEST}
      modifies this
      ensures old(calls) <= calls
      ensures ok ==> Partial(tree, m) && Present(tree, DirectoryPlan(m), |DirectoryPlan(m)|)
      ensures ok ==> MANIFEST in tree && tree[MANIFEST] == old(tree)[MANIFEST]
      ensures Worked(x, old(calls), calls) ==> ok
    {
      hide ValidManifest, ExpectedAt, Items, DirectoryPlan, ParentClosed, Conforms, Built, DistinctItems,
        ParentsFirst, Partial, Present;
      var plan := DirectoryPlan(m);
      ghost var start := tree;
      PlanDistinct(m);
      PlanParentsFirst(m);
      BuiltNothing(start, plan);
      for i := 0 to |plan|
        invariant old(calls) <= calls
        invariant Built(start, tree, plan, i)
      {
        ok := MakeNext(m, start, plan, i);
        if !ok {
          return false;
        }
      }
      BuiltIsPartial(start, tree, m);
      BuiltIsPresent(start, tree, plan);
      return true;
    }

    method MakeNext(m: Manifest, ghost start: Tree, plan: seq<Item>, i: nat) returns (ok: bool)
      requires ValidManifest(m) && plan == DirectoryPlan(m) && i < |plan| && start.Keys == {MANIFEST}
      requires DistinctItems(plan) && ParentsFirst(plan) && Built(start, tree, plan, i)
      modifies this
      ensures old(calls) <= calls
      ensures ok ==> Built(start, tree, plan, i + 1)
      ensures Worked(x, old(calls), calls) ==> ok
    {
      hide ValidManifest, DirectoryPlan, DistinctItems, ParentsFirst, Built;
      NextDirectory(start, tree, m, plan, i);
      ok := MakeDirectory(plan[i].path, plan[i].spec.mode);
    }

    // One directory: made, then given its mode once more.
    method MakeDirectory(p: Path, mode: nat) returns (ok: bool)
      modifies this
      ensures old(calls) <= calls
      ensures ok ==> tree == old(tree)[p := Dir(mode)]
      ensures ParentDir(old(tree), p) && p !in old(tree) && Worked(x, old(calls), calls) ==> ok
    {
      ok := Mkdir(p, mode);
      if ok {
        ok := Chmod(p, mode);
      }
    }

    // copyManifestTreeSnapshotContext
    method CopyManifestTree(m: Manifest, manifestBytes: string) returns (ok: bool)
      requires ValidManifest(m) && ParentClosed(m) && tree == map[]
      modifies this
      ensures ok ==> Matches(tree, m) && MANIFEST in tree && tree[MANIFEST] == File(384, manifestBytes)
      ensures old(calls) <= calls && (Faultless(x, m, old(calls), calls) ==> ok)
    {
      hide ValidManifest, ExpectedAt, Items, DirectoryPlan, Conforms, ParentClosed, Partial, Present;
      ok := WriteFile(MANIFEST, 384, manifestBytes);
      if !ok {
        return;
      }
      ok := MakeDirectories(m);
      if !ok {
        return;
      }
      var items := CoreFiles(m) + TreeItems(m);
      PresentNothing(tree, items);
      CopiedAreItems(m);
      for i := 0 to |items|
        invariant old(calls) <= calls
        invariant Partial(tree, m) && Present(tree, DirectoryPlan(m), |DirectoryPlan(m)|) && Present(tree, items, i)
        invariant MANIFEST in tree && tree[MANIFEST] == File(384, manifestBytes)
      {
        ok := CopyNext(m, items, i);
        if !ok {
          return;
        }
      }
      AllPresentMatches(tree, m);
      return true;
    }

    method CopyNext(m: Manifest, items: seq<Item>, i: nat) returns (ok: bool)
      requires ValidManifest(m) && ParentClosed(m) && items == CoreFiles(m) + TreeItems(m) && i < |items|
      requires Partial(tree, m) && Present(tree, DirectoryPlan(m), |DirectoryPlan(m)|) && Present(tree, items, i)
      requires MANIFEST in tree
      modifies this
      ensures old(calls) <= calls
      ensures ok ==> Partial(tree, m) && Present(tree, DirectoryPlan(m), |DirectoryPlan(m)|)
      ensures ok ==> Present(tree, items, i + 1)
      ensures ok ==> MANIFEST in tree && tree[MANIFEST] == old(tree)[MANIFEST]
      ensures (forall k: nat :: old(calls) <= k < calls ==> x.works(k) && ReadAs(x, k, items[i])) ==> ok
    {
      hide ValidManifest, ExpectedAt, Items, DirectoryPlan, Conforms, ParentClosed, Partial;
      ReadyForArtifact(tree, m, items[i]);
      ghost var before := tree;
      ok := CopyArtifact(items[i]);
      if ok {
        ArtifactKeepsPartial(before, tree, m, items[i]);
      }
    }
  }

  lemma BuiltNothing(start: Tree, plan: seq<Item>)
    ensures Built(start, start, plan, 0)
  {
  }

  lemma BuiltIsPresent(start: Tree, t: Tree, plan: seq<Item>)
    requires Built(start, t, plan, |plan|) && start.Keys == {MANIFEST}
    ensures Present(t, plan, |plan|) && MANIFEST in t && t[MANIFEST] == start[MANIFEST]
  {
  }

  lemma PresentNothing(t: Tree, items: seq<Item>)
    ensures Present(t, items, 0)
  {
  }

  lemma CopiedAreItems(m: Manifest)
    ensures forall item :: item in CoreFiles(m) + TreeItems(m) ==> item in Items(m)
  {
  }

  // The first n planned directories were added to the start, and nothing else.
  predicate Built(start: Tree, t: Tree, plan: seq<Item>, n: nat)
    requires n <= |plan|
  {
    && (forall p :: p in start ==> p in t && t[p] == start[p])
    && (forall j :: 0 <= j < n ==>
         plan[j].spec.DirSpec? && plan[j].path in t && t[plan[j].path] == Dir(plan[j].spec.mode))
    && (forall p :: p in t ==> p in start || exists j :: 0 <= j < n && plan[j].path == p)
  }

  lemma NextDirectory(start: Tree, t: Tree, m: Manifest, plan: seq<Item>, i: nat)
    requires ValidManifest(m) && plan == DirectoryPlan(m) && i < |plan| && start.Keys == {MANIFEST}
    requires DistinctItems(plan) && ParentsFirst(plan) && Built(start, t, plan, i)
    ensures plan[i].spec.DirSpec? && ParentDir(t, plan[i].path) && plan[i].path !in t
    ensures Built(start, t[plan[i].path := Dir(plan[i].spec.mode)], plan, i + 1)
  {
    hide ValidManifest, ExpectedAt, Items, DirectoryPlan, DistinctItems, ParentsFirst, Built;
    PlanMembers(m, plan[i]);
    ItemIsExpected(m, plan[i]);
    NextFits(start, t, plan, i);
    BuiltGrows(start, t, plan, i);
  }

  lemma NextFits(start: Tree, t: Tree, plan: seq<Item>, i: nat)
    requires i < |plan| && plan[i].path != [] && plan[i].path !in start
    requires DistinctItems(plan) && ParentsFirst(plan) && Built(start, t, plan, i)
    ensures ParentDir(t, plan[i].path) && plan[i].path !in t
  {
    var p := plan[i].path;
    if |p| > 1 {
      var j :| 0 <= j < i && plan[j].path == Parent(p);
      assert t[plan[j].path] == Dir(plan[j].spec.mode);
    }
  }

  lemma BuiltGrows(start: Tree, t: Tree, plan: seq<Item>, i: nat)
    requires i < |plan| && Built(start, t, plan, i) && plan[i].spec.DirSpec? && plan[i].path !in t
    ensures Built(start, t[plan[i].path := Dir(plan[i].spec.mode)], plan, i + 1)
  {
    var t' := t[plan[i].path := Dir(plan[i].spec.mode)];
    forall p | p in t' && p !in start ensures exists j :: 0 <= j < i + 1 && plan[j].path == p {
      if p != plan[i].path {
        var j :| 0 <= j < i && plan[j].path == p;
      }
    }
  }

  lemma BuiltIsPartial(start: Tree, t: Tree, m: Manifest)
    requires ValidManifest(m) && start.Keys == {MANIFEST} && Built(start, t, DirectoryPlan(m), |DirectoryPlan(m)|)
    ensures Partial(t, m)
  {
    hide ValidManifest, ExpectedAt, Items, DirectoryPlan;
    var plan := DirectoryPlan(m);
    forall p | p in t && p != MANIFEST ensures ExpectedAt(m, p).Some? && Conforms(t[p], ExpectedAt(m, p).value) {
      var j :| 0 <= j < |plan| && plan[j].path == p;
      PlanMembers(m, plan[j]);
      ItemIsExpected(m, plan[j]);
    }
  }

  lemma ReadyForArtifact(t: Tree, m: Manifest, item: Item)
    requires ValidManifest(m) && ParentClosed(m) && item in CoreFiles(m) + TreeItems(m)
    requires Partial(t, m) && Present(t, DirectoryPlan(m), |DirectoryPlan(m)|)
    ensures item.path != [] && item.path != MANIFEST && ParentDir(t, item.path)
    ensures if item.spec.DirSpec? then item.path in t && t[item.path].Dir? else (item.path in t ==> !t[item.path].Dir?)
  {
    hide ValidManifest, ExpectedAt, DirectoryPlan;
    assert item in Items(m);
    ItemIsExpected(m, item);
    if item.spec.DirSpec? {
      PlannedIsPresent(t, m, item);
    }
    if |item.path| > 1 {
      assert ParentListed(m, item.path);
      var q := Parent(item.path);
      ExpectedIsItem(m, q);
      PlannedIsPresent(t, m, Item(q, ExpectedAt(m, q).value));
    }
  }

  lemma PlannedIsPresent(t: Tree, m: Manifest, x: Item)
    requires ValidManifest(m) && x in Items(m) && x.spec.DirSpec?
    requires Partial(t, m) && Present(t, DirectoryPlan(m), |DirectoryPlan(m)|)
    ensures x.path in t && t[x.path].Dir?
  {
    hide ValidManifest, ExpectedAt, Items, DirectoryPlan;
    PlanMembers(m, x);
    ItemIsExpected(m, x);
    var plan := DirectoryPlan(m);
    var j :| 0 <= j < |plan| && plan[j] == x;
  }

  lemma ArtifactKeepsPartial(before: Tree, after: Tree, m: Manifest, item: Item)
    requires ValidManifest(m) && item in CoreFiles(m) + TreeItems(m) && Partial(before, m)
    requires after.Keys == before.Keys + {item.path}
    requires forall q :: q in before && q != item.path ==> after[q] == before[q]
    requires Conforms(after[item.path], item.spec)
    ensures Partial(after, m)
  {
    hide ValidManifest, ExpectedAt, Conforms;
    assert item in Items(m);
    ItemIsExpected(m, item);
  }

  lemma AllPresentMatches(t: Tree, m: Manifest)
    requires ValidManifest(m) && Partial(t, m) && Present(t, DirectoryPlan(m), |DirectoryPlan(m)|)
    requires Present(t, CoreFiles(m) + TreeItems(m), |CoreFiles(m) + TreeItems(m)|)
    ensures Matches(t, m)
  {
    hide ValidManifest, ExpectedAt, DirectoryPlan, Conforms, TreeItems, CoreFiles;
    forall p: Path | ExpectedAt(m, p).Some? ensures p in t {
      var x := Item(p, ExpectedAt(m, p).value);
      ExpectedIsItem(m, p);
      if x.spec.DirSpec? {
        PlannedIsPresent(t, m, x);
      } else {
        FileItemIsCopied(m, x);
        var items := CoreFiles(m) + TreeItems(m);
        var j :| 0 <= j < |items| && items[j] == x;
      }
    }
  }

  lemma FileItemIsCopied(m: Manifest, x: Item)
    requires x in Items(m) && x.spec.FileSpec?
    ensures x in CoreFiles(m) + TreeItems(m)
  {
    assert x in FIXED ==> x.spec.DirSpec?;
    assert x in TrashRoots(m.trash) ==> x.spec.DirSpec?;
  }

  // ------------------------------------------------------------- round trips

  // The archive stays as it was verified while calls a to b read it.
  ghost predicate Undisturbed(x: Outside, archive: Tree, a: nat, b: nat) {
    forall k: nat, p :: a <= k < b && p in archive ==> x.held(k, p) == archive[p]
  }

  // Main theorem: verify an archive, then copy by its manifest. A successful copy
  // is the archive that was verified, with a private manifest file; when the
  // calls made all work and the archive stays as it is, the copy succeeds.
  method Restore(x: Outside, archive: Tree, walk: seq<Path>, m: Manifest, manifestBytes: string)
    returns (verified: bool, copied: bool, staging: Staging)
    requires ValidManifest(m) && WellFormed(archive) && Walks(walk, archive)
    requires MANIFEST in archive && archive[MANIFEST].File? && archive[MANIFEST].content == manifestBytes
    ensures verified <==> Matches(archive, m)
    ensures copied ==> verified && staging.tree == archive[MANIFEST := File(384, manifestBytes)]
    ensures verified && Worked(x, 0, staging.calls) && Undisturbed(x, archive, 0, staging.calls) ==> copied
    ensures fresh(staging) && staging.x == x
  {
    hide ValidManifest, WellFormed, Matches, Items;
    staging := new Staging(x);
    copied := false;
    verified := VerifyTreeContents(archive, walk, m);
    if verified {
      VerifiedIsParentClosed(archive, m);
      copied := staging.CopyManifestTree(m, manifestBytes);
      VerifiedIsRead(x, archive, m, staging.calls);
      if copied {
        PrivateManifest(archive, m, manifestBytes);
        MatchingTreesAreEqual(staging.tree, archive[MANIFEST := File(384, manifestBytes)], m);
      }
    }
  }

  lemma VerifiedIsRead(x: Outside, archive: Tree, m: Manifest, n: nat)
    requires ValidManifest(m) && Matches(archive, m)
    ensures Worked(x, 0, n) && Undisturbed(x, archive, 0, n) ==> Faultless(x, m, 0, n)
  {
    hide ValidManifest, ExpectedAt, Items, Conforms;
    if Undisturbed(x, archive, 0, n) {
      forall k: nat, item | k < n && item in Items(m) ensures ReadAs(x, k, item) {
        ItemIsExpected(m, item);
        assert item.path in archive;
      }
    }
  }

  lemma PrivateManifest(archive: Tree, m: Manifest, manifestBytes: string)
    requires Matches(archive, m)
    ensures Matches(archive[MANIFEST := File(384, manifestBytes)], m)
  {
    hide ExpectedAt, Conforms;
  }

  // The artifacts describe a captured tree exactly.
  ghost predicate Describes(files: seq<Artifact>, source: Tree) {
    && DistinctPaths(files)
    && (forall i :: 0 <= i < |files| ==> files[i].path in source && Conforms(source[files[i].path], SpecOf(files[i])))
    && (forall p :: p in source ==> exists i :: 0 <= i < |files| && files[i].path == p)
  }

  // The copy and its artifacts after n entries of the walk.
  ghost predicate Captured(copy: Tree, source: Tree, walk: seq<Path>, files: seq<Artifact>, n: nat)
    requires n <= |walk|
  {
    && |files| == n
    && (forall j :: 0 <= j < n ==> files[j].path == walk[j] && walk[j] in copy)
    && (forall p :: p in copy ==> p in source && copy[p] == source[p] && exists j :: 0 <= j < n && walk[j] == p)
    && (forall j :: 0 <= j < n ==> walk[j] in source && Conforms(source[walk[j]], SpecOf(files[j])))
  }

  // copyTreeContext: one tree copied into an empty directory with its manifest.
  method CaptureTree(x: Outside, source: Tree, walk: seq<Path>) returns (ok: bool, copy: Staging, files: seq<Artifact>)
    requires WellFormed(source) && Walks(walk, source)
    ensures fresh(copy) && copy.x == x
    ensures ok ==> copy.tree == source && Describes(files, source)
    ensures ok && (forall p :: p in source ==> AllPlain(p)) ==>
              forall name :: Plain(name) ==> ValidTree(TreeManifest(name, files))
    ensures Worked(x, 0, copy.calls) ==> (ok <==> forall p :: p in source ==> !source[p].Special?)
  {
    hide WellFormed, Walks, Captured, Describes;
    copy := new Staging(x);
    files := [];
    CapturedNothing(source, walk);
    for i := 0 to |walk|
      invariant fresh(copy) && copy.x == x && Captured(copy.tree, source, walk, files, i)
      invariant forall j :: 0 <= j < i ==> walk[j] in source && !source[walk[j]].Special?
      invariant forall j :: 0 <= j < |files| ==> Shaped(files[j])
    {
      NextEntry(copy.tree, source, walk, files, i);
      var artifact;
      ok, artifact := CaptureEntry(copy, walk[i], source[walk[i]]);
      if !ok {
        return false, copy, files;
      }
      files := files + [artifact];
    }
    CapturedAll(copy.tree, source, walk, files);
    WalkCovers(source, walk);
    CapturedIsValid(source, files);
    return true, copy, files;
  }

  lemma WalkCovers(source: Tree, walk: seq<Path>)
    requires Walks(walk, source)
    ensures forall p :: p in source ==> exists j :: 0 <= j < |walk| && walk[j] == p
  {
  }

  method CaptureEntry(copy: Staging, p: Path, n: Node) returns (ok: bool, artifact: Artifact)
    requires ParentDir(copy.tree, p) && p !in copy.tree
    modifies copy
    ensures old(copy.calls) <= copy.calls
    ensures ok ==> Shaped(artifact)
    ensures ok ==> !n.Special? && copy.tree == old(copy.tree)[p := n]
    ensures ok ==> artifact.path == p && Conforms(n, SpecOf(artifact))
    ensures !n.Special? && Worked(copy.x, old(copy.calls), copy.calls) ==> ok
  {
    artifact := Artifact(p, true, 0, NoDigest, 0);
    match n
    case Special =>
      return false, artifact;
    case Dir(mode) =>
      ok := copy.Mkdir(p, mode);
      if ok {
        ok := copy.Chmod(p, mode);
      }
      artifact := Artifact(p, true, 0, NoDigest, mode);
    case File(mode, content) =>
      ok := copy.WriteFile(p, mode, content);
      artifact := Artifact(p, false, |content|, Sha(content), mode);
  }

  // A directory has no size and no digest, a file has one.
  predicate Shaped(a: Artifact) { if a.directory then a.size == 0 && a.digest == NoDigest else a.digest.Sha? }

  // A captured tree of plain paths has a manifest that validation accepts.
  lemma CapturedIsValid(source: Tree, files: seq<Artifact>)
    requires WellFormed(source) && Describes(files, source) && forall j :: 0 <= j < |files| ==> Shaped(files[j])
    ensures (forall p :: p in source ==> AllPlain(p)) ==>
              forall name :: Plain(name) ==> ValidTree(TreeManifest(name, files))
  {
    hide Conforms, Plain;
    forall i | 0 <= i < |files| && (forall p :: p in source ==> AllPlain(p)) ensures ValidArtifact(files[i]) {
      assert ParentOk(source, files[i].path);
    }
  }

  lemma CapturedNothing(source: Tree, walk: seq<Path>)
    ensures Captured(map[], source, walk, [], 0)
  {
  }

  // The walk has visited the parent before its child.
  lemma NextEntry(copy: Tree, source: Tree, walk: seq<Path>, files: seq<Artifact>, i: nat)
    requires WellFormed(source) && Walks(walk, source) && i < |walk| && Captured(copy, source, walk, files, i)
    ensures walk[i] in source && ParentDir(copy, walk[i]) && walk[i] !in copy
    ensures forall a: Artifact :: a.path == walk[i] && Conforms(source[walk[i]], SpecOf(a)) ==>
              Captured(copy[walk[i] := source[walk[i]]], source, walk, files + [a], i + 1)
  {
    hide Conforms, Captured, Walks, WellFormed;
    EntryFits(copy, source, walk, files, i);
    forall a: Artifact | a.path == walk[i] && Conforms(source[walk[i]], SpecOf(a))
      ensures Captured(copy[walk[i] := source[walk[i]]], source, walk, files + [a], i + 1)
    {
      CapturedGrows(copy, source, walk, files, i, a);
    }
  }

  lemma EntryFits(copy: Tree, source: Tree, walk: seq<Path>, files: seq<Artifact>, i: nat)
    requires WellFormed(source) && Walks(walk, source) && i < |walk| && Captured(copy, source, walk, files, i)
    ensures walk[i] in source && ParentDir(copy, walk[i]) && walk[i] !in copy
  {
    hide Conforms;
    var p := walk[i];
    assert ParentOk(source, p);
    if |p| > 1 {
      var q := Parent(p);
      var j :| 0 <= j < |walk| && walk[j] == q;
      assert q <= p && q != p;
      assert j < i;
    }
  }

  lemma CapturedGrows(copy: Tree, source: Tree, walk: seq<Path>, files: seq<Artifact>, i: nat, a: Artifact)
    requires i < |walk| && walk[i] in source && Captured(copy, source, walk, files, i)
    requires a.path == walk[i] && Conforms(source[walk[i]], SpecOf(a))
    ensures Captured(copy[walk[i] := source[walk[i]]], source, walk, files + [a], i + 1)
  {
    hide Conforms, SpecOf;
    var copy' := copy[walk[i] := source[walk[i]]];
    forall p | p in copy' ensures p in source && copy'[p] == source[p] && exists j :: 0 <= j < i + 1 && walk[j] == p {
      if p != walk[i] {
        var j :| 0 <= j < i && walk[j] == p;
      }
    }
  }

  lemma CapturedAll(copy: Tree, source: Tree, walk: seq<Path>, files: seq<Artifact>)
    requires Walks(walk, source) && Captured(copy, source, walk, files, |walk|)
    ensures copy == source && Describes(files, source)
  {
    hide Conforms, SpecOf, ParentOk, Walks, Describes;
    WalkCovers(source, walk);
    assert forall p :: p in source ==> p in copy;
    assert copy.Keys == source.Keys;
    WalkDescribes(copy, source, walk, files);
  }

  lemma WalkDescribes(copy: Tree, source: Tree, walk: seq<Path>, files: seq<Artifact>)
    requires Walks(walk, source) && Captured(copy, source, walk, files, |walk|)
    ensures Describes(files, source)
  {
    hide Conforms, SpecOf;
    assert forall i :: 0 <= i < |files| ==> files[i].path == walk[i];
    WalkIsDistinct(source, walk);
    WalkCovers(source, walk);
    hide Walks;
    forall p | p in source ensures exists i :: 0 <= i < |files| && files[i].path == p {
      var j :| 0 <= j < |walk| && walk[j] == p;
      assert files[j].path == p;
    }
  }

  lemma WalkIsDistinct(source: Tree, walk: seq<Path>)
    requires Walks(walk, source)
    ensures forall i, j :: 0 <= i < j < |walk| ==> walk[i] != walk[j]
  {
  }

  // Below a prefix the tree is exactly the source.
  ghost predicate SubtreeIs(t: Tree, prefix: Path, source: Tree) {
    forall p: Path :: p != [] ==>
      (prefix + p in t <==> p in source) && (p in source ==> t[prefix + p] == source[p])
  }

  lemma {:induction false} FindDescribed(files: seq<Artifact>, source: Tree, p: Path)
    requires Describes(files, source)
    ensures p in source <==> Find(files, p).Some?
    ensures p in source ==> Conforms(source[p], Find(files, p).value)
  {
    if p in source {
      var i :| 0 <= i < |files| && files[i].path == p;
      FindIsUnique(files, i);
    }
    if Find(files, p).Some? {
      var i := FindFinds(files, p);
    }
  }

  // A restored archive carries the captured descriptor tree and every captured
  // trash tree unchanged.
  lemma RestoredDescriptorsAreTheSource(restored: Tree, m: Manifest, source: Tree)
    requires ValidManifest(m) && Matches(restored, m) && Describes(m.descriptors.files, source)
    ensures SubtreeIs(restored, [DESCRIPTORS], source)
  {
    hide ValidManifest, Conforms;
    forall p: Path | p != []
      ensures [DESCRIPTORS] + p in restored <==> p in source
      ensures p in source ==> [DESCRIPTORS] + p in restored && restored[[DESCRIPTORS] + p] == source[p]
    {
      var full := [DESCRIPTORS] + p;
      assert full[0] == DESCRIPTORS && full[1..] == p && |full| > 1;
      DescriptorLookup(m, p);
      FindDescribed(m.descriptors.files, source, p);
      assert full in restored <==> ExpectedAt(m, full).Some?;
      if p in source {
        ConformingNodesAreEqual(restored[full], source[p], ExpectedAt(m, full).value);
      }
    }
  }

  lemma DescriptorLookup(m: Manifest, p: Path)
    requires ValidManifest(m) && p != []
    ensures ExpectedAt(m, [DESCRIPTORS] + p) == Find(m.descriptors.files, p) && [DESCRIPTORS] + p != MANIFEST
  {
    var full := [DESCRIPTORS] + p;
    assert full[0] == DESCRIPTORS && full[1..] == p;
    assert KEY_FILE[0] == "keys" && DESCRIPTORS[0] == 'd' && "keys"[0] == 'k';
  }

  lemma TrashLookup(m: Manifest, t: nat, p: Path)
    requires ValidManifest(m) && t < |m.trash| && p != []
    ensures ExpectedAt(m, [TRASH, m.trash[t].name] + p) == Find(m.trash[t].files, p)
    ensures [TRASH, m.trash[t].name] + p != MANIFEST
  {
    var full := [TRASH, m.trash[t].name] + p;
    assert full[0] == TRASH && full[1] == m.trash[t].name && full[2..] == p;
    assert KEY_FILE[0] == "keys" && TRASH[0] == 't' && "keys"[0] == 'k';
    FindTreeIsUnique(m.trash, t);
  }

  lemma RestoredTrashIsTheSource(restored: Tree, m: Manifest, t: nat, source: Tree)
    requires ValidManifest(m) && Matches(restored, m) && t < |m.trash| && Describes(m.trash[t].files, source)
    ensures SubtreeIs(restored, [TRASH, m.trash[t].name], source)
  {
    hide ValidManifest, Conforms, ExpectedAt;
    var prefix := [TRASH, m.trash[t].name];
    forall p: Path | p != []
      ensures prefix + p in restored <==> p in source
      ensures p in source ==> prefix + p in restored && restored[prefix + p] == source[p]
    {
      var full := prefix + p;
      TrashLookup(m, t, p);
      FindDescribed(m.trash[t].files, source, p);
      assert full in restored <==> ExpectedAt(m, full).Some?;
      if p in source {
        ConformingNodesAreEqual(restored[full], source[p], ExpectedAt(m, full).value);
      }
    }
  }

  // The archive Create leaves in its staging directory.
  ghost predicate Assembled(a: Tree, m: Manifest, descriptors: Tree, trash: seq<Tree>) {
    && |trash| == |m.trash|
    && (forall p :: p in {[KEYS], [DESCRIPTORS], [TRASH]} ==> p in a && a[p] == Dir(PRIVATE))
    && DATABASE in a && Conforms(a[DATABASE], SpecOf(m.database))
    && KEY_FILE in a && Conforms(a[KEY_FILE], SpecOf(m.key))
    && SubtreeIs(a, [DESCRIPTORS], descriptors)
    && (forall t :: 0 <= t < |trash| ==>
          && [TRASH, m.trash[t].name] in a && a[[TRASH, m.trash[t].name]] == Dir(PRIVATE)
          && SubtreeIs(a, [TRASH, m.trash[t].name], trash[t]))
    && (forall p :: p in a ==> Placed(m, p))
  }

  predicate Placed(m: Manifest, p: Path) {
    || p in {MANIFEST, [KEYS], [DESCRIPTORS], [TRASH], DATABASE, KEY_FILE}
    || (|p| > 1 && p[0] == DESCRIPTORS)
    || (|p| > 1 && p[0] == TRASH && exists t :: 0 <= t < |m.trash| && m.trash[t].name == p[1])
  }

  // An archive assembled from captured trees passes verification.
  lemma CapturedArchiveMatches(a: Tree, m: Manifest, descriptors: Tree, trash: seq<Tree>)
    requires ValidManifest(m) && Assembled(a, m, descriptors, trash)
    requires Describes(m.descriptors.files, descriptors)
    requires forall t :: 0 <= t < |trash| ==> Describes(m.trash[t].files, trash[t])
    ensures Matches(a, m)
  {
    forall p: Path | p != MANIFEST
      ensures p in a <==> ExpectedAt(m, p).Some?
      ensures p in a ==> Conforms(a[p], ExpectedAt(m, p).value)
    {
      AssembledPath(a, m, descriptors, trash, p);
    }
  }

  lemma AssembledPath(a: Tree, m: Manifest, descriptors: Tree, trash: seq<Tree>, p: Path)
    requires ValidManifest(m) && Assembled(a, m, descriptors, trash) && p != MANIFEST
    requires Describes(m.descriptors.files, descriptors)
    requires forall t :: 0 <= t < |trash| ==> Describes(m.trash[t].files, trash[t])
    ensures p in a <==> ExpectedAt(m, p).Some?
    ensures p in a ==> Conforms(a[p], ExpectedAt(m, p).value)
  {
    hide Describes, SubtreeIs;
    assert KEYS[0] == 'k' && DESCRIPTORS[0] == 'd' && TRASH[0] == 't' && DATABASE[0][4] == 'b';
    assert KEY_FILE[0] == KEYS && |KEY_FILE| == 2 && |DATABASE| == 1;
    if |p| > 1 && p[0] == DESCRIPTORS {
      InDescriptors(a, m, descriptors, p);
    } else if |p| > 1 && p[0] == TRASH {
      if t :| 0 <= t < |m.trash| && m.trash[t].name == p[1] {
        InTrash(a, m, trash[t], t, p);
      } else {
        if FindTree(m.trash, p[1]).Some? {
          var t := FindTreeFinds(m.trash, p[1]);
          assert false;
        }
        assert !Placed(m, p);
      }
    } else {
      assert p in a ==> Placed(m, p);
    }
  }

  lemma InDescriptors(a: Tree, m: Manifest, source: Tree, p: Path)
    requires ValidManifest(m) && SubtreeIs(a, [DESCRIPTORS], source) && Describes(m.descriptors.files, source)
    requires |p| > 1 && p[0] == DESCRIPTORS
    ensures p in a <==> ExpectedAt(m, p).Some?
    ensures p in a ==> Conforms(a[p], ExpectedAt(m, p).value)
  {
    hide Conforms, ValidManifest, ExpectedAt, Describes;
    assert p == [DESCRIPTORS] + p[1..];
    DescriptorLookup(m, p[1..]);
    FindDescribed(m.descriptors.files, source, p[1..]);
  }

  lemma InTrash(a: Tree, m: Manifest, source: Tree, t: nat, p: Path)
    requires ValidManifest(m) && t < |m.trash| && Describes(m.trash[t].files, source)
    requires [TRASH, m.trash[t].name] in a && a[[TRASH, m.trash[t].name]] == Dir(PRIVATE)
    requires SubtreeIs(a, [TRASH, m.trash[t].name], source)
    requires |p| > 1 && p[0] == TRASH && p[1] == m.trash[t].name
    ensures p in a <==> ExpectedAt(m, p).Some?
    ensures p in a ==> Conforms(a[p], ExpectedAt(m, p).value)
  {
    if |p| == 2 {
      assert p == [TRASH, m.trash[t].name];
      FindTreeIsUnique(m.trash, t);
    } else {
      hide Conforms, ValidManifest, ExpectedAt, Describes;
      assert p == [TRASH, m.trash[t].name] + p[2..];
      TrashLookup(m, t, p[2..]);
      FindDescribed(m.trash[t].files, source, p[2..]);
    }
  }
}
