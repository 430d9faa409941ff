/**
 * Expansion of directory mappings into concrete file mappings
 * (internal/actions/filesystem.go, internal/actions/actions.go).
 */
module DirectoryExpansion {
  import opened Common
  import opened PathText
  import opened FilesystemReconcile

  datatype Entry = Entry(root: string, path: string, kind: EntryType, size: int, digest: string, identity: string,
                         children: seq<Entry>)

  datatype FileMap = FileMap(source: Entry, destination: Target)

  // domain.ValidateRelativePath
  predicate ValidRelativePath(p: string) {
    && p != "" && '\0' !in p && p[0] != '/' && '\\' !in p
    && Clean(p) != "." && Clean(p) == p
    && AllPlain(Split(p))
  }

  // ConfigID.Valid is reduced to a nonblank root.
  predicate ValidTarget(t: Target) { !Blank(t.root) && ValidRelativePath(t.path) }

  function TrimSlash(s: string): string { if s != "" && s[|s| - 1] == '/' then s[..|s| - 1] else s }

  // pathForChild
  function PathForChild(parent: string, child: string): Option<string> {
    var prefix := TrimSlash(parent) + "/";
    if parent == "" || child == "" || child == parent || !(prefix <= child) then None
    else Some(child[|prefix|..])
  }

  // joinTarget
  function JoinTarget(parent: Target, suffix: string): Option<Target> {
    var t := Target(parent.root, JoinPath(parent.path, suffix));
    if suffix == "" || !ValidTarget(t) then None else Some(t)
  }

  // appendExpandedMappings as a value: what one call appends, None for an error.
  function Expand(m: FileMap): Option<seq<FileMap>>
    decreases m.source, |m.source.children| + 1
  {
    if !m.source.kind.Directory? then Some([m]) else ExpandFrom(m, 0)
  }

  // The loop over the children, from child i on.
  function ExpandFrom(m: FileMap, i: nat): Option<seq<FileMap>>
    requires i <= |m.source.children|
    decreases m.source, |m.source.children| - i
  {
    if i == |m.source.children| then Some([])
    else
      match ChildMap(m, m.source.children[i])
      case None => None
      case Some(cm) =>
        match Expand(cm)
        case None => None
        case Some(first) => Prepend(first, ExpandFrom(m, i + 1))
  }

  function Prepend(first: seq<FileMap>, rest: Option<seq<FileMap>>): Option<seq<FileMap>> {
    match rest case None => None case Some(r) => Some(first + r)
  }

  lemma PrependTwice(a: seq<FileMap>, b: seq<FileMap>, rest: Option<seq<FileMap>>)
    ensures Prepend(a, Prepend(b, rest)) == Prepend(a + b, rest)
  {
    if rest.Some? {
      assert a + (b + rest.value) == (a + b) + rest.value;
    }
  }

  function ChildMap(m: FileMap, child: Entry): (r: Option<FileMap>)
    ensures r.Some? ==> r.value.source == child
  {
    match PathForChild(m.source.path, child.path)
    case None => None
    case Some(suffix) =>
      match JoinTarget(m.destination, suffix)
      case None => None
      case Some(t) => Some(FileMap(child, t))
  }

  // appendExpandedMappings, appending through its result list.
  method AppendExpandedMappings(result: seq<FileMap>, m: FileMap) returns (ok: bool, out: seq<FileMap>)
    ensures ok <==> Expand(m).Some?
    ensures ok ==> out == result + Expand(m).value
    decreases m.source
  {
    hide ChildMap, Prepend;
    if !m.source.kind.Directory? {
      return true, result + [m];
    }
    out := result;
    ghost var added: seq<FileMap> := [];
    PrependNone(ExpandFrom(m, 0));
    for i := 0 to |m.source.children|
      invariant out == result + added
      invariant Expand(m) == Prepend(added, ExpandFrom(m, i))
    {
      PrependSome(added, ExpandFrom(m, i));
      var cm := ChildMap(m, m.source.children[i]);
      if cm.None? {
        return false, out;
      }
      assert cm.value.source == m.source.children[i];
      ok, out := AppendExpandedMappings(out, cm.value);
      if !ok {
        return false, out;
      }
      PrependTwice(added, Expand(cm.value).value, ExpandFrom(m, i + 1));
      added := added + Expand(cm.value).value;
    }
    PrependSome(added, Some([]));
    return true, out;
  }

  lemma PrependNone(rest: Option<seq<FileMap>>)
    ensures Prepend([], rest) == rest
  {
    if rest.Some? {
      assert [] + rest.value == rest.value;
    }
  }

  lemma PrependSome(first: seq<FileMap>, rest: Option<seq<FileMap>>)
    ensures rest.None? ==> Prepend(first, rest).None?
    ensures rest.Some? ==> Prepend(first, rest) == Some(first + rest.value)
  {
  }

  // expandedMappings
  method ExpandedMappings(ms: seq<FileMap>) returns (ok: bool, out: seq<FileMap>)
    ensures ok <==> ExpandAll(ms).Some? && ExpandAll(ms).value != []
    ensures ok ==> out == ExpandAll(ms).value
  {
    hide Expand, Prepend;
    out := [];
    PrependNone(ExpandAll(ms));
    assert ms[0..] == ms;
    for i := 0 to |ms|
      invariant ExpandAll(ms) == Prepend(out, ExpandAll(ms[i..]))
    {
      assert ms[i..][1..] == ms[i + 1..];
      PrependSome(out, ExpandAll(ms[i..]));
      ghost var before := out;
      ok, out := AppendExpandedMappings(out, ms[i]);
      if !ok {
        return false, out;
      }
      PrependTwice(before, Expand(ms[i]).value, ExpandAll(ms[i + 1..]));
    }
    PrependSome(out, Some([]));
    return out != [], out;
  }

  function ExpandAll(ms: seq<FileMap>): Option<seq<FileMap>> {
    if ms == [] then Some([])
    else match Expand(ms[0])
      case None => None
      case Some(first) => Prepend(first, ExpandAll(ms[1..]))
  }

  // ------------------------------------------------------------ what it means

  // The non-directory leaves of a manifest tree, in order.
  function Leaves(e: Entry): seq<Entry>
    decreases e, |e.children| + 1
  {
    if !e.kind.Directory? then [e] else LeavesFrom(e, 0)
  }

  function LeavesFrom(e: Entry, i: nat): seq<Entry>
    requires i <= |e.children|
    decreases e, |e.children| - i
  {
    if i == |e.children| then [] else Leaves(e.children[i]) + LeavesFrom(e, i + 1)
  }

  // An entry that is no directory is its own leaf; a directory's leaves are its
  // children's.
  lemma LeavesMeans(e: Entry, x: Entry)
    ensures !e.kind.Directory? ==> (x in Leaves(e) <==> x == e)
    ensures e.kind.Directory? ==> (x in Leaves(e) <==> exists i :: 0 <= i < |e.children| && x in Leaves(e.children[i]))
  {
    if e.kind.Directory? {
      LeavesFromMeans(e, 0, x);
    }
  }

  lemma {:induction false} LeavesFromMeans(e: Entry, i: nat, x: Entry)
    requires i <= |e.children|
    ensures x in LeavesFrom(e, i) <==> exists j :: i <= j < |e.children| && x in Leaves(e.children[j])
    decreases |e.children| - i
  {
    hide Leaves;
    if i < |e.children| {
      LeavesFromMeans(e, i + 1, x);
    }
  }

  // Every path below a directory is canonical.
  predicate Canonical(e: Entry) {
    ValidRelativePath(e.path) && (e.kind.Directory? ==> forall i :: 0 <= i < |e.children| ==> Canonical(e.children[i]))
  }

  // Every child lies strictly below its directory.
  predicate Nested(e: Entry) {
    e.kind.Directory? ==> forall i :: 0 <= i < |e.children| ==>
      (e.path + "/") <= e.children[i].path && Nested(e.children[i])
  }

  // Below a directory: its own path, a slash and something.
  predicate Below(top: string, p: string) { p == top || (top + "/") <= p }

  // A leaf's destination: the top destination followed by the leaf's path
  // relative to the top source.
  function Moved(m: FileMap, leaf: Entry): Target
    requires |m.source.path| <= |leaf.path|
  {
    Target(m.destination.root, m.destination.path + leaf.path[|m.source.path|..])
  }

  ghost predicate Telescopes(m: FileMap, leaves: seq<Entry>, r: seq<FileMap>) {
    && |r| == |leaves|
    && forall k :: 0 <= k < |leaves| ==>
         Below(m.source.path, leaves[k].path) && r[k] == FileMap(leaves[k], Moved(m, leaves[k]))
  }

  // ---------------------------------------------------------------- path lemmas

  lemma ValidPathParts(p: string)
    requires ValidRelativePath(p)
    ensures AllPlain(Split(p)) && Join(Split(p)) == p && p[|p| - 1] != '/'
  {
    JoinSplit(p);
    JoinEnds(Split(p));
  }

  lemma PartsValidPath(parts: seq<string>)
    requires parts != [] && AllPlain(parts) && '\0' !in Join(parts) && '\\' !in Join(parts)
    ensures ValidRelativePath(Join(parts))
  {
    JoinEnds(parts);
    CleanPlain(parts);
    SplitJoin(parts);
    SingleDot(parts);
  }

  lemma SingleDot(parts: seq<string>)
    requires parts != [] && AllPlain(parts)
    ensures Join(parts) != "."
  {
    SplitJoin(parts);
    SplitSlashFree(".");
    assert Plain(parts[0]);
    assert parts[0] != ".";
  }

  // What lies below a canonical directory is a canonical suffix, and joining it
  // to a canonical destination is plain concatenation.
  lemma ChildSuffix(parent: string, child: string, destination: string)
    requires ValidRelativePath(parent) && ValidRelativePath(child) && ValidRelativePath(destination)
    requires (parent + "/") <= child
    ensures PathForChild(parent, child) == Some(child[|parent| + 1..]) && child[|parent| + 1..] != ""
    ensures JoinPath(destination, child[|parent| + 1..]) == destination + child[|parent|..]
    ensures ValidRelativePath(destination + child[|parent|..])
  {
    hide Clean, ValidRelativePath, JoinPath;
    var suffix := child[|parent| + 1..];
    SplitAtParent(parent, child);
    SuffixParts(parent, child, suffix);
    ChildOfParent(parent, child);
    JoinedSuffix(destination, suffix);
    assert destination + ("/" + suffix) == destination + "/" + suffix;
  }

  lemma SplitAtParent(parent: string, child: string)
    requires (parent + "/") <= child
    ensures child == parent + "/" + child[|parent| + 1..] && child[|parent|..] == "/" + child[|parent| + 1..]
  {
  }

  lemma ChildOfParent(parent: string, child: string)
    requires ValidRelativePath(parent) && ValidRelativePath(child) && (parent + "/") <= child
    ensures PathForChild(parent, child) == Some(child[|parent| + 1..])
  {
    ValidPathParts(parent);
  }

  lemma SuffixParts(parent: string, child: string, suffix: string)
    requires ValidRelativePath(parent) && ValidRelativePath(child) && child == parent + "/" + suffix
    ensures suffix != "" && AllPlain(Split(suffix)) && '\0' !in suffix && '\\' !in suffix
  {
    hide Clean;
    SplitConcat(parent, suffix);
    SuffixPlain(Split(parent), Split(suffix));
    SplitNonempty(suffix);
  }

  lemma JoinedSuffix(destination: string, suffix: string)
    requires ValidRelativePath(destination)
    requires suffix != "" && AllPlain(Split(suffix)) && '\0' !in suffix && '\\' !in suffix
    ensures JoinPath(destination, suffix) == destination + "/" + suffix
    ensures ValidRelativePath(destination + "/" + suffix)
  {
    hide Clean;
    var ds, ps := Split(destination), Split(suffix);
    var joined := ds + ps;
    JoinSplit(destination);
    JoinSplit(suffix);
    JoinConcat(ds, ps);
    assert AllPlain(joined);
    CleanPlain(joined);
    PartsValidPath(joined);
  }

  lemma SuffixPlain(a: seq<string>, b: seq<string>)
    requires AllPlain(a + b)
    ensures AllPlain(b)
  {
    forall i | 0 <= i < |b| ensures Plain(b[i]) {
      assert (a + b)[|a| + i] == b[i];
    }
  }

  lemma SplitNonempty(s: string)
    requires AllPlain(Split(s))
    ensures s != ""
  {
    assert Plain(Split(s)[0]);
  }

  // ---------------------------------------------------------------- main lemmas

  // Expansion telescopes: with canonical paths it succeeds exactly when every
  // child lies below its directory, and then lists each leaf once with the top
  // destination plus the leaf's relative path.
  lemma {:induction false} ExpansionTelescopes(m: FileMap)
    requires Canonical(m.source) && ValidTarget(m.destination)
    ensures Expand(m).Some? <==> Nested(m.source)
    ensures Expand(m).Some? ==> Telescopes(m, Leaves(m.source), Expand(m).value)
    decreases m.source, |m.source.children| + 1
  {
    if m.source.kind.Directory? {
      ExpansionFrom(m, 0);
    } else {
      assert m.destination.path + m.source.path[|m.source.path|..] == m.destination.path;
    }
  }

  ghost predicate NestedFrom(e: Entry, i: nat) {
    forall k :: i <= k < |e.children| ==> (e.path + "/") <= e.children[k].path && Nested(e.children[k])
  }

  lemma {:induction false} ExpansionFrom(m: FileMap, i: nat)
    requires Canonical(m.source) && ValidTarget(m.destination) && m.source.kind.Directory?
    requires i <= |m.source.children|
    ensures ExpandFrom(m, i).Some? <==> NestedFrom(m.source, i)
    ensures ExpandFrom(m, i).Some? ==> Telescopes(m, LeavesFrom(m.source, i), ExpandFrom(m, i).value)
    decreases m.source, |m.source.children| - i
  {
    hide ValidRelativePath, JoinPath, Blank;
    if i < |m.source.children| {
      var child := m.source.children[i];
      assert Canonical(child);
      ChildMapBelow(m, child);
      ExpansionFrom(m, i + 1);
      if (m.source.path + "/") <= child.path {
        var cm := ChildMap(m, child).value;
        ExpansionTelescopes(cm);
        if Expand(cm).Some? && ExpandFrom(m, i + 1).Some? {
          TelescopeUp(m, cm, Leaves(child), Expand(cm).value);
          TelescopeConcat(m, Leaves(child), Expand(cm).value, LeavesFrom(m.source, i + 1), ExpandFrom(m, i + 1).value);
        }
      }
    }
  }

  lemma ChildMapBelow(m: FileMap, child: Entry)
    requires ValidRelativePath(m.source.path) && ValidRelativePath(child.path) && ValidTarget(m.destination)
    ensures ChildMap(m, child).Some? <==> (m.source.path + "/") <= child.path
    ensures ChildMap(m, child).Some? ==>
              && ValidTarget(ChildMap(m, child).value.destination)
              && ChildMap(m, child).value ==
                   FileMap(child, Target(m.destination.root, m.destination.path + child.path[|m.source.path|..]))
  {
    hide JoinPath, Blank, Clean, Split, AllPlain;
    ValidPathParts(m.source.path);
    assert TrimSlash(m.source.path) == m.source.path != "" && child.path != "";
    hide ValidRelativePath, TrimSlash;
    if (m.source.path + "/") <= child.path {
      ChildSuffix(m.source.path, child.path, m.destination.path);
    }
  }

  lemma TelescopeUp(m: FileMap, cm: FileMap, leaves: seq<Entry>, r: seq<FileMap>)
    requires (m.source.path + "/") <= cm.source.path && Telescopes(cm, leaves, r)
    requires cm.destination == Target(m.destination.root, m.destination.path + cm.source.path[|m.source.path|..])
    ensures Telescopes(m, leaves, r)
  {
    forall k | 0 <= k < |leaves|
      ensures Below(m.source.path, leaves[k].path) && r[k] == FileMap(leaves[k], Moved(m, leaves[k]))
    {
      var c, l := cm.source.path, leaves[k].path;
      var n := |m.source.path|;
      assert c <= l;
      assert l[n..] == c[n..] + l[|c|..];
    }
  }

  lemma TelescopeConcat(m: FileMap, a: seq<Entry>, ra: seq<FileMap>, b: seq<Entry>, rb: seq<FileMap>)
    requires Telescopes(m, a, ra) && Telescopes(m, b, rb)
    ensures Telescopes(m, a + b, ra + rb)
  {
  }

  // Leaves with distinct paths get distinct destinations.
  lemma DistinctLeavesDistinctDestinations(m: FileMap, i: nat, j: nat)
    requires Canonical(m.source) && ValidTarget(m.destination) && Expand(m).Some?
    requires i < |Expand(m).value| && j < |Expand(m).value|
    requires Expand(m).value[i].source.path != Expand(m).value[j].source.path
    ensures Expand(m).value[i].destination != Expand(m).value[j].destination
  {
    ExpansionTelescopes(m);
    hide Expand, Leaves, Canonical, ValidTarget, Nested;
    MovedApart(m, Leaves(m.source)[i], Leaves(m.source)[j]);
  }

  lemma MovedApart(m: FileMap, a: Entry, b: Entry)
    requires Below(m.source.path, a.path) && Below(m.source.path, b.path) && a.path != b.path
    ensures Moved(m, a) != Moved(m, b)
  {
    hide ValidTarget;
    TailsDiffer(m.source.path, a.path, b.path);
    Cancel(m.destination.path, a.path[|m.source.path|..], b.path[|m.source.path|..]);
  }

  lemma TailsDiffer(top: string, a: string, b: string)
    requires top <= a && top <= b && a != b
    ensures a[|top|..] != b[|top|..]
  {
    assert a == top + a[|top|..] && b == top + b[|top|..];
  }

  lemma Cancel(prefix: string, a: string, b: string)
    ensures prefix + a == prefix + b ==> a == b
  {
    assert a == (prefix + a)[|prefix|..] && b == (prefix + b)[|prefix|..];
  }

  // The valid relative paths are nonempty lists of plain components joined by
  // slashes, without NUL and backslash.
  lemma ValidPathMeans(p: string)
    ensures ValidRelativePath(p) <==>
      && '\0' !in p && '\\' !in p
      && exists parts :: parts != [] && AllPlain(parts) && p == Join(parts)
  {
    if ValidRelativePath(p) {
      ValidPathParts(p);
    }
    if '\0' !in p && '\\' !in p && exists parts :: parts != [] && AllPlain(parts) && p == Join(parts) {
      var parts :| parts != [] && AllPlain(parts) && p == Join(parts);
      PartsValidPath(parts);
    }
  }

  // Whatever the manifest says: a directory expands only to valid targets under
  // the root it was mapped to, and never to a directory.
  lemma {:induction false} TargetsAreValid(m: FileMap, fm: FileMap)
    requires m.source.kind.Directory? && Expand(m).Some? && fm in Expand(m).value
    ensures ValidTarget(fm.destination) && fm.destination.root == m.destination.root && !fm.source.kind.Directory?
    decreases m.source, |m.source.children| + 1
  {
    TargetsFromAreValid(m, 0, fm);
  }

  lemma {:induction false} TargetsFromAreValid(m: FileMap, i: nat, fm: FileMap)
    requires i <= |m.source.children| && ExpandFrom(m, i).Some? && fm in ExpandFrom(m, i).value
    ensures ValidTarget(fm.destination) && fm.destination.root == m.destination.root && !fm.source.kind.Directory?
    decreases m.source, |m.source.children| - i
  {
    hide ValidTarget;
    var cm := ChildMap(m, m.source.children[i]).value;
    ChildIsValid(m, m.source.children[i]);
    if fm in Expand(cm).value {
      if cm.source.kind.Directory? {
        TargetsAreValid(cm, fm);
      }
    } else {
      TargetsFromAreValid(m, i + 1, fm);
    }
  }

  lemma ChildIsValid(m: FileMap, child: Entry)
    ensures ChildMap(m, child).Some? ==>
      var t := ChildMap(m, child).value.destination;
      ValidTarget(t) && t.root == m.destination.root
  {
    hide ValidTarget;
  }
}
