/**
 * Remote namespace prefixes of path mappings
 * (internal/configuration/configuration.go, validateMappingAmbiguity and the
 * namespace functions it uses).
 */
module Namespace {
  import opened PathText

  // cleanSourcePrefix returns no error; it then returns its argument.
  predicate ValidSourcePrefix(value: string) {
    && value != "" && value[0] == '/'
    && '\0' !in value && '\\' !in value
    && Clean(value) == value
    && (value == "/" || AllPlain(Split(Trim(value))))
  }

  // namespaceComponentCount
  function ComponentCount(value: string): nat {
    var trimmed := Trim(value);
    if trimmed == "" then 0 else |Split(trimmed)|
  }

  // namespaceOverlaps
  predicate Overlaps(left: string, right: string) {
    left == "" || right == "" || left == "/" || right == "/" || left == right
  }

  datatype Mapping = Mapping(connection: string, prefix: string)

  // The pair test inside validateMappingAmbiguity.
  predicate Ambiguous(left: Mapping, right: Mapping) {
    && left.connection == right.connection
    && ComponentCount(left.prefix) == ComponentCount(right.prefix)
    && Overlaps(left.prefix, right.prefix)
  }

  predicate Unambiguous(ms: seq<Mapping>) {
    forall i, j :: 0 <= i < j < |ms| ==> !Ambiguous(ms[i], ms[j])
  }

  predicate ValidShapes(ms: seq<Mapping>) {
    forall i :: 0 <= i < |ms| ==> ValidSourcePrefix(ms[i].prefix)
  }

  // validateMappingAmbiguity
  method ValidateMappingAmbiguity(ms: seq<Mapping>) returns (ok: bool)
    ensures ok <==> Unambiguous(ms)
  {
    for i := 0 to |ms|
      invariant forall a, b :: 0 <= a < b < |ms| && a < i ==> !Ambiguous(ms[a], ms[b])
    {
      for j := i + 1 to |ms|
        invariant forall b :: i < b < j ==> !Ambiguous(ms[i], ms[b])
      {
        if ms[i].connection == ms[j].connection {
          if ComponentCount(ms[i].prefix) == ComponentCount(ms[j].prefix) {
            if Overlaps(ms[i].prefix, ms[j].prefix) {
              assert Ambiguous(ms[i], ms[j]);
              return false;
            }
          }
        }
      }
    }
    return true;
  }

  // -------------------------------------------------- what the check is for

  // A prefix contains a path at a component boundary.
  predicate Contains(prefix: string, path: string) {
    prefix == "/" || path == prefix || (prefix + "/") <= path
  }

  // The valid prefixes are a slash and plain components joined by slashes.
  lemma ValidPrefixMeans(value: string)
    ensures ValidSourcePrefix(value) <==>
      && '\0' !in value && '\\' !in value
      && exists parts :: AllPlain(parts) && value == "/" + Join(parts)
  {
    if ValidSourcePrefix(value) {
      if value == "/" {
        assert AllPlain([]) && value == "/" + Join([]);
      } else {
        CleanFixpointRooted(value);
      }
    }
    if exists parts :: AllPlain(parts) && value == "/" + Join(parts) {
      var parts :| AllPlain(parts) && value == "/" + Join(parts);
      JoinedIsClean(parts);
    }
  }

  lemma JoinedIsClean(parts: seq<string>)
    requires AllPlain(parts)
    ensures var value := "/" + Join(parts);
      && Clean(value) == value && (parts != [] ==> Split(Trim(value)) == parts)
      && ComponentCount(value) == |parts|
  {
    hide Reduce, Split;
    if parts == [] {
      RootIsClean();
    } else {
      JoinedReduces(parts);
      JoinedTrims(parts);
    }
  }

  lemma RootIsClean()
    ensures Join([]) == "" && Clean("/") == "/" && ComponentCount("/") == 0
  {
    assert "/"[1..] == "" && TrimLeft("/") == "";
    assert Split("/") == ["", ""];
    assert ["", ""][1..] == [""] && [""][1..] == [];
    assert Reduce([], ["", ""], true) == Reduce([], [""], true) == [];
  }

  lemma JoinedReduces(parts: seq<string>)
    requires AllPlain(parts) && parts != []
    ensures Reduce([], Split("/" + Join(parts)), true) == parts
  {
    SplitJoin(parts);
    assert ("/" + Join(parts))[1..] == Join(parts);
    assert Split("/" + Join(parts)) == [""] + parts;
    assert ([""] + parts)[1..] == parts && [] + parts == parts;
    ReducePlain([], parts, true);
  }

  lemma JoinedTrims(parts: seq<string>)
    requires AllPlain(parts) && parts != []
    ensures Trim("/" + Join(parts)) == Join(parts) != "" && Split(Join(parts)) == parts
  {
    hide Split, Join;
    SplitJoin(parts);
    JoinEnds(parts);
    var j := Join(parts);
    assert ("/" + j)[1..] == j;
    assert TrimLeft("/" + j) == TrimLeft(j) == j;
    assert TrimRight(j) == j;
  }

  // In components: a prefix contains what starts with its components, and its
  // specificity is their number.
  lemma ContainsMeans(a: seq<string>, b: seq<string>)
    requires AllPlain(a) && AllPlain(b)
    ensures Contains("/" + Join(a), "/" + Join(b)) <==> a <= b
    ensures ComponentCount("/" + Join(a)) == |a|
  {
    hide ComponentCount, Clean, Trim, Split, Join;
    JoinedIsClean(a);
    if a == [] {
      RootIsClean();
      assert Contains("/", "/" + Join(b));
    } else {
      PrefixContains(a, b);
    }
  }

  lemma PrefixContains(a: seq<string>, b: seq<string>)
    requires AllPlain(a) && AllPlain(b) && a != []
    ensures Contains("/" + Join(a), "/" + Join(b)) <==> a <= b
  {
    var l, r := "/" + Join(a), "/" + Join(b);
    hide Join;
    JoinEnds(a);
    if Contains(l, r) {
      InsideStarts(a, b);
    }
    assert a <= b && |a| == |b| ==> a == b;
    if a <= b && |a| < |b| {
      StartsInside(a, b);
    }
  }

  lemma StartsInside(a: seq<string>, b: seq<string>)
    requires a != [] && a < b
    ensures (("/" + Join(a)) + "/") <= "/" + Join(b)
  {
    hide Join;
    var rest := b[|a|..];
    assert b == a + rest;
    JoinConcat(a, rest);
    assert "/" + Join(b) == (("/" + Join(a)) + "/") + Join(rest);
  }

  lemma InsideStarts(a: seq<string>, b: seq<string>)
    requires AllPlain(a) && AllPlain(b) && a != [] && Join(a) != ""
    requires Contains("/" + Join(a), "/" + Join(b))
    ensures a <= b
  {
    hide Split;
    var l, r := "/" + Join(a), "/" + Join(b);
    assert l[1..] == Join(a) && r[1..] == Join(b);
    assert b != [];
    hide Join;
    SplitJoin(a);
    SplitJoin(b);
    if l != r {
      var rest := r[|l| + 1..];
      assert r == (l + "/") + rest;
      assert Join(b) == Join(a) + "/" + rest;
      SplitConcat(Join(a), rest);
    }
  }

  predicate MostSpecific(ms: seq<Mapping>, connection: string, path: string, i: int) {
    && 0 <= i < |ms| && ms[i].connection == connection && Contains(ms[i].prefix, path)
    && forall k :: 0 <= k < |ms| && ms[k].connection == connection && Contains(ms[k].prefix, path)
         ==> ComponentCount(ms[k].prefix) <= ComponentCount(ms[i].prefix)
  }

  predicate AbsolutePath(path: string) { path != "" && path[0] == '/' }

  // The components of a valid prefix.
  lemma PrefixParts(p: string) returns (parts: seq<string>)
    requires ValidSourcePrefix(p)
    ensures ComponentCount(p) == |parts| && p == "/" + Join(parts)
    ensures p != "/" ==> parts != [] && Parts(parts) && Split(Join(parts)) == parts
    ensures p == "/" <==> parts == []
  {
    if p == "/" {
      parts := [];
      assert TrimLeft(p) == TrimLeft([]) == [];
    } else {
      CleanFixpointRooted(p);
      parts := Split(Trim(p));
      JoinEnds(parts);
    }
  }

  // A prefix that lies strictly inside another valid prefix has fewer components.
  lemma LongerHasMoreComponents(l: string, r: string)
    requires ValidSourcePrefix(l) && ValidSourcePrefix(r) && l != "/" && (l + "/") <= r
    ensures ComponentCount(l) < ComponentCount(r)
  {
    var pl := PrefixParts(l);
    var pr := PrefixParts(r);
    var rest := r[|l| + 1..];
    assert Join(pr) == Join(pl) + "/" + rest by {
      assert r == (l + "/") + rest;
      assert r[1..] == l[1..] + "/" + rest;
      assert r[1..] == Join(pr) && l[1..] == Join(pl);
    }
    SplitConcat(Join(pl), rest);
  }

  lemma EqualCountContainersAgree(l: string, r: string, path: string)
    requires ValidSourcePrefix(l) && ValidSourcePrefix(r) && ComponentCount(l) == ComponentCount(r)
    requires Contains(l, path) && Contains(r, path)
    ensures l == r
  {
    var pl := PrefixParts(l);
    var pr := PrefixParts(r);
    if l != "/" && r != "/" {
      assert l == path[..|l|] && r == path[..|r|];
      if |l| < |r| {
        BoundaryPrefix(l, r, path);
        LongerHasMoreComponents(l, r);
      } else if |r| < |l| {
        BoundaryPrefix(r, l, path);
        LongerHasMoreComponents(r, l);
      }
    }
  }

  lemma BoundaryPrefix(l: string, r: string, path: string)
    requires (path == l || (l + "/") <= path) && r <= path && |l| < |r|
    ensures (l + "/") <= r
  {
    assert (l + "/")[|l|] == '/';
    assert r[..|l| + 1] == path[..|l| + 1] == l + "/";
  }

  lemma ContainedPrefixHasFewer(l: string, p: string)
    requires ValidSourcePrefix(l) && ValidSourcePrefix(p) && Contains(l, p)
    ensures ComponentCount(l) <= ComponentCount(p)
  {
    var pl := PrefixParts(l);
    if l != "/" && l != p {
      LongerHasMoreComponents(l, p);
    }
  }

  lemma AmbiguousPrefixesAgree(l: Mapping, r: Mapping)
    requires ValidSourcePrefix(l.prefix) && ValidSourcePrefix(r.prefix) && Ambiguous(l, r)
    ensures l.prefix == r.prefix
  {
    var pl := PrefixParts(l.prefix);
    var pr := PrefixParts(r.prefix);
  }

  // Main result: the accepted mapping lists are exactly those in which every
  // connection and every absolute path has at most one most specific mapping.
  lemma AcceptedMeansUniqueMostSpecific(ms: seq<Mapping>, connection: string, path: string, i: int, j: int)
    requires ValidShapes(ms) && Unambiguous(ms)
    requires MostSpecific(ms, connection, path, i) && MostSpecific(ms, connection, path, j)
    ensures i == j
  {
    EqualCountContainersAgree(ms[i].prefix, ms[j].prefix, path);
    assert Ambiguous(ms[i], ms[j]) && Ambiguous(ms[j], ms[i]);
  }

  lemma RejectedMeansTwoMostSpecific(ms: seq<Mapping>) returns (connection: string, path: string, i: int, j: int)
    requires ValidShapes(ms) && !Unambiguous(ms)
    ensures AbsolutePath(path) && i != j
    ensures MostSpecific(ms, connection, path, i) && MostSpecific(ms, connection, path, j)
  {
    i, j :| 0 <= i < j < |ms| && Ambiguous(ms[i], ms[j]);
    connection, path := ms[i].connection, ms[i].prefix;
    var pi := PrefixParts(ms[i].prefix);
    var pj := PrefixParts(ms[j].prefix);
    assert ms[i].prefix == ms[j].prefix;
    forall k | 0 <= k < |ms| && ms[k].connection == connection && Contains(ms[k].prefix, path)
      ensures ComponentCount(ms[k].prefix) <= ComponentCount(path)
    {
      ContainedPrefixHasFewer(ms[k].prefix, path);
    }
  }
}
