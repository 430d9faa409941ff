/**
 * ConfigurationSnapshot.Validate and validateSnapshot over the merged lists,
 * with its seen-id loops, proved to decide the table-level validity that
 * Configuration uses (internal/domain/configuration.go and
 * internal/configuration/configuration.go).
 */
module SnapshotValidation {
  import opened Common
  import opened Configuration
  import Namespace

  predicate Distinct(items: seq<Resource>) {
    forall i, j :: 0 <= i < j < |items| ==> items[i].key.id != items[j].key.id
  }

  predicate Lists(items: seq<Resource>, id: string) {
    exists i :: 0 <= i < |items| && items[i].key.id == id
  }

  predicate MappingOk(m: Resource, connections: seq<Resource>, roots: seq<Resource>) {
    m.wellFormed && Lists(connections, m.connection) && Lists(roots, m.root) && Namespace.ValidSourcePrefix(m.prefix)
  }

  predicate ValidLists(connections: seq<Resource>, roots: seq<Resource>, mappings: seq<Resource>) {
    && Distinct(connections) && Distinct(roots) && Distinct(mappings)
    && (forall i :: 0 <= i < |connections| ==> connections[i].wellFormed)
    && (forall i :: 0 <= i < |roots| ==> roots[i].wellFormed)
    && (forall i :: 0 <= i < |mappings| ==> MappingOk(mappings[i], connections, roots))
    && (forall i, j :: 0 <= i < j < |mappings| ==>
          !Namespace.Ambiguous(NamespaceOf(mappings[i]), NamespaceOf(mappings[j])))
  }

  // One pass with a seen-id map; stops at the first violation.
  method ScanIds(items: seq<Resource>) returns (ok: bool, seen: set<string>)
    ensures ok <==> Distinct(items) && forall i :: 0 <= i < |items| ==> items[i].wellFormed
    ensures ok ==> forall id :: id in seen <==> Lists(items, id)
  {
    seen := {};
    for i := 0 to |items|
      invariant forall j :: 0 <= j < i ==> items[j].wellFormed && items[j].key.id in seen
      invariant forall id :: id in seen ==> exists j :: 0 <= j < i && items[j].key.id == id
      invariant forall a, b :: 0 <= a < b < i ==> items[a].key.id != items[b].key.id
    {
      if !items[i].wellFormed || items[i].key.id in seen {
        return false, seen;
      }
      seen := seen + {items[i].key.id};
    }
    return true, seen;
  }

  method ScanMappings(mappings: seq<Resource>, connections: seq<Resource>, roots: seq<Resource>,
                      seenConnections: set<string>, seenRoots: set<string>) returns (ok: bool)
    requires forall id :: id in seenConnections <==> Lists(connections, id)
    requires forall id :: id in seenRoots <==> Lists(roots, id)
    ensures ok <==> Distinct(mappings) && forall i :: 0 <= i < |mappings| ==> MappingOk(mappings[i], connections, roots)
  {
    hide Namespace.ValidSourcePrefix;
    var seen := {};
    for i := 0 to |mappings|
      invariant forall j :: 0 <= j < i ==> MappingOk(mappings[j], connections, roots) && mappings[j].key.id in seen
      invariant forall id :: id in seen ==> exists j :: 0 <= j < i && mappings[j].key.id == id
      invariant forall a, b :: 0 <= a < b < i ==> mappings[a].key.id != mappings[b].key.id
    {
      var m := mappings[i];
      if !m.wellFormed || m.connection !in seenConnections || m.root !in seenRoots
         || !Namespace.ValidSourcePrefix(m.prefix) {
        assert !MappingOk(mappings[i], connections, roots);
        return false;
      }
      if m.key.id in seen {
        return false;
      }
      seen := seen + {m.key.id};
    }
    return true;
  }

  method Validate(connections: seq<Resource>, roots: seq<Resource>, mappings: seq<Resource>) returns (ok: bool)
    ensures ok <==> ValidLists(connections, roots, mappings)
  {
    hide Distinct, MappingOk, Lists, Namespace.Unambiguous, Namespace.Ambiguous;
    var seenConnections, seenRoots;
    ok, seenConnections := ScanIds(connections);
    if !ok { return false; }
    ok, seenRoots := ScanIds(roots);
    if !ok { return false; }
    ok := ScanMappings(mappings, connections, roots, seenConnections, seenRoots);
    if !ok { return false; }
    var namespaces := seq(|mappings|, i requires 0 <= i < |mappings| => NamespaceOf(mappings[i]));
    ok := Namespace.ValidateMappingAmbiguity(namespaces);
    UnambiguousLists(mappings, namespaces);
  }

  lemma UnambiguousLists(mappings: seq<Resource>, namespaces: seq<Namespace.Mapping>)
    requires |namespaces| == |mappings|
    requires forall i :: 0 <= i < |mappings| ==> namespaces[i] == NamespaceOf(mappings[i])
    ensures Namespace.Unambiguous(namespaces) <==>
            forall i, j :: 0 <= i < j < |mappings| ==>
              !Namespace.Ambiguous(NamespaceOf(mappings[i]), NamespaceOf(mappings[j]))
  {
    if forall i, j :: 0 <= i < j < |mappings| ==>
      !Namespace.Ambiguous(NamespaceOf(mappings[i]), NamespaceOf(mappings[j])) {
      assert forall i, j :: 0 <= i < j < |namespaces| ==> !Namespace.Ambiguous(namespaces[i], namespaces[j]);
    } else {
      var i, j :| 0 <= i < j < |mappings| && Namespace.Ambiguous(NamespaceOf(mappings[i]), NamespaceOf(mappings[j]));
      assert Namespace.Ambiguous(namespaces[i], namespaces[j]);
    }
  }

  // ------------------------------------------------------ lists and tables

  predicate Keyed(t: Table) { forall k :: k in t ==> t[k].key == k }

  // The list holds exactly the records of one kind, each once, in any order.
  predicate Listing(items: seq<Resource>, t: Table, kind: Kind) {
    && (forall i :: 0 <= i < |items| ==> items[i].key in t && items[i].key.kind == kind && t[items[i].key] == items[i])
    && (forall k :: k in t && k.kind == kind ==> t[k] in items)
    && Distinct(items)
  }

  method Collect(t: Table, kind: Kind) returns (items: seq<Resource>)
    requires Keyed(t)
    ensures Listing(items, t, kind)
  {
    items := [];
    var keys := t.Keys;
    while keys != {}
      invariant keys <= t.Keys
      invariant forall i :: 0 <= i < |items| ==>
                  items[i].key in t && items[i].key !in keys && items[i].key.kind == kind && t[items[i].key] == items[i]
      invariant forall k :: k in t && k !in keys && k.kind == kind ==> t[k] in items
      invariant Distinct(items)
      decreases |keys|
    {
      var k :| k in keys;
      if k.kind == kind {
        items := items + [t[k]];
      }
      keys := keys - {k};
    }
  }

  // The merged list of one kind, mergeConnections and its siblings before the sort.
  lemma MergedListing(a: seq<Resource>, b: seq<Resource>, api: Table, yaml: Table, kind: Kind)
    requires Keyed(api) && Keyed(yaml) && api.Keys !! yaml.Keys
    requires Listing(a, api, kind) && Listing(b, yaml, kind)
    ensures Listing(a + b, api + yaml, kind)
  {
    var items := a + b;
    forall i, j | 0 <= i < j < |items| ensures items[i].key.id != items[j].key.id {
      if i < |a| <= j {
        assert items[i] == a[i] && items[j] == b[j - |a|];
        assert items[i].key == Key(kind, items[i].key.id) && items[j].key == Key(kind, items[j].key.id);
      }
    }
  }

  lemma SharedKeyRepeats(a: seq<Resource>, b: seq<Resource>, api: Table, yaml: Table, k: Key)
    requires Keyed(api) && Keyed(yaml) && k in api && k in yaml
    requires Listing(a, api, k.kind) && Listing(b, yaml, k.kind)
    ensures !Distinct(a + b)
  {
    var i :| 0 <= i < |a| && a[i] == api[k];
    var j :| 0 <= j < |b| && b[j] == yaml[k];
    var items := a + b;
    assert items[i].key == k && items[|a| + j].key == k;
  }

  lemma ListedIffKeyed(items: seq<Resource>, t: Table, kind: Kind, id: string)
    requires Keyed(t) && Listing(items, t, kind)
    ensures Lists(items, id) <==> Key(kind, id) in t
  {
    if Key(kind, id) in t {
      var i :| 0 <= i < |items| && items[i] == t[Key(kind, id)];
      assert items[i].key.id == id;
    }
    if Lists(items, id) {
      var i :| 0 <= i < |items| && items[i].key.id == id;
      assert items[i].key == Key(kind, id);
    }
  }

  lemma ListsDecideConfig(c: seq<Resource>, r: seq<Resource>, m: seq<Resource>, t: Table)
    requires Keyed(t) && Listing(c, t, Connection) && Listing(r, t, Root) && Listing(m, t, Mapping)
    ensures ValidLists(c, r, m) <==> ValidConfig(t)
  {
    hide Namespace.ValidSourcePrefix, Namespace.Ambiguous;
    if ValidConfig(t) {
      ConfigMakesLists(c, r, m, t);
    }
    if ValidLists(c, r, m) {
      ListsMakeConfig(c, r, m, t);
    }
  }

  lemma ConfigMakesLists(c: seq<Resource>, r: seq<Resource>, m: seq<Resource>, t: Table)
    requires Keyed(t) && Listing(c, t, Connection) && Listing(r, t, Root) && Listing(m, t, Mapping) && ValidConfig(t)
    ensures ValidLists(c, r, m)
  {
    hide Namespace.ValidSourcePrefix, Namespace.Ambiguous, Lists;
    forall i | 0 <= i < |m| ensures MappingOk(m[i], c, r) {
      assert m[i].key in t && Resolves(t[m[i].key], t);
      ListedIffKeyed(c, t, Connection, m[i].connection);
      ListedIffKeyed(r, t, Root, m[i].root);
    }
    forall i, j | 0 <= i < j < |m| ensures !Namespace.Ambiguous(NamespaceOf(m[i]), NamespaceOf(m[j])) {
      assert m[i].key in t && m[j].key in t && m[i].key != m[j].key;
    }
  }

  lemma ListsMakeConfig(c: seq<Resource>, r: seq<Resource>, m: seq<Resource>, t: Table)
    requires Keyed(t) && Listing(c, t, Connection) && Listing(r, t, Root) && Listing(m, t, Mapping)
    requires ValidLists(c, r, m)
    ensures ValidConfig(t)
  {
    hide Namespace.ValidSourcePrefix, Namespace.Ambiguous, Lists;
    forall k | k in t ensures t[k].wellFormed && (k.kind.Mapping? ==> Resolves(t[k], t)) {
      var items := match k.kind case Connection => c case Root => r case Mapping => m;
      assert Listing(items, t, k.kind);
      var i :| 0 <= i < |items| && items[i] == t[k];
      if k.kind.Mapping? {
        assert MappingOk(m[i], c, r);
        ListedIffKeyed(c, t, Connection, m[i].connection);
        ListedIffKeyed(r, t, Root, m[i].root);
      }
    }
    forall j, k | j in t && k in t && j.kind.Mapping? && k.kind.Mapping? && j != k
      ensures !Namespace.Ambiguous(NamespaceOf(t[j]), NamespaceOf(t[k]))
    {
      PairUnambiguous(m, t, j, k);
    }
  }

  lemma PairUnambiguous(m: seq<Resource>, t: Table, j: Key, k: Key)
    requires Keyed(t) && Listing(m, t, Mapping) && j in t && k in t && j.kind.Mapping? && k.kind.Mapping? && j != k
    requires forall a, b :: 0 <= a < b < |m| ==> !Namespace.Ambiguous(NamespaceOf(m[a]), NamespaceOf(m[b]))
    ensures !Namespace.Ambiguous(NamespaceOf(t[j]), NamespaceOf(t[k]))
  {
    var a :| 0 <= a < |m| && m[a] == t[j];
    var b :| 0 <= b < |m| && m[b] == t[k];
    AmbiguousSymmetric(NamespaceOf(t[j]), NamespaceOf(t[k]));
    assert a != b;
  }

  lemma AmbiguousSymmetric(left: Namespace.Mapping, right: Namespace.Mapping)
    ensures Namespace.Ambiguous(left, right) <==> Namespace.Ambiguous(right, left)
  {
  }

  // snapshotForStateLocked: list both tables, concatenate kind by kind, validate.
  method SnapshotFor(api: Table, yaml: Table) returns (r: Option<Table>)
    requires Keyed(api) && Keyed(yaml)
    ensures r == Merge(api, yaml)
  {
    hide ValidLists, Listing, ValidConfig;
    var ac := Collect(api, Connection);
    var ar := Collect(api, Root);
    var am := Collect(api, Mapping);
    var yc := Collect(yaml, Connection);
    var yr := Collect(yaml, Root);
    var ym := Collect(yaml, Mapping);
    var ok := Validate(ac + yc, ar + yr, am + ym);
    MergeDecided(api, yaml, ac, ar, am, yc, yr, ym);
    return if ok then Some(api + yaml) else None;
  }

  lemma MergeDecided(api: Table, yaml: Table, ac: seq<Resource>, ar: seq<Resource>, am: seq<Resource>,
                     yc: seq<Resource>, yr: seq<Resource>, ym: seq<Resource>)
    requires Keyed(api) && Keyed(yaml)
    requires Listing(ac, api, Connection) && Listing(ar, api, Root) && Listing(am, api, Mapping)
    requires Listing(yc, yaml, Connection) && Listing(yr, yaml, Root) && Listing(ym, yaml, Mapping)
    ensures ValidLists(ac + yc, ar + yr, am + ym) <==> Merge(api, yaml).Some?
  {
    hide Listing, ValidConfig, Distinct, MappingOk, Namespace.Ambiguous;
    if api.Keys !! yaml.Keys {
      MergedListing(ac, yc, api, yaml, Connection);
      MergedListing(ar, yr, api, yaml, Root);
      MergedListing(am, ym, api, yaml, Mapping);
      ListsDecideConfig(ac + yc, ar + yr, am + ym, api + yaml);
    } else {
      var k :| k in api && k in yaml;
      match k.kind
      case Connection => SharedKeyRepeats(ac, yc, api, yaml, k);
      case Root => SharedKeyRepeats(ar, yr, api, yaml, k);
      case Mapping => SharedKeyRepeats(am, ym, api, yaml, k);
    }
  }
}
