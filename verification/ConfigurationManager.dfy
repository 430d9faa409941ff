/**
 * The manager object: its maps, and its methods cut at the points where
 * manager.mu is released.  Each method meets the region function that
 * ConfigurationRuns interleaves, and keeps CoreOk when it commits a
 * transaction that is still TxnOk.
 */
module ConfigurationManager {
  import opened Common
  import opened Configuration
  import SnapshotValidation

  class Manager {
    var api: Table
    var yaml: Table
    var retired: Table
    var snapshot: Table
    var generation: nat
    var pending: set<string>
    var quarantined: set<string>

    ghost function View(): Core
      reads this
    {
      Core(api, yaml, retired, snapshot, generation, pending, quarantined)
    }

    ghost predicate Valid()
      reads this
    {
      CoreOk(View())
    }

    // CreateConnection, first region.
    method BeginCreateConnection(id: string) returns (t: Option<Txn>)
      requires Valid()
      modifies this`pending
      ensures Valid()
      ensures t.Some? <==> (var k := Key(Connection, id);
        k !in api && k !in yaml && k !in retired && id !in quarantined && id !in old(pending))
      ensures t.Some? ==> t.value == Drafted(Key(Connection, id), generation, None) && pending == old(pending) + {id}
      ensures BeginCreate(old(View()), id) == if t.Some? then Some((View(), t.value)) else None
      ensures t.None? ==> View() == old(View())
    {
      var k := Key(Connection, id);
      if k in api || k in yaml || k in retired || id in quarantined || id in pending {
        return None;
      }
      pending := pending + {id};
      return Some(Drafted(k, generation, None));
    }

    // UpdateConnection, first region.
    method BeginPatchConnection(id: string, revision: string) returns (t: Option<Txn>)
      requires Valid()
      modifies this`pending
      ensures Valid()
      ensures t.Some? <==> (var k := Key(Connection, id);
        k in api && api[k].revision == revision && id !in old(pending))
      ensures t.Some? ==>
        t.value == Drafted(Key(Connection, id), generation, Some(revision)) && pending == old(pending) + {id}
      ensures BeginPatch(old(View()), id, revision) == if t.Some? then Some((View(), t.value)) else None
      ensures t.None? ==> View() == old(View())
    {
      var k := Key(Connection, id);
      if k !in api || api[k].revision != revision || id in pending {
        return None;
      }
      pending := pending + {id};
      return Some(Drafted(k, generation, Some(revision)));
    }

    // The candidate region of CreateConnection and UpdateConnection.
    method PrepareChange(t: Txn, r: Resource) returns (p: Option<Txn>)
      requires Valid() && t.Drafted?
      ensures p.Some? <==>
        && generation == t.base && r.key == t.key && r.source.Api?
        && (t.revision.None? ==> r.key !in api && r.key !in yaml && r.key !in retired)
        && (t.revision.Some? ==> r.key in api && api[r.key].revision == t.revision.value)
        && api[r.key := r].Keys !! yaml.Keys && ValidConfig(api[r.key := r] + yaml)
      ensures p.Some? ==> p.value == Prepared(r.key, generation, t.revision, Some(r), api[r.key := r] + yaml)
      ensures p == Prepare(View(), t, r)
    {
      if generation != t.base || r.key != t.key || !r.source.Api? {
        return None;
      }
      if t.revision.None? {
        if t.key in api || t.key in yaml || t.key in retired {
          return None;
        }
      } else if t.key !in api || api[t.key].revision != t.revision.value {
        return None;
      }
      var candidate := SnapshotValidation.SnapshotFor(api[t.key := r], yaml);
      if candidate.None? {
        return None;
      }
      return Some(Prepared(t.key, t.base, t.revision, Some(r), candidate.value));
    }

    // UpdateStorageRoot and UpdatePathMapping, first region.
    method BeginUpdateResource(r: Resource, revision: string) returns (t: Option<Txn>)
      requires Valid()
      ensures t.Some? <==>
        && !r.key.kind.Connection? && r.source.Api? && r.key in api && api[r.key].revision == revision
        && ValidConfig(api[r.key := r] + yaml)
      ensures t.Some? ==> t.value == Prepared(r.key, generation, Some(revision), Some(r), api[r.key := r] + yaml)
      ensures t == BeginUpdate(View(), r, revision)
    {
      if r.key.kind.Connection? || !r.source.Api? || r.key !in api || api[r.key].revision != revision {
        return None;
      }
      var candidate := SnapshotValidation.SnapshotFor(api[r.key := r], yaml);
      if candidate.None? {
        return None;
      }
      return Some(Prepared(r.key, generation, Some(revision), Some(r), candidate.value));
    }

    // One loop of connectionHasMappingsLocked and rootHasMappingsLocked.
    static method HasMappings(t: Table, k: Key) returns (found: bool)
      ensures found == AnyRefers(t, k)
      ensures found <==> exists m :: m in t && t[m].key.kind.Mapping?
                           && ((k.kind.Connection? && t[m].connection == k.id) || (k.kind.Root? && t[m].root == k.id))
    {
      var keys := t.Keys;
      while keys != {}
        invariant keys <= t.Keys
        invariant forall m :: m in t && m !in keys ==> !RefersTo(t[m], k)
        decreases |keys|
      {
        var m :| m in keys;
        if RefersTo(t[m], k) {
          return true;
        }
        keys := keys - {m};
      }
      return false;
    }

    // The retirement methods, first region.
    method BeginRetireResource(k: Key, revision: string) returns (t: Option<Txn>)
      requires Valid()
      modifies this`pending
      ensures Valid()
      ensures t.Some? <==>
        && k in api && api[k].revision == revision && (k.kind.Connection? ==> k.id !in old(pending))
        && (forall m | m in api && m.kind.Mapping? ::
              (k.kind.Connection? ==> api[m].connection != k.id) && (k.kind.Root? ==> api[m].root != k.id))
        && (forall m | m in yaml && m.kind.Mapping? ::
              (k.kind.Connection? ==> yaml[m].connection != k.id) && (k.kind.Root? ==> yaml[m].root != k.id))
        && ValidConfig((api - {k}) + yaml)
      ensures t.Some? ==> t.value == Prepared(k, generation, Some(revision), None, (api - {k}) + yaml)
      ensures BeginRetire(old(View()), k, revision) == if t.Some? then Some((View(), t.value)) else None
      ensures t.None? ==> View() == old(View())
    {
      if k !in api || api[k].revision != revision {
        return None;
      }
      var inApi := HasMappings(api, k);
      var inYaml := HasMappings(yaml, k);
      if inApi || inYaml || (k.kind.Connection? && k.id in pending) {
        return None;
      }
      var candidate := SnapshotValidation.SnapshotFor(api - {k}, yaml);
      if candidate.None? {
        return None;
      }
      if k.kind.Connection? {
        pending := pending + {k.id};
      }
      return Some(Prepared(k, generation, Some(revision), None, candidate.value));
    }

    // CreateStorageRoot and CreatePathMapping: insert, rebuild, undo on failure.
    method CreateResource(r: Resource) returns (ok: bool)
      requires Valid() && !r.key.kind.Connection? && r.source.Api?
      modifies this
      ensures Valid()
      ensures ok <==>
        && r.key !in old(api) && r.key !in yaml && r.key !in retired && ValidConfig(old(api)[r.key := r] + yaml)
      ensures ok ==> api == old(api)[r.key := r] && snapshot == api + yaml && generation == old(generation) + 1
      ensures yaml == old(yaml) && retired == old(retired) && pending == old(pending)
      ensures CreateNow(old(View()), r) == if ok then Some(View()) else None
      ensures !ok ==> View() == old(View())
    {
      hide ValidConfig;
      if r.key in api || r.key in yaml || r.key in retired {
        return false;
      }
      api := api[r.key := r];
      var rebuilt := SnapshotValidation.SnapshotFor(api, yaml);
      if rebuilt.None? {
        api := api - {r.key};
        assert api == old(api);
        return false;
      }
      CreateNowOk(old(View()), r);
      snapshot := rebuilt.value;
      generation := generation + 1;
      return true;
    }

    // The last region of the create, update and retire methods.
    method CommitTransaction(t: Txn) returns (ok: bool)
      requires Valid() && t.Prepared? && TxnOk(View(), t)
      modifies this
      ensures Valid()
      ensures ok <==>
        && old(generation) == t.base
        && (t.revision.None? ==> t.key !in old(api) && t.key !in yaml && t.key !in old(retired))
        && (t.revision.Some? ==> t.key in old(api) && old(api)[t.key].revision == t.revision.value)
      ensures ok ==> snapshot == t.candidate && generation == old(generation) + 1
      ensures ok && t.resource.Some? ==> api == old(api)[t.key := t.resource.value] && retired == old(retired)
      ensures ok && t.resource.None? ==>
        t.key in old(api) && api == old(api) - {t.key} && retired == old(retired)[t.key := old(api)[t.key]]
      ensures yaml == old(yaml) && pending == old(pending) && (!ok ==> View() == old(View()))
      ensures View() == CommitChange(old(View()), t) && ok == MayCommit(old(View()), t)
    {
      assert t.revision.None? ==> t.resource.Some?;
      hide ValidConfig, Merge, CoreOk, TxnOk;
      CommitChangeOk(View(), t);
      if generation != t.base {
        return false;
      }
      if t.revision.None? {
        if t.key in api || t.key in yaml || t.key in retired {
          return false;
        }
      } else if t.key !in api || api[t.key].revision != t.revision.value {
        return false;
      }
      Install(t);
      return true;
    }

    method Install(t: Txn)
      requires t.Prepared? && MayCommit(View(), t) && (t.resource.None? ==> t.key in api)
      modifies this
      ensures View() == CommitChange(old(View()), t)
    {
      if t.resource.Some? {
        api := api[t.key := t.resource.value];
      } else {
        retired := retired[t.key := api[t.key]];
        api := api - {t.key};
      }
      snapshot := t.candidate;
      generation := generation + 1;
    }

    // prepareYAMLActivationLocked
    method PrepareActivation(document: Table) returns (t: Option<Txn>)
      requires Valid() && YamlTable(document)
      ensures t.Some? <==>
        && document.Keys !! api.Keys && (forall k :: k in document && k in retired ==> retired[k].source.Yaml?)
        && ValidConfig(api + document)
      ensures t.Some? ==> t.value == Activating(generation, document, api + document)
      ensures t == BeginActivation(View(), document)
    {
      if document.Keys * api.Keys != {} {
        return None;
      }
      if exists k :: k in document && k in retired && retired[k].source.Api? {
        return None;
      }
      var candidate := SnapshotValidation.SnapshotFor(api, document);
      if candidate.None? {
        return None;
      }
      return Some(Activating(generation, document, candidate.value));
    }

    // commitYAMLActivationLocked, record by record.
    method CommitYaml(t: Txn) returns (ok: bool)
      requires Valid() && t.Activating? && TxnOk(View(), t)
      modifies this
      ensures Valid()
      ensures ok ==> yaml == t.yaml && snapshot == t.candidate && generation == old(generation) + 1
      ensures api == old(api) && pending == old(pending) && (!ok ==> View() == old(View()))
      ensures View() == CommitActivation(old(View()), t) && ok == (old(generation) == t.base)
    {
      hide ValidConfig, Merge;
      CommitActivationOk(View(), t);
      if generation != t.base {
        return false;
      }
      var tombstones := RetireRemoved(retired, yaml, t.yaml);
      retired := ForgetReturning(tombstones, t.yaml);
      yaml := t.yaml;
      snapshot := t.candidate;
      generation := generation + 1;
      return true;
    }

    static method RetireRemoved(before: Table, active: Table, document: Table) returns (after: Table)
      ensures after == before + (map k | k in active && k !in document :: active[k])
    {
      hide Removed;
      after := before;
      var keys := active.Keys;
      ghost var done: set<Key> := {};
      RemovedEnds(before, active, document);
      while keys != {}
        invariant keys !! done && keys + done == active.Keys
        invariant after == before + Removed(active, document, done)
        decreases |keys|
      {
        var k :| k in keys;
        RemoveOne(before, active, document, done, k);
        if k !in document {
          after := after[k := active[k]];
        }
        keys, done := keys - {k}, done + {k};
      }
    }

    static lemma RemovedEnds(before: Table, active: Table, document: Table)
      ensures before + Removed(active, document, {}) == before
      ensures Removed(active, document, active.Keys) == map k | k in active && k !in document :: active[k]
    {
      assert Removed(active, document, {}) == map[];
    }

    // The records among `done` that the document no longer has.
    static ghost function Removed(active: Table, document: Table, done: set<Key>): Table {
      map k | k in active && k in done && k !in document :: active[k]
    }

    static lemma RemoveOne(before: Table, active: Table, document: Table, done: set<Key>, k: Key)
      requires k in active
      ensures before + Removed(active, document, done + {k}) ==
              if k in document then before + Removed(active, document, done)
              else (before + Removed(active, document, done))[k := active[k]]
    {
      if k in document {
        assert Removed(active, document, done + {k}) == Removed(active, document, done);
      } else {
        assert Removed(active, document, done + {k}) == Removed(active, document, done)[k := active[k]];
      }
    }

    static method ForgetReturning(before: Table, document: Table) returns (after: Table)
      ensures after == map k | k in before && !(k in document && before[k].source.Yaml?) :: before[k]
    {
      after := before;
      var keys := document.Keys;
      while keys != {}
        invariant keys <= document.Keys
        invariant after == map k | k in before && !(k in document && k !in keys && before[k].source.Yaml?) :: before[k]
        decreases |keys|
      {
        var k :| k in keys;
        if k in after && after[k].source.Yaml? {
          after := after - {k};
        }
        keys := keys - {k};
      }
    }

    // A write with an unknown outcome, or a commit that came too late for it.
    method Quarantine(id: string)
      requires Valid()
      modifies this`quarantined
      ensures Valid() && View() == old(View()).(quarantined := old(quarantined) + {id})
    {
      quarantined := quarantined + {id};
    }

    // finishPendingConnection
    method FinishPending(id: string)
      requires Valid()
      modifies this`pending
      ensures Valid() && View() == old(View()).(pending := old(pending) - {id})
    {
      pending := pending - {id};
    }
  }
}
