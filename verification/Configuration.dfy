/**
 * The configuration manager's state and its locked regions
 * (internal/configuration/configuration.go) and the validation that guards
 * every commit (internal/domain/configuration.go).
 *
 * The six maps of the manager are two tables keyed by (kind, id); the three
 * tombstone maps are a third.  Every region under manager.mu is one function.
 */
module Configuration {
  import opened Common
  import Namespace

  datatype Kind = Connection | Root | Mapping
  datatype Source = Api | Yaml
  datatype Key = Key(kind: Kind, id: string)

  // `wellFormed` is the outcome of the field checks (labels, URLs, intervals,
  // root paths, destination prefixes); revisions are arbitrary text.
  datatype Resource = Resource(key: Key, source: Source, revision: string, wellFormed: bool,
                               connection: string, root: string, prefix: string)

  type Table = map<Key, Resource>

  function NamespaceOf(r: Resource): Namespace.Mapping { Namespace.Mapping(r.connection, r.prefix) }

  predicate Resolves(r: Resource, t: Table) {
    Key(Connection, r.connection) in t && Key(Root, r.root) in t && Namespace.ValidSourcePrefix(r.prefix)
  }

  // The merged view passes validateSnapshot.
  ghost predicate ValidConfig(t: Table) {
    && (forall k :: k in t ==> t[k].wellFormed)
    && (forall k :: k in t && k.kind.Mapping? ==> Resolves(t[k], t))
    && (forall j, k :: j in t && k in t && j.kind.Mapping? && k.kind.Mapping? && j != k ==>
          !Namespace.Ambiguous(NamespaceOf(t[j]), NamespaceOf(t[k])))
  }

  // snapshotForStateLocked: merging tables that share a key makes a duplicate id.
  ghost function Merge(api: Table, yaml: Table): Option<Table> {
    if api.Keys !! yaml.Keys && ValidConfig(api + yaml) then Some(api + yaml) else None
  }

  // ------------------------------------------------------------------ state

  datatype Core = Core(api: Table, yaml: Table, retired: Table, snapshot: Table, generation: nat, pending: set<string>,
                       quarantined: set<string>)

  // What a running transaction carries between its locked regions.  `revision`
  // is None for a create; `resource` is None for a retirement.
  datatype Txn =
    | Drafted(key: Key, base: nat, revision: Option<string>)
    | Prepared(key: Key, base: nat, revision: Option<string>, resource: Option<Resource>, candidate: Table)
    | Activating(base: nat, yaml: Table, candidate: Table)
    | Closing(id: string)

  predicate Owned(c: Core, k: Key) { k in c.api || k in c.yaml || k in c.retired }

  predicate Current(c: Core, k: Key, revision: string) { k in c.api && c.api[k].revision == revision }

  predicate ApiTable(t: Table) { forall k :: k in t ==> t[k].key == k && t[k].source.Api? }

  predicate YamlTable(t: Table) { forall k :: k in t ==> t[k].key == k && t[k].source.Yaml? }

  predicate RefersTo(r: Resource, k: Key) {
    r.key.kind.Mapping? && ((k.kind.Connection? && r.connection == k.id) || (k.kind.Root? && r.root == k.id))
  }

  predicate AnyRefers(t: Table, k: Key) { exists m :: m in t && RefersTo(t[m], k) }

  predicate Referenced(c: Core, k: Key) { AnyRefers(c.api, k) || AnyRefers(c.yaml, k) }

  // -------------------------------------------------------- locked regions

  // CreateConnection, first region.
  function BeginCreate(c: Core, id: string): Option<(Core, Txn)> {
    var k := Key(Connection, id);
    if Owned(c, k) || id in c.quarantined || id in c.pending then None
    else Some((c.(pending := c.pending + {id}), Drafted(k, c.generation, None)))
  }

  // UpdateConnection, first region.
  function BeginPatch(c: Core, id: string, revision: string): Option<(Core, Txn)> {
    var k := Key(Connection, id);
    if !Current(c, k, revision) || id in c.pending then None
    else Some((c.(pending := c.pending + {id}), Drafted(k, c.generation, Some(revision))))
  }

  // The second region of CreateConnection and UpdateConnection.
  ghost function Prepare(c: Core, t: Txn, r: Resource): Option<Txn>
    requires t.Drafted?
  {
    if || c.generation != t.base || r.key != t.key || !r.source.Api?
       || (if t.revision.None? then Owned(c, t.key) else !Current(c, t.key, t.revision.value)) then None
    else match Merge(c.api[t.key := r], c.yaml)
      case None => None
      case Some(candidate) => Some(Prepared(t.key, t.base, t.revision, Some(r), candidate))
  }

  // UpdateStorageRoot and UpdatePathMapping, first region.
  ghost function BeginUpdate(c: Core, r: Resource, revision: string): Option<Txn> {
    if r.key.kind.Connection? || !r.source.Api? || !Current(c, r.key, revision) then None
    else match Merge(c.api[r.key := r], c.yaml)
      case None => None
      case Some(candidate) => Some(Prepared(r.key, c.generation, Some(revision), Some(r), candidate))
  }

  // The retirement methods, first region.
  ghost function BeginRetire(c: Core, k: Key, revision: string): Option<(Core, Txn)> {
    if !Current(c, k, revision) || Referenced(c, k) || (k.kind.Connection? && k.id in c.pending) then None
    else match Merge(c.api - {k}, c.yaml)
      case None => None
      case Some(candidate) =>
        Some((if k.kind.Connection? then c.(pending := c.pending + {k.id}) else c,
              Prepared(k, c.generation, Some(revision), None, candidate)))
  }

  // CreateStorageRoot and CreatePathMapping: a single region.
  ghost function CreateNow(c: Core, r: Resource): Option<Core> {
    if r.key.kind.Connection? || !r.source.Api? || Owned(c, r.key) then None
    else match Merge(c.api[r.key := r], c.yaml)
      case None => None
      case Some(merged) => Some(c.(api := c.api[r.key := r], snapshot := merged, generation := c.generation + 1))
  }

  // prepareYAMLActivationLocked
  ghost function BeginActivation(c: Core, yaml: Table): Option<Txn> {
    if || !YamlTable(yaml) || !(yaml.Keys !! c.api.Keys)
       || (exists k :: k in yaml && k in c.retired && c.retired[k].source.Api?) then None
    else match Merge(c.api, yaml)
      case None => None
      case Some(candidate) => Some(Activating(c.generation, yaml, candidate))
  }

  // The last region of the create, update and retire methods.
  predicate MayCommit(c: Core, t: Txn)
    requires t.Prepared?
  {
    c.generation == t.base && if t.revision.None? then !Owned(c, t.key) else Current(c, t.key, t.revision.value)
  }

  function CommitChange(c: Core, t: Txn): Core
    requires t.Prepared?
  {
    if !MayCommit(c, t) then c
    else
      var done := c.(snapshot := t.candidate, generation := c.generation + 1);
      match t.resource
      case Some(r) => done.(api := c.api[t.key := r])
      case None => if t.key in c.api
        then done.(api := c.api - {t.key}, retired := c.retired[t.key := c.api[t.key]])
        else done
  }

  // commitYAMLActivationLocked: removed records become tombstones, returning
  // YAML records lose theirs.
  function RetiredAfter(c: Core, yaml: Table): Table {
    var removed := c.retired + (map k | k in c.yaml && k !in yaml :: c.yaml[k]);
    map k | k in removed && !(k in yaml && removed[k].source.Yaml?) :: removed[k]
  }

  function CommitActivation(c: Core, t: Txn): Core
    requires t.Activating?
  {
    if c.generation != t.base then c
    else c.(retired := RetiredAfter(c, t.yaml), yaml := t.yaml, snapshot := t.candidate, generation := c.generation + 1)
  }

  function Commit(c: Core, t: Txn): Core
    requires t.Prepared? || t.Activating?
  {
    if t.Prepared? then CommitChange(c, t) else CommitActivation(c, t)
  }

  predicate Commits(c: Core, t: Txn)
    requires t.Prepared? || t.Activating?
  {
    if t.Prepared? then MayCommit(c, t) else c.generation == t.base
  }

  // -------------------------------------------------------------- invariant

  // The cached snapshot is the validated merge of the current tables, and a key
  // is API-active, YAML-active or retired, never two of these.
  ghost predicate CoreOk(c: Core) {
    && ApiTable(c.api) && YamlTable(c.yaml) && (forall k :: k in c.retired ==> c.retired[k].key == k)
    && c.api.Keys !! c.yaml.Keys && c.api.Keys !! c.retired.Keys && c.yaml.Keys !! c.retired.Keys
    && Merge(c.api, c.yaml) == Some(c.snapshot)
  }

  // A transaction whose base is still the current generation carries the
  // validated merge of what its commit would leave behind.
  ghost predicate TxnOk(c: Core, t: Txn) {
    match t
    case Drafted(k, base, _) => base <= c.generation && k.kind.Connection?
    case Prepared(k, base, revision, resource, candidate) =>
      && base <= c.generation
      && (resource.Some? ==> resource.value.key == k && resource.value.source.Api?)
      && (revision.None? ==> resource.Some?)
      && (base == c.generation ==>
            Merge(if resource.Some? then c.api[k := resource.value] else c.api - {k}, c.yaml) == Some(candidate))
    case Activating(base, yaml, candidate) =>
      && base <= c.generation && YamlTable(yaml)
      && (base == c.generation ==>
            && Merge(c.api, yaml) == Some(candidate)
            && forall k :: k in yaml && k in c.retired ==> c.retired[k].source.Yaml?)
    case Closing(_) => true
  }

  // Who owns an id, also after it is retired.
  function Owner(c: Core, k: Key): Option<Source> {
    if k in c.api then Some(Api) else if k in c.yaml then Some(Yaml)
    else if k in c.retired then Some(c.retired[k].source) else None
  }

  lemma CommitChangeOk(c: Core, t: Txn)
    requires CoreOk(c) && t.Prepared? && TxnOk(c, t)
    ensures CoreOk(CommitChange(c, t))
  {
    hide ValidConfig, Merge;
    if MayCommit(c, t) && t.resource.None? {
      RetireOk(c, t);
    }
  }

  lemma RetireOk(c: Core, t: Txn)
    requires CoreOk(c) && t.Prepared? && TxnOk(c, t) && MayCommit(c, t) && t.resource.None?
    ensures CoreOk(CommitChange(c, t))
  {
    hide ValidConfig, Merge;
    var c' := CommitChange(c, t);
    assert c'.api.Keys == c.api.Keys - {t.key};
    assert c'.retired.Keys == c.retired.Keys + {t.key};
  }

  lemma CommitChangeKeepsOwners(c: Core, t: Txn)
    requires CoreOk(c) && t.Prepared? && TxnOk(c, t)
    ensures forall k :: Owner(c, k).Some? ==> Owner(CommitChange(c, t), k) == Owner(c, k)
  {
    hide ValidConfig, Merge;
  }

  lemma CommitActivationOk(c: Core, t: Txn)
    requires CoreOk(c) && t.Activating? && TxnOk(c, t)
    ensures CoreOk(CommitActivation(c, t))
  {
    hide ValidConfig;
  }

  lemma CommitActivationKeepsOwners(c: Core, t: Txn)
    requires CoreOk(c) && t.Activating? && TxnOk(c, t)
    ensures forall k :: Owner(c, k).Some? ==> Owner(CommitActivation(c, t), k) == Owner(c, k)
  {
    hide ValidConfig;
  }

  lemma CreateNowOk(c: Core, r: Resource)
    requires CoreOk(c) && CreateNow(c, r).Some?
    ensures CoreOk(CreateNow(c, r).value)
    ensures forall k :: Owner(c, k).Some? ==> Owner(CreateNow(c, r).value, k) == Owner(c, k)
  {
    hide ValidConfig;
  }

  // Every active mapping refers to an active connection and an active root.
  lemma SnapshotReferencesResolve(c: Core, k: Key)
    requires CoreOk(c) && k in c.snapshot && k.kind.Mapping?
    ensures Key(Connection, c.snapshot[k].connection) in c.snapshot
    ensures Key(Root, c.snapshot[k].root) in c.snapshot
    ensures c.snapshot == c.api + c.yaml
  {
    assert Resolves(c.snapshot[k], c.snapshot);
  }

  // ------------------------------------------------- what validity is for

  // Mapping k serves the path best: it contains it with the most components.
  predicate Best(t: Table, connection: string, path: string, k: Key) {
    && k in t && k.kind.Mapping? && t[k].connection == connection && Namespace.Contains(t[k].prefix, path)
    && forall m :: m in t && m.kind.Mapping? && t[m].connection == connection && Namespace.Contains(t[m].prefix, path) ==>
         Namespace.ComponentCount(t[m].prefix) <= Namespace.ComponentCount(t[k].prefix)
  }

  // A table is valid exactly when its records are well-formed, its mappings
  // refer to records of the table through canonical prefixes, and no remote path
  // has two best mappings.
  lemma ValidConfigMeans(t: Table)
    ensures ValidConfig(t) <==>
      && (forall k :: k in t ==> t[k].wellFormed)
      && (forall k :: k in t && k.kind.Mapping? ==>
            && Key(Connection, t[k].connection) in t && Key(Root, t[k].root) in t
            && Namespace.ValidSourcePrefix(t[k].prefix))
      && (forall connection, path, j, k :: Best(t, connection, path, j) && Best(t, connection, path, k) ==> j == k)
  {
    hide Namespace.ValidSourcePrefix, Namespace.Ambiguous, Best;
    if ValidConfig(t) {
      forall connection, path, j, k | Best(t, connection, path, j) && Best(t, connection, path, k) ensures j == k {
        BestIsUnique(t, connection, path, j, k);
      }
    } else if (forall k :: k in t ==> t[k].wellFormed) && (forall k :: k in t && k.kind.Mapping? ==> Resolves(t[k], t)) {
      var j, k :| j in t && k in t && j.kind.Mapping? && k.kind.Mapping? && j != k
                  && Namespace.Ambiguous(NamespaceOf(t[j]), NamespaceOf(t[k]));
      AmbiguousAreBest(t, j, k);
    }
  }

  lemma BestIsUnique(t: Table, connection: string, path: string, j: Key, k: Key)
    requires ValidConfig(t) && Best(t, connection, path, j) && Best(t, connection, path, k)
    ensures j == k
  {
    hide Namespace.Contains, Namespace.ComponentCount, Namespace.ValidSourcePrefix;
    assert Resolves(t[j], t) && Resolves(t[k], t);
    Namespace.EqualCountContainersAgree(t[j].prefix, t[k].prefix, path);
    assert Namespace.Ambiguous(NamespaceOf(t[j]), NamespaceOf(t[k]));
  }

  lemma AmbiguousAreBest(t: Table, j: Key, k: Key)
    requires forall m :: m in t && m.kind.Mapping? ==> Resolves(t[m], t)
    requires j in t && k in t && j.kind.Mapping? && k.kind.Mapping?
    requires Namespace.Ambiguous(NamespaceOf(t[j]), NamespaceOf(t[k]))
    ensures Best(t, t[j].connection, t[j].prefix, j) && Best(t, t[j].connection, t[j].prefix, k)
  {
    var path := t[j].prefix;
    assert Resolves(t[j], t) && Resolves(t[k], t);
    Namespace.AmbiguousPrefixesAgree(NamespaceOf(t[j]), NamespaceOf(t[k]));
    hide Namespace.ValidSourcePrefix, Namespace.ComponentCount;
    forall m | m in t && m.kind.Mapping? && Namespace.Contains(t[m].prefix, path)
      ensures Namespace.ComponentCount(t[m].prefix) <= Namespace.ComponentCount(path)
    {
      assert Resolves(t[m], t);
      Namespace.ContainedPrefixHasFewer(t[m].prefix, path);
    }
  }
}
