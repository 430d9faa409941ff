/**
 * Arbitrary interleavings of the configuration manager's transactions.
 */
module ConfigurationRuns {
  import opened Common
  import opened Configuration

  datatype Sys = Sys(core: Core, txns: map<nat, Txn>)

  datatype Event =
    | OpenCreate(t: nat, id: string)
    | OpenPatch(t: nat, id: string, revision: string)
    | PrepareTxn(t: nat, resource: Resource)
    | OpenUpdate(t: nat, resource: Resource, revision: string)
    | OpenRetire(t: nat, key: Key, revision: string)
    | CreateDirect(resource: Resource)
    | OpenActivation(t: nat, yaml: Table)
    | QuarantineTxn(t: nat)         // the credential write of a connection transaction is in doubt
    | CommitTxn(t: nat)
    | AbortTxn(t: nat)              // a callback, validation or credential failure
    | CloseTxn(t: nat)              // the deferred finishPendingConnection

  // The connection id a transaction keeps pending.
  function Held(t: Txn): Option<string> {
    match t
    case Drafted(k, _, _) => Some(k.id)
    case Prepared(k, _, _, _, _) => if k.kind.Connection? then Some(k.id) else None
    case Activating(_, _, _) => None
    case Closing(id) => Some(id)
  }

  function Ended(txns: map<nat, Txn>, t: nat): map<nat, Txn>
    requires t in txns
  {
    match Held(txns[t])
    case Some(id) => txns[t := Closing(id)]
    case None => txns - {t}
  }

  ghost predicate Next(s: Sys, e: Event, s': Sys) {
    match e
    case OpenCreate(t, id) =>
      t !in s.txns && BeginCreate(s.core, id).Some? &&
      var (c, txn) := BeginCreate(s.core, id).value; s' == Sys(c, s.txns[t := txn])
    case OpenPatch(t, id, revision) =>
      t !in s.txns && BeginPatch(s.core, id, revision).Some? &&
      var (c, txn) := BeginPatch(s.core, id, revision).value; s' == Sys(c, s.txns[t := txn])
    case PrepareTxn(t, r) =>
      t in s.txns && s.txns[t].Drafted? && Prepare(s.core, s.txns[t], r).Some? &&
      s' == s.(txns := s.txns[t := Prepare(s.core, s.txns[t], r).value])
    case OpenUpdate(t, r, revision) =>
      t !in s.txns && BeginUpdate(s.core, r, revision).Some? &&
      s' == s.(txns := s.txns[t := BeginUpdate(s.core, r, revision).value])
    case OpenRetire(t, k, revision) =>
      t !in s.txns && BeginRetire(s.core, k, revision).Some? &&
      var (c, txn) := BeginRetire(s.core, k, revision).value; s' == Sys(c, s.txns[t := txn])
    case CreateDirect(r) =>
      CreateNow(s.core, r).Some? && s' == s.(core := CreateNow(s.core, r).value)
    case OpenActivation(t, yaml) =>
      t !in s.txns && BeginActivation(s.core, yaml).Some? &&
      s' == s.(txns := s.txns[t := BeginActivation(s.core, yaml).value])
    case QuarantineTxn(t) =>
      t in s.txns && s.txns[t].Prepared? && s.txns[t].key.kind.Connection? &&
      s' == s.(core := s.core.(quarantined := s.core.quarantined + {s.txns[t].key.id}))
    case CommitTxn(t) =>
      t in s.txns && (s.txns[t].Prepared? || s.txns[t].Activating?) &&
      s' == Sys(Commit(s.core, s.txns[t]), Ended(s.txns, t))
    case AbortTxn(t) =>
      t in s.txns && !s.txns[t].Closing? && s' == s.(txns := Ended(s.txns, t))
    case CloseTxn(t) =>
      t in s.txns && s.txns[t].Closing? &&
      s' == Sys(s.core.(pending := s.core.pending - {s.txns[t].id}), s.txns - {t})
  }

  // --------------------------------------------------------------- invariant

  ghost predicate PendingOk(s: Sys) {
    && (forall t :: t in s.txns && Held(s.txns[t]).Some? ==> Held(s.txns[t]).value in s.core.pending)
    && (forall t, u :: t in s.txns && u in s.txns && t != u && Held(s.txns[t]).Some? ==>
      Held(s.txns[t]) != Held(s.txns[u]))
  }

  ghost predicate TxnsOk(s: Sys) { forall t :: t in s.txns ==> TxnOk(s.core, s.txns[t]) }

  ghost predicate Inv(s: Sys) { CoreOk(s.core) && TxnsOk(s) && PendingOk(s) }

  lemma PendingAdd(s: Sys, s': Sys, t: nat, txn: Txn, id: string)
    requires PendingOk(s) && t !in s.txns && s'.txns == s.txns[t := txn] && Held(txn) == Some(id)
    requires id !in s.core.pending && s'.core.pending == s.core.pending + {id}
    ensures PendingOk(s')
  {
  }

  lemma PendingSame(s: Sys, s': Sys)
    requires PendingOk(s) && s'.core.pending == s.core.pending
    requires forall t :: t in s'.txns && Held(s'.txns[t]).Some? ==> t in s.txns && Held(s.txns[t]) == Held(s'.txns[t])
    ensures PendingOk(s')
  {
  }

  lemma PendingClose(s: Sys, s': Sys, t: nat)
    requires PendingOk(s) && t in s.txns && s.txns[t].Closing?
    requires s'.txns == s.txns - {t} && s'.core.pending == s.core.pending - {s.txns[t].id}
    ensures PendingOk(s')
  {
  }

  lemma StepPending(s: Sys, e: Event, s': Sys)
    requires Inv(s) && Next(s, e, s')
    ensures PendingOk(s')
  {
    hide CoreOk, TxnsOk, PendingOk, Merge, ValidConfig, Commit;
    match e
    case OpenCreate(t, id) => PendingAdd(s, s', t, s'.txns[t], id);
    case OpenPatch(t, id, _) => PendingAdd(s, s', t, s'.txns[t], id);
    case OpenRetire(t, k, _) =>
      if k.kind.Connection? {
        PendingAdd(s, s', t, s'.txns[t], k.id);
      } else {
        PendingSame(s, s');
      }
    case CommitTxn(t) =>
      CommitKeepsPending(s.core, s.txns[t]);
      PendingSame(s, s');
    case CloseTxn(t) => PendingClose(s, s', t);
    case _ => PendingSame(s, s');
  }

  lemma CommitKeepsPending(c: Core, t: Txn)
    requires t.Prepared? || t.Activating?
    ensures Commit(c, t).pending == c.pending
  {
    hide RetiredAfter;
  }

  // A step either keeps the tables and the generation or starts a new generation.
  predicate SameTables(c: Core, d: Core) {
    c.api == d.api && c.yaml == d.yaml && c.retired == d.retired && c.snapshot == d.snapshot
  }

  lemma StepGeneration(s: Sys, e: Event, s': Sys)
    requires Next(s, e, s')
    ensures s'.core.generation == s.core.generation ==> SameTables(s.core, s'.core)
    ensures s'.core.generation == s.core.generation || s'.core.generation == s.core.generation + 1
    ensures e.CommitTxn? && Commits(s.core, s.txns[e.t]) ==> s'.core.generation == s.core.generation + 1
  {
    hide Merge, ValidConfig, RetiredAfter;
  }

  lemma StepCore(s: Sys, e: Event, s': Sys)
    requires Inv(s) && Next(s, e, s')
    ensures CoreOk(s'.core)
    ensures forall k :: Owner(s.core, k).Some? ==> Owner(s'.core, k) == Owner(s.core, k)
  {
    hide Merge, ValidConfig, RetiredAfter, PendingOk;
    match e
    case CreateDirect(r) => CreateNowOk(s.core, r);
    case CommitTxn(t) =>
      var txn := s.txns[t];
      assert TxnOk(s.core, txn);
      if txn.Prepared? {
        CommitChangeOk(s.core, txn);
        CommitChangeKeepsOwners(s.core, txn);
      } else {
        CommitActivationOk(s.core, txn);
        CommitActivationKeepsOwners(s.core, txn);
      }
    case _ => SameCoreOk(s, e, s');
  }

  lemma SameCoreOk(s: Sys, e: Event, s': Sys)
    requires CoreOk(s.core) && Next(s, e, s') && !e.CreateDirect? && !e.CommitTxn?
    ensures CoreOk(s'.core)
    ensures forall k :: Owner(s'.core, k) == Owner(s.core, k)
  {
    hide Merge, ValidConfig, RetiredAfter;
    assert SameTables(s.core, s'.core);
  }

  // A transaction opened by this step carries a candidate for the current tables.
  lemma OpenedTxnOk(s: Sys, e: Event, s': Sys, t: nat)
    requires CoreOk(s.core) && TxnsOk(s) && Next(s, e, s')
    requires t in s'.txns && !(t in s.txns && s.txns[t] == s'.txns[t])
    ensures TxnOk(s'.core, s'.txns[t])
  {
    hide ValidConfig, RetiredAfter;
    if e.CommitTxn? || e.AbortTxn? {
      assert s'.txns[t].Closing?;
    } else if e.PrepareTxn? {
      assert TxnOk(s.core, s.txns[t]);
    }
  }

  lemma OldTxnOk(c: Core, d: Core, t: Txn)
    requires TxnOk(c, t) && c.generation <= d.generation
    requires c.generation == d.generation ==> SameTables(c, d)
    ensures TxnOk(d, t)
  {
    hide Merge, ValidConfig;
  }

  lemma StepInv(s: Sys, e: Event, s': Sys)
    requires Inv(s) && Next(s, e, s')
    ensures Inv(s')
  {
    hide CoreOk, Next, PendingOk, Merge, ValidConfig, TxnOk, SameTables;
    StepCore(s, e, s');
    StepPending(s, e, s');
    StepGeneration(s, e, s');
    forall t | t in s'.txns ensures TxnOk(s'.core, s'.txns[t]) {
      if t in s.txns && s.txns[t] == s'.txns[t] {
        OldTxnOk(s.core, s'.core, s.txns[t]);
      } else {
        OpenedTxnOk(s, e, s', t);
      }
    }
  }

  // -------------------------------------------------------------------- runs

  ghost predicate Run(ss: seq<Sys>, es: seq<Event>) {
    && |ss| == |es| + 1 && CoreOk(ss[0].core) && ss[0].txns == map[]
    && forall i :: 0 <= i < |es| ==> Next(ss[i], es[i], ss[i + 1])
  }

  lemma {:induction false} RunInv(ss: seq<Sys>, es: seq<Event>, i: nat)
    requires Run(ss, es) && i < |ss|
    ensures Inv(ss[i])
  {
    hide CoreOk, Next;
    if i > 0 {
      RunInv(ss, es, i - 1);
      StepInv(ss[i - 1], es[i - 1], ss[i]);
    }
  }

  // Main theorem: after any interleaving the cached snapshot is the validated
  // merge of the current API and YAML tables, and the three tables are disjoint.
  lemma SnapshotIsAlwaysTheValidMerge(ss: seq<Sys>, es: seq<Event>, i: nat)
    requires Run(ss, es) && i < |ss|
    ensures var c := ss[i].core;
            && c.snapshot == c.api + c.yaml && ValidConfig(c.snapshot)
            && (forall k :: k in c.snapshot ==> c.snapshot[k].wellFormed)
            && c.api.Keys !! c.yaml.Keys && c.api.Keys !! c.retired.Keys && c.yaml.Keys !! c.retired.Keys
            && forall k :: k in c.snapshot && k.kind.Mapping? ==>
                 Key(Connection, c.snapshot[k].connection) in c.snapshot && Key(Root, c.snapshot[k].root) in c.snapshot
  {
    hide Next, TxnsOk, PendingOk;
    RunInv(ss, es, i);
    var c := ss[i].core;
    forall k | k in c.snapshot && k.kind.Mapping?
      ensures Key(Connection, c.snapshot[k].connection) in c.snapshot && Key(Root, c.snapshot[k].root) in c.snapshot
    {
      SnapshotReferencesResolve(c, k);
    }
  }

  lemma {:induction false} GenerationsGrow(ss: seq<Sys>, es: seq<Event>, i: nat, j: nat)
    requires Run(ss, es) && i <= j < |ss|
    ensures ss[i].core.generation <= ss[j].core.generation
    ensures ss[i].core.generation == ss[j].core.generation ==> SameTables(ss[i].core, ss[j].core)
    decreases j - i
  {
    hide CoreOk, Next;
    if i < j {
      GenerationsGrow(ss, es, i, j - 1);
      StepGeneration(ss[j - 1], es[j - 1], ss[j]);
    }
  }

  function Base(t: Txn): nat
    requires t.Prepared? || t.Activating?
  {
    t.base
  }

  // Of two transactions based on the same state at most one commits, even when
  // later content and revisions return to old ones.
  lemma SameBaseCommitsOnce(ss: seq<Sys>, es: seq<Event>, i: nat, j: nat)
    requires Run(ss, es) && i < j < |es| && es[i].CommitTxn? && es[j].CommitTxn?
    requires es[i].t in ss[i].txns && es[j].t in ss[j].txns
    requires var t := ss[i].txns[es[i].t]; (t.Prepared? || t.Activating?) && Commits(ss[i].core, t)
    requires var u := ss[j].txns[es[j].t]; (u.Prepared? || u.Activating?) && Commits(ss[j].core, u)
    ensures Base(ss[i].txns[es[i].t]) < Base(ss[j].txns[es[j].t])
  {
    hide CoreOk, Next;
    StepGeneration(ss[i], es[i], ss[i + 1]);
    GenerationsGrow(ss, es, i + 1, j);
  }

  // Serialisability: when a transaction commits, the tables are still those of
  // every earlier state of the generation it is based on.
  lemma CommitSeesItsBase(ss: seq<Sys>, es: seq<Event>, i: nat, j: nat)
    requires Run(ss, es) && i <= j < |es| && es[j].CommitTxn? && es[j].t in ss[j].txns
    requires var u := ss[j].txns[es[j].t]; (u.Prepared? || u.Activating?) && Commits(ss[j].core, u)
    requires ss[i].core.generation == Base(ss[j].txns[es[j].t])
    ensures SameTables(ss[i].core, ss[j].core)
  {
    hide CoreOk, Next;
    GenerationsGrow(ss, es, i, j);
  }

  // Once a source owns an id, that id never passes to the other source.
  lemma {:induction false} OwnershipIsForever(ss: seq<Sys>, es: seq<Event>, i: nat, j: nat, k: Key)
    requires Run(ss, es) && i <= j < |ss| && Owner(ss[i].core, k).Some?
    ensures Owner(ss[j].core, k) == Owner(ss[i].core, k)
    decreases j - i
  {
    hide CoreOk, Next, Owner, Inv;
    if i < j {
      OwnershipIsForever(ss, es, i, j - 1, k);
      RunInv(ss, es, j - 1);
      StepCore(ss[j - 1], es[j - 1], ss[j]);
    }
  }

  // Two running connection transactions never work on the same id.
  lemma ConnectionsAreExclusive(ss: seq<Sys>, es: seq<Event>, i: nat, t: nat, u: nat)
    requires Run(ss, es) && i < |ss| && t in ss[i].txns && u in ss[i].txns && t != u
    ensures Held(ss[i].txns[t]).Some? ==> Held(ss[i].txns[t]) != Held(ss[i].txns[u])
  {
    hide CoreOk, Next, TxnsOk;
    RunInv(ss, es, i);
  }

  // ------------------------------------------------- what transactions install

  // Transaction t runs on from state i to state j.
  ghost predicate RunsOn(ss: seq<Sys>, i: nat, j: nat, t: nat) {
    i <= j < |ss| && forall k :: i <= k <= j ==> t in ss[k].txns
  }

  // A prepared or activating transaction is not rewritten while it runs; it ends
  // or goes on.
  lemma TxnStep(s: Sys, e: Event, s': Sys, t: nat)
    requires Next(s, e, s') && t in s.txns && t in s'.txns
    requires s.txns[t].Prepared? || s.txns[t].Activating? || s.txns[t].Closing?
    ensures s'.txns[t] == s.txns[t] || s'.txns[t].Closing?
  {
    hide Merge, ValidConfig, Commit;
  }

  lemma {:induction false} TxnKept(ss: seq<Sys>, es: seq<Event>, i: nat, j: nat, t: nat)
    requires Run(ss, es) && RunsOn(ss, i, j, t)
    requires ss[i].txns[t].Prepared? || ss[i].txns[t].Activating? || ss[i].txns[t].Closing?
    ensures ss[j].txns[t] == ss[i].txns[t] || ss[j].txns[t].Closing?
    decreases j - i
  {
    hide Next, CoreOk;
    if i < j {
      TxnKept(ss, es, i, j - 1, t);
      TxnStep(ss[j - 1], es[j - 1], ss[j], t);
    }
  }

  lemma DraftStep(s: Sys, e: Event, s': Sys, t: nat)
    requires Next(s, e, s') && t in s.txns && t in s'.txns && s.txns[t].Drafted? && s'.txns[t].Drafted?
    ensures s'.txns[t] == s.txns[t]
  {
    hide Merge, ValidConfig, Commit;
  }

  lemma {:induction false} DraftKept(ss: seq<Sys>, es: seq<Event>, i: nat, j: nat, t: nat)
    requires Run(ss, es) && RunsOn(ss, i, j, t) && ss[i].txns[t].Drafted? && ss[j].txns[t].Drafted?
    ensures ss[j].txns[t] == ss[i].txns[t]
    decreases j - i
  {
    hide Next, CoreOk;
    if i < j {
      assert Next(ss[j - 1], es[j - 1], ss[j]);
      DraftBefore(ss[j - 1], es[j - 1], ss[j], t);
      DraftKept(ss, es, i, j - 1, t);
      DraftStep(ss[j - 1], es[j - 1], ss[j], t);
    }
  }

  // A running draft was a draft one step before.
  lemma DraftBefore(s: Sys, e: Event, s': Sys, t: nat)
    requires Next(s, e, s') && t in s.txns && t in s'.txns && s'.txns[t].Drafted?
    ensures s.txns[t].Drafted?
  {
    hide Merge, ValidConfig, Commit;
  }

  // One commit, in terms of the tables before and after it.
  lemma CommitInstalls(s: Sys, e: Event, s': Sys, k: Key, revision: Option<string>, resource: Option<Resource>)
    requires Inv(s) && Next(s, e, s') && e.CommitTxn? && s.txns[e.t].Prepared?
    requires s.txns[e.t].key == k && s.txns[e.t].revision == revision && s.txns[e.t].resource == resource
    requires s'.core.generation != s.core.generation
    ensures s'.core.yaml == s.core.yaml
    ensures revision.Some? ==> k in s.core.api && s.core.api[k].revision == revision.value
    ensures revision.None? ==> k !in s.core.api && k !in s.core.yaml && k !in s.core.retired
    ensures resource.Some? ==> s'.core.api == s.core.api[k := resource.value] && s'.core.retired == s.core.retired
    ensures resource.None? && revision.Some? ==>
              s'.core.api == s.core.api - {k} && s'.core.retired == s.core.retired[k := s.core.api[k]]
  {
    hide CoreOk, TxnOk, Merge, ValidConfig, PendingOk;
  }

  // Updating a root or mapping: when the transaction commits, the stored record
  // still had the caller's revision, exactly that record is replaced by the
  // caller's, and nothing else changes.
  lemma UpdateInstallsItsRecord(ss: seq<Sys>, es: seq<Event>, i: nat, j: nat)
    requires Run(ss, es) && i < j < |es| && es[i].OpenUpdate? && es[j] == CommitTxn(es[i].t)
    requires RunsOn(ss, i + 1, j, es[i].t)
    requires ss[j + 1].core.generation != ss[j].core.generation
    ensures var (c, c', r) := (ss[j].core, ss[j + 1].core, es[i].resource);
      && r.key in c.api && c.api[r.key].revision == es[i].revision
      && c'.api == c.api[r.key := r] && c'.yaml == c.yaml && c'.retired == c.retired
  {
    hide Inv, CoreOk, Merge, ValidConfig;
    var (t, r) := (es[i].t, es[i].resource);
    assert Next(ss[i], es[i], ss[i + 1]) && Next(ss[j], es[j], ss[j + 1]);
    TxnKept(ss, es, i + 1, j, t);
    RunInv(ss, es, j);
    CommitInstalls(ss[j], es[j], ss[j + 1], r.key, Some(es[i].revision), Some(r));
  }

  // Retiring: exactly the record at the caller's revision leaves the API table
  // and becomes a tombstone.
  lemma RetireRemovesItsRecord(ss: seq<Sys>, es: seq<Event>, i: nat, j: nat)
    requires Run(ss, es) && i < j < |es| && es[i].OpenRetire? && es[j] == CommitTxn(es[i].t)
    requires RunsOn(ss, i + 1, j, es[i].t)
    requires ss[j + 1].core.generation != ss[j].core.generation
    ensures var (c, c', k) := (ss[j].core, ss[j + 1].core, es[i].key);
      && k in c.api && c.api[k].revision == es[i].revision
      && c'.api == c.api - {k} && c'.yaml == c.yaml && c'.retired == c.retired[k := c.api[k]]
  {
    hide Inv, CoreOk, Merge, ValidConfig;
    var (t, k) := (es[i].t, es[i].key);
    assert Next(ss[i], es[i], ss[i + 1]) && Next(ss[j], es[j], ss[j + 1]);
    TxnKept(ss, es, i + 1, j, t);
    RunInv(ss, es, j);
    CommitInstalls(ss[j], es[j], ss[j + 1], k, Some(es[i].revision), None);
  }

  // Creating or updating a connection: opened at i, prepared at m, committed at
  // j, it installs exactly the prepared record under the opened id; a creation
  // finds the id unowned, an update finds the caller's revision.
  lemma ConnectionInstallsItsRecord(ss: seq<Sys>, es: seq<Event>, i: nat, m: nat, j: nat)
    requires Run(ss, es) && i < m < j < |es| && (es[i].OpenCreate? || es[i].OpenPatch?)
    requires es[m].PrepareTxn? && es[m].t == es[i].t && es[j] == CommitTxn(es[i].t) && RunsOn(ss, i + 1, j, es[i].t)
    requires ss[j + 1].core.generation != ss[j].core.generation
    ensures var (c, c', r, k) := (ss[j].core, ss[j + 1].core, es[m].resource, Key(Connection, es[i].id));
      && (es[i].OpenPatch? ==> k in c.api && c.api[k].revision == es[i].revision)
      && (es[i].OpenCreate? ==> k !in c.api && k !in c.yaml && k !in c.retired)
      && r.key == k && c'.api == c.api[k := r] && c'.yaml == c.yaml && c'.retired == c.retired
  {
    hide Inv, CoreOk, Merge, ValidConfig;
    var (t, r, k) := (es[i].t, es[m].resource, Key(Connection, es[i].id));
    var revision := if es[i].OpenPatch? then Some(es[i].revision) else None;
    assert Next(ss[i], es[i], ss[i + 1]) && Next(ss[m], es[m], ss[m + 1]) && Next(ss[j], es[j], ss[j + 1]);
    assert ss[i + 1].txns[t].Drafted? && ss[i + 1].txns[t].key == k && ss[i + 1].txns[t].revision == revision;
    DraftKept(ss, es, i + 1, m, t);
    PreparedFrom(ss[m], es[m], ss[m + 1]);
    TxnKept(ss, es, m + 1, j, t);
    RunInv(ss, es, j);
    CommitInstalls(ss[j], es[j], ss[j + 1], k, revision, Some(r));
  }

  lemma PreparedFrom(s: Sys, e: Event, s': Sys)
    requires Next(s, e, s') && e.PrepareTxn?
    ensures var (t, t') := (s.txns[e.t], s'.txns[e.t]);
      && t.Drafted? && t'.Prepared? && t'.key == t.key == e.resource.key
      && t'.revision == t.revision && t'.resource == Some(e.resource)
  {
    hide Merge, ValidConfig;
  }

  // Creating a root or mapping happens at once.
  lemma CreateInstallsItsRecord(ss: seq<Sys>, es: seq<Event>, i: nat)
    requires Run(ss, es) && i < |es| && es[i].CreateDirect?
    ensures var (c, c', r) := (ss[i].core, ss[i + 1].core, es[i].resource);
      && r.key !in c.api && r.key !in c.yaml && r.key !in c.retired
      && c'.api == c.api[r.key := r] && c'.yaml == c.yaml && c'.retired == c.retired
  {
    hide CoreOk, Merge, ValidConfig;
    assert Next(ss[i], es[i], ss[i + 1]);
  }

  // Activating a document makes it the YAML table; records it drops become
  // tombstones, tombstones of records it brings back go, and nothing else moves.
  lemma ActivationInstallsItsDocument(ss: seq<Sys>, es: seq<Event>, i: nat, j: nat)
    requires Run(ss, es) && i < j < |es| && es[i].OpenActivation? && es[j] == CommitTxn(es[i].t)
    requires RunsOn(ss, i + 1, j, es[i].t) && ss[j + 1].core.generation != ss[j].core.generation
    ensures var (c, c', y) := (ss[j].core, ss[j + 1].core, es[i].yaml);
      && c'.api == c.api && c'.yaml == y && y.Keys !! c.api.Keys
      && (forall k :: k in c'.retired <==> (k in c.retired && k !in y) || (k in c.yaml && k !in y))
      && (forall k :: k in c'.retired ==> c'.retired[k] == if k in c.yaml then c.yaml[k] else c.retired[k])
  {
    hide Inv, CoreOk, Merge, ValidConfig, RetiredAfter;
    var t := es[i].t;
    assert Next(ss[i], es[i], ss[i + 1]) && Next(ss[j], es[j], ss[j + 1]);
    TxnKept(ss, es, i + 1, j, t);
    RunInv(ss, es, j);
    RunInv(ss, es, j + 1);
    assert ss[j].txns[t] == ss[i + 1].txns[t];
    ActivationTables(ss[j], t, ss[j + 1], es[i].yaml);
  }

  lemma ActivationTables(s: Sys, t: nat, s': Sys, y: Table)
    requires Inv(s) && t in s.txns && s.txns[t].Activating? && s.txns[t].yaml == y
    requires Next(s, CommitTxn(t), s') && s'.core.generation != s.core.generation
    ensures var (c, c') := (s.core, s'.core);
      && c'.api == c.api && c'.yaml == y && y.Keys !! c.api.Keys
      && (forall k :: k in c'.retired <==> (k in c.retired && k !in y) || (k in c.yaml && k !in y))
      && (forall k :: k in c'.retired ==> c'.retired[k] == if k in c.yaml then c.yaml[k] else c.retired[k])
  {
    hide ValidConfig, PendingOk;
    assert TxnOk(s.core, s.txns[t]);
    assert Merge(s.core.api, y).Some?;
  }

  // A commit that finds another generation changes no table.
  lemma RefusedCommitChangesNothing(ss: seq<Sys>, es: seq<Event>, j: nat)
    requires Run(ss, es) && j < |es| && ss[j + 1].core.generation == ss[j].core.generation
    ensures ss[j + 1].core.api == ss[j].core.api && ss[j + 1].core.yaml == ss[j].core.yaml
    ensures ss[j + 1].core.retired == ss[j].core.retired && ss[j + 1].core.snapshot == ss[j].core.snapshot
  {
    hide CoreOk, Next;
    StepGeneration(ss[j], es[j], ss[j + 1]);
  }

  // A transaction commits exactly when nothing was committed since it was opened.
  lemma CommitsIffUntouched(ss: seq<Sys>, es: seq<Event>, i: nat, j: nat)
    requires Run(ss, es) && i < j < |es| && es[j].CommitTxn? && RunsOn(ss, i + 1, j, es[j].t)
    requires es[i].OpenUpdate? || es[i].OpenRetire? || es[i].OpenActivation?
    requires es[i].t == es[j].t
    ensures ss[j + 1].core.generation != ss[j].core.generation <==> ss[j].core.generation == ss[i].core.generation
  {
    hide Inv, CoreOk, Merge, ValidConfig, RetiredAfter;
    var t := es[j].t;
    assert Next(ss[i], es[i], ss[i + 1]) && Next(ss[j], es[j], ss[j + 1]);
    TxnKept(ss, es, i + 1, j, t);
    GenerationsGrow(ss, es, i, j);
    OpenedAt(ss[i], es[i], ss[i + 1]);
    CommitDecides(ss[i], ss[j], t, ss[j + 1]);
  }

  lemma OpenedAt(s: Sys, e: Event, s': Sys)
    requires Next(s, e, s') && (e.OpenUpdate? || e.OpenRetire? || e.OpenActivation?)
    ensures e.t in s'.txns && s'.core.generation == s.core.generation && SameTables(s.core, s'.core)
    ensures var u := s'.txns[e.t]; (u.Prepared? || u.Activating?) && u.base == s.core.generation
    ensures var u := s'.txns[e.t];
      u.Prepared? ==> u.revision.Some? && u.key in s.core.api && s.core.api[u.key].revision == u.revision.value
  {
    hide Merge, ValidConfig;
  }

  lemma CommitDecides(first: Sys, s: Sys, t: nat, s': Sys)
    requires t in s.txns && Next(s, CommitTxn(t), s')
    requires first.core.generation == s.core.generation ==> SameTables(first.core, s.core)
    requires var u := s.txns[t];
      && (u.Prepared? || u.Activating?) && u.base == first.core.generation
      && (u.Prepared? ==>
            && u.revision.Some? && u.key in first.core.api && first.core.api[u.key].revision == u.revision.value)
    ensures s'.core.generation != s.core.generation <==> s.core.generation == first.core.generation
  {
    hide Merge, ValidConfig, RetiredAfter;
  }

  // In every reachable state a remote path has at most one best mapping.
  lemma MappingsAreUnambiguous(ss: seq<Sys>, es: seq<Event>, i: nat, connection: string, path: string, j: Key, k: Key)
    requires Run(ss, es) && i < |ss|
    requires Best(ss[i].core.snapshot, connection, path, j) && Best(ss[i].core.snapshot, connection, path, k)
    ensures j == k
  {
    SnapshotIsAlwaysTheValidMerge(ss, es, i);
    ValidConfigMeans(ss[i].core.snapshot);
    hide Run, ValidConfig, Best;
  }

  // -------------------------------------------------- what opens and what ends

  // The requests on connections open exactly on these conditions.
  lemma ConnectionsOpenIff(s: Sys, t: nat, id: string, revision: string)
    ensures var (c, k) := (s.core, Key(Connection, id));
      && ((exists s' :: Next(s, OpenCreate(t, id), s')) <==>
            && t !in s.txns && k !in c.api && k !in c.yaml && k !in c.retired
            && id !in c.quarantined && id !in c.pending)
      && ((exists s' :: Next(s, OpenPatch(t, id, revision), s')) <==>
            t !in s.txns && k in c.api && c.api[k].revision == revision && id !in c.pending)
  {
    var (create, patch) := (BeginCreate(s.core, id), BeginPatch(s.core, id, revision));
    if t !in s.txns && create.Some? {
      assert Next(s, OpenCreate(t, id), Sys(create.value.0, s.txns[t := create.value.1]));
    }
    if t !in s.txns && patch.Some? {
      assert Next(s, OpenPatch(t, id, revision), Sys(patch.value.0, s.txns[t := patch.value.1]));
    }
  }

  // A drafted change is prepared exactly while its base is current, for a record
  // of its own key that merges validly.
  lemma PreparesIff(s: Sys, t: nat, r: Resource)
    requires Inv(s)
    ensures (exists s' :: Next(s, PrepareTxn(t, r), s')) <==>
      && t in s.txns && s.txns[t].Drafted? && s.txns[t].base == s.core.generation
      && r.key == s.txns[t].key && r.source.Api?
      && (s.txns[t].revision.None? ==> r.key !in s.core.api && r.key !in s.core.yaml && r.key !in s.core.retired)
      && (s.txns[t].revision.Some? ==> r.key in s.core.api && s.core.api[r.key].revision == s.txns[t].revision.value)
      && (s.core.api[r.key := r]).Keys !! s.core.yaml.Keys && ValidConfig(s.core.api[r.key := r] + s.core.yaml)
  {
    hide ValidConfig, Inv;
    if t in s.txns && s.txns[t].Drafted? && Prepare(s.core, s.txns[t], r).Some? {
      assert Next(s, PrepareTxn(t, r), s.(txns := s.txns[t := Prepare(s.core, s.txns[t], r).value]));
    }
  }

  // Updates and retirements of records open exactly on these conditions; a
  // record that a mapping refers to is not retired.
  lemma ResourcesOpenIff(s: Sys, t: nat, r: Resource, k: Key, revision: string)
    requires Inv(s)
    ensures (exists s' :: Next(s, OpenUpdate(t, r, revision), s')) <==>
      && t !in s.txns && !r.key.kind.Connection? && r.source.Api?
      && r.key in s.core.api && s.core.api[r.key].revision == revision
      && ValidConfig(s.core.api[r.key := r] + s.core.yaml)
    ensures (exists s' :: Next(s, OpenRetire(t, k, revision), s')) <==>
      && t !in s.txns && k in s.core.api && s.core.api[k].revision == revision
      && (k.kind.Connection? ==> k.id !in s.core.pending)
      && (forall m | m in s.core.snapshot && m.kind.Mapping? ::
            && (k.kind.Connection? ==> s.core.snapshot[m].connection != k.id)
            && (k.kind.Root? ==> s.core.snapshot[m].root != k.id))
      && ValidConfig((s.core.api - {k}) + s.core.yaml)
  {
    hide ValidConfig;
    SnapshotOfInv(s);
    ReferencedMeans(s.core, k);
    hide Inv, Referenced;
    var (update, retire) := (BeginUpdate(s.core, r, revision), BeginRetire(s.core, k, revision));
    if t !in s.txns && update.Some? {
      assert Next(s, OpenUpdate(t, r, revision), s.(txns := s.txns[t := update.value]));
    }
    if t !in s.txns && retire.Some? {
      assert Next(s, OpenRetire(t, k, revision), Sys(retire.value.0, s.txns[t := retire.value.1]));
    }
  }

  lemma SnapshotOfInv(s: Sys)
    requires Inv(s)
    ensures s.core.api.Keys !! s.core.yaml.Keys && s.core.snapshot == s.core.api + s.core.yaml
    ensures ApiTable(s.core.api) && YamlTable(s.core.yaml)
  {
    hide ValidConfig, TxnOk, PendingOk;
  }

  lemma ReferencedMeans(c: Core, k: Key)
    requires c.api.Keys !! c.yaml.Keys && c.snapshot == c.api + c.yaml && ApiTable(c.api) && YamlTable(c.yaml)
    ensures !Referenced(c, k) <==> forall m | m in c.snapshot && m.kind.Mapping? ::
      && (k.kind.Connection? ==> c.snapshot[m].connection != k.id)
      && (k.kind.Root? ==> c.snapshot[m].root != k.id)
  {
    assert forall m :: m in c.snapshot ==> c.snapshot[m].key == m;
    if exists m :: m in c.snapshot && RefersTo(c.snapshot[m], k) {
      var m :| m in c.snapshot && RefersTo(c.snapshot[m], k);
      assert if m in c.api then RefersTo(c.api[m], k) else RefersTo(c.yaml[m], k);
    }
    if Referenced(c, k) {
      var m :| (m in c.api && RefersTo(c.api[m], k)) || (m in c.yaml && RefersTo(c.yaml[m], k));
      assert RefersTo(c.snapshot[m], k);
    }
  }

  // Direct creations and activations.
  lemma DocumentsOpenIff(s: Sys, t: nat, r: Resource, y: Table)
    ensures (exists s' :: Next(s, CreateDirect(r), s')) <==>
      && !r.key.kind.Connection? && r.source.Api?
      && r.key !in s.core.api && r.key !in s.core.yaml && r.key !in s.core.retired
      && s.core.api.Keys !! s.core.yaml.Keys && ValidConfig(s.core.api[r.key := r] + s.core.yaml)
    ensures (exists s' :: Next(s, OpenActivation(t, y), s')) <==>
      && t !in s.txns && (forall k :: k in y ==> y[k].key == k && y[k].source.Yaml?)
      && (forall k :: k in y ==> k !in s.core.api && (k in s.core.retired ==> s.core.retired[k].source.Yaml?))
      && ValidConfig(s.core.api + y)
  {
    hide ValidConfig;
    var (create, activate) := (CreateNow(s.core, r), BeginActivation(s.core, y));
    if create.Some? {
      assert Next(s, CreateDirect(r), s.(core := create.value));
    }
    if t !in s.txns && activate.Some? {
      assert Next(s, OpenActivation(t, y), s.(txns := s.txns[t := activate.value]));
    }
    assert s.core.api[r.key := r].Keys == s.core.api.Keys + {r.key};
  }

  // Any prepared transaction may come to its commit, any running one may be
  // aborted, and an ended connection transaction closes.
  lemma TransactionsEndIff(s: Sys, t: nat)
    ensures (exists s' :: Next(s, CommitTxn(t), s')) <==> t in s.txns && (s.txns[t].Prepared? || s.txns[t].Activating?)
    ensures (exists s' :: Next(s, AbortTxn(t), s')) <==> t in s.txns && !s.txns[t].Closing?
    ensures (exists s' :: Next(s, CloseTxn(t), s')) <==> t in s.txns && s.txns[t].Closing?
  {
    if t in s.txns {
      var txn := s.txns[t];
      if txn.Prepared? || txn.Activating? {
        assert Next(s, CommitTxn(t), Sys(Commit(s.core, txn), Ended(s.txns, t)));
      }
      if txn.Closing? {
        assert Next(s, CloseTxn(t), Sys(s.core.(pending := s.core.pending - {txn.id}), s.txns - {t}));
      } else {
        assert Next(s, AbortTxn(t), s.(txns := Ended(s.txns, t)));
      }
    }
  }

  // Committed or aborted, a connection transaction is closed once and gives its
  // id back, any other is gone; a doubtful credential write quarantines its id.
  lemma TransactionsLeave(s: Sys, e: Event, s': Sys)
    requires Next(s, e, s') && (e.CommitTxn? || e.AbortTxn? || e.CloseTxn? || e.QuarantineTxn?)
    ensures var (c, c', u) := (s.core, s'.core, s.txns[e.t]);
      var connection := u.Drafted? || (u.Prepared? && u.key.kind.Connection?);
      && (forall x :: x != e.t ==> (x in s'.txns <==> x in s.txns) && (x in s.txns ==> s'.txns[x] == s.txns[x]))
      && (e.CommitTxn? || e.AbortTxn? ==>
            && c'.pending == c.pending && c'.quarantined == c.quarantined
            && (if connection then e.t in s'.txns && s'.txns[e.t] == Closing(u.key.id) else e.t !in s'.txns))
      && (e.AbortTxn? ==> c' == c)
      && (e.CloseTxn? ==> e.t !in s'.txns && c' == c.(pending := c.pending - {u.id}))
      && (e.QuarantineTxn? ==> s'.txns == s.txns && c' == c.(quarantined := c.quarantined + {u.key.id}))
  {
    hide RetiredAfter;
  }
}
