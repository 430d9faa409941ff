/**
 * Managed credentials of one API-owned connection: the writer inside
 * CreateConnection/UpdateConnection, ResolveCredential, and restart
 * reconciliation (internal/configuration/configuration.go).
 *
 * The store is outside the process: a Replace may apply, be lost or leave
 * anything behind, and the stored set may change at any other moment too.  The
 * pending mark admits one transaction per connection id, so one slot holds it.
 */
module Credentials {
  import opened Common

  datatype Envelope = Envelope(plaintext: string, nonce: nat, authentic: bool)

  type EnvelopeSet = map<string, Envelope>

  // credentialEnvelopeDigest is injective; NoDigest is a missing map entry.
  datatype Digest = NoDigest | DigestOf(envelopes: EnvelopeSet)

  function Open(e: Envelope): Option<string> { if e.authentic then Some(e.plaintext) else None }

  // The connection record and its managedFields and managedDigests entries.
  datatype Config = Config(active: bool, revision: string, fields: set<string>, digest: Digest)

  // `credentials` is the sealed complete set, None when the patch has none.
  datatype Change = Change(create: bool, revision: string, credentials: Option<EnvelopeSet>)

  datatype Op =
    | Idle
    | Begun(ch: Change, base: nat, revision: string)
    | Loaded(ch: Change, base: nat, revision: string, previous: EnvelopeSet)
    | Writing(ch: Change, base: nat, revision: string, previous: EnvelopeSet)
    | Wrote(ch: Change, base: nat, revision: string, previous: EnvelopeSet)
    | Uncertain
    | Verified(ch: Change, base: nat, revision: string)
    | Retiring(base: nat, revision: string)
    | Closing

  datatype Answer = Answer(field: string, value: string, envelopes: EnvelopeSet)

  datatype Resolver =
    | ToLoad(field: string)
    | ToOpen(field: string, envelopes: EnvelopeSet)
    | ToCheck(answer: Answer)
    | Resolved(result: Option<Answer>)

  datatype Boot = ToCompare | Compared(matched: bool) | Ready

  // `readBack` and `materialised` only record history: sets a writer read back
  // whole, and sets a commit made the committed ones.
  datatype Sys = Sys(config: Config, generation: nat, quarantined: bool, op: Op, boot: Boot,
                     resolvers: map<nat, Resolver>, durable: Config, store: EnvelopeSet,
                     readBack: set<EnvelopeSet>, materialised: set<EnvelopeSet>)

  datatype Event =
    | Begin(ch: Change)
    | LoadPrevious(readable: bool)
    | Authorize(ok: bool)
    | Replace(left: EnvelopeSet)
    | ReadBack(readable: bool)
    | Quarantine
    | CommitChange
    | BeginRetire
    | CommitRetire
    | Abort
    | FinishPending
    | OtherCommit
    | StoreChanges(now: EnvelopeSet)
    | Persist
    | Crash
    | BootCompare(readable: bool)
    | BootFinish
    | ResolveStart(r: nat, field: string)
    | ResolveLoad(r: nat, readable: bool)
    | ResolveOpen(r: nat)
    | ResolveCheck(r: nat)

  predicate Managed(c: Config) { c.active && c.fields != {} }

  predicate Enabled(s: Sys, e: Event) {
    match e
    case Begin(ch) =>
      s.boot.Ready? && s.op.Idle? && (if ch.create then !s.config.active && !s.quarantined else s.config.active)
    case LoadPrevious(_) => s.op.Begun? && s.op.ch.credentials.Some?
    case Authorize(_) => s.op.Loaded? || (s.op.Begun? && s.op.ch.credentials.None?)
    case Replace(_) => s.op.Writing?
    case ReadBack(_) => s.op.Wrote?
    case Quarantine => s.op.Uncertain?
    case CommitChange => s.op.Verified?
    case BeginRetire => s.boot.Ready? && s.op.Idle? && s.config.active
    case CommitRetire => s.op.Retiring?
    case Abort => s.op.Begun? || s.op.Loaded? || s.op.Retiring?
    case FinishPending => s.op.Closing?
    case BootCompare(_) => s.boot.ToCompare?
    case BootFinish => s.boot.Compared?
    case ResolveStart(r, _) => s.boot.Ready? && r !in s.resolvers
    case ResolveLoad(r, _) => r in s.resolvers && s.resolvers[r].ToLoad?
    case ResolveOpen(r) => r in s.resolvers && s.resolvers[r].ToOpen?
    case ResolveCheck(r) => r in s.resolvers && s.resolvers[r].ToCheck?
    case _ => true
  }

  // Both locked checks of ResolveCredential share these tests.
  predicate Exposed(s: Sys, field: string) {
    s.config.active && field in s.config.fields && s.op.Idle? && !s.quarantined
  }

  predicate StillBased(s: Sys, base: nat, create: bool, revision: string) {
    s.generation == base && if create then !s.config.active else s.config.active && s.config.revision == revision
  }

  function Committed(s: Sys, ch: Change): Config {
    match ch.credentials
    case Some(sealed) => Config(true, ch.revision, sealed.Keys, DigestOf(sealed))
    case None =>
      if ch.create then Config(true, ch.revision, {}, NoDigest)
      else s.config.(revision := ch.revision)
  }

  function Apply(s: Sys, e: Event): Sys
    requires Enabled(s, e)
  {
    match e
    case Begin(ch) => s.(op := Begun(ch, s.generation, s.config.revision))
    case LoadPrevious(readable) =>
      if !readable || (s.op.ch.create && s.store != map[]) then s.(op := Closing)
      else s.(op := Loaded(s.op.ch, s.op.base, s.op.revision, s.store))
    case Authorize(ok) =>
      if !ok || !StillBased(s, s.op.base, s.op.ch.create, s.op.revision) then s.(op := Closing)
      else if s.op.Begun? then s.(op := Verified(s.op.ch, s.op.base, s.op.revision))
      else s.(op := Writing(s.op.ch, s.op.base, s.op.revision, s.op.previous))
    case Replace(left) => s.(store := left, op := Wrote(s.op.ch, s.op.base, s.op.revision, s.op.previous))
    case ReadBack(readable) =>
      if readable && Some(s.store) == s.op.ch.credentials then
        s.(op := Verified(s.op.ch, s.op.base, s.op.revision), readBack := s.readBack + {s.store})
      else if readable && s.store == s.op.previous then s.(op := Closing)
      else s.(op := Uncertain)
    case Quarantine => s.(quarantined := true, op := Closing)
    case CommitChange =>
      var ch := s.op.ch;
      if !StillBased(s, s.op.base, ch.create, s.op.revision) then
        s.(quarantined := s.quarantined || ch.credentials.Some?, op := Closing)
      else
        s.(config := Committed(s, ch), generation := s.generation + 1, op := Closing,
           materialised := if ch.credentials.Some? then s.materialised + {ch.credentials.value} else s.materialised)
    case BeginRetire => s.(op := Retiring(s.generation, s.config.revision))
    case CommitRetire =>
      if !StillBased(s, s.op.base, false, s.op.revision) then s.(op := Closing)
      else s.(config := s.config.(active := false), generation := s.generation + 1, op := Closing)
    case Abort => s.(op := Closing)
    case FinishPending => s.(op := Idle)
    case OtherCommit => s.(generation := s.generation + 1)
    case StoreChanges(now) => s.(store := now)
    case Persist => s.(durable := s.config)
    case Crash =>
      s.(config := s.durable, generation := 1, quarantined := false, op := Idle, boot := ToCompare, resolvers := map[])
    case BootCompare(readable) => s.(boot := Compared(readable && s.config.digest == DigestOf(s.store)))
    case BootFinish => s.(quarantined := s.quarantined || (Managed(s.config) && !s.boot.matched), boot := Ready)
    case ResolveStart(r, field) =>
      s.(resolvers := s.resolvers[r := if Exposed(s, field) then ToLoad(field) else Resolved(None)])
    case ResolveLoad(r, readable) =>
      s.(resolvers := s.resolvers[r := if readable then ToOpen(s.resolvers[r].field, s.store) else Resolved(None)])
    case ResolveOpen(r) =>
      var (field, sealed) := (s.resolvers[r].field, s.resolvers[r].envelopes);
      s.(resolvers := s.resolvers[r :=
           if field in sealed && Open(sealed[field]).Some?
           then ToCheck(Answer(field, Open(sealed[field]).value, sealed))
           else Resolved(None)])
    case ResolveCheck(r) =>
      var a := s.resolvers[r].answer;
      s.(resolvers := s.resolvers[r :=
           Resolved(if Exposed(s, a.field) && s.config.digest == DigestOf(a.envelopes) then Some(a) else None)])
  }

  // A first start: some persisted record, about to be reconciled.
  predicate Init(s: Sys) {
    && s.config == s.durable && s.generation == 1 && !s.quarantined && s.op.Idle? && s.boot.ToCompare?
    && s.resolvers == map[] && s.readBack == {}
    && s.materialised == if s.config.digest.DigestOf? then {s.config.digest.envelopes} else {}
  }

  ghost predicate Run(ss: seq<Sys>, es: seq<Event>) {
    && |ss| == |es| + 1 && Init(ss[0])
    && forall i :: 0 <= i < |es| ==> Enabled(ss[i], es[i]) && ss[i + 1] == Apply(ss[i], es[i])
  }

  // --------------------------------------------------------------- invariant

  predicate DigestKnown(c: Config, known: set<EnvelopeSet>) {
    c.digest.DigestOf? ==> c.digest.envelopes in known
  }

  predicate FromAnswer(a: Answer) {
    a.field in a.envelopes && Open(a.envelopes[a.field]) == Some(a.value)
  }

  ghost predicate WriterInv(s: Sys, first: set<EnvelopeSet>) {
    && DigestKnown(s.config, s.materialised) && DigestKnown(s.durable, s.materialised)
    && s.materialised <= s.readBack + first
    && (s.op.Verified? && s.op.ch.credentials.Some? ==> s.op.ch.credentials.value in s.readBack)
  }

  predicate ResolverOk(r: Resolver) {
    && (r.ToCheck? ==> FromAnswer(r.answer))
    && (r.Resolved? && r.result.Some? ==> FromAnswer(r.result.value))
  }

  ghost predicate ResolversInv(s: Sys) {
    && (!s.boot.Ready? ==> s.op.Idle? && s.resolvers == map[])
    && forall r :: r in s.resolvers ==> ResolverOk(s.resolvers[r])
  }

  ghost predicate Inv(s: Sys, first: set<EnvelopeSet>) { WriterInv(s, first) && ResolversInv(s) }

  lemma WriterStep(s: Sys, e: Event, first: set<EnvelopeSet>)
    requires WriterInv(s, first) && Enabled(s, e)
    ensures WriterInv(Apply(s, e), first)
  {
    hide Exposed, StillBased, Open, Managed;
    if e.CommitChange? {
      CommitStep(s, e, first);
    } else {
      QuietWriterStep(s, e);
      VerifiedStep(s, e);
      hide Apply, Enabled;
    }
  }

  lemma CommitStep(s: Sys, e: Event, first: set<EnvelopeSet>)
    requires WriterInv(s, first) && Enabled(s, e) && e.CommitChange?
    ensures WriterInv(Apply(s, e), first)
  {
    hide Exposed, StillBased, Open, Managed;
  }

  // No other event commits a credential set.
  lemma QuietWriterStep(s: Sys, e: Event)
    requires Enabled(s, e) && !e.CommitChange?
    ensures var s' := Apply(s, e);
      && s'.materialised == s.materialised
      && s'.config.digest in {s.config.digest, s.durable.digest}
      && s'.durable.digest in {s.config.digest, s.durable.digest}
  {
    hide Exposed, StillBased, Open, Managed, Committed;
  }

  // A write counts as verified only once it was read back whole.
  lemma VerifiedStep(s: Sys, e: Event)
    requires Enabled(s, e) && !e.CommitChange?
    ensures var s' := Apply(s, e);
      && s.readBack <= s'.readBack
      && (s'.op.Verified? && s'.op.ch.credentials.Some? ==>
            s'.op.ch.credentials.value in s'.readBack || (s.op.Verified? && s'.op == s.op))
  {
    hide Exposed, StillBased, Open, Managed, Committed;
  }

  lemma ResolversStep(s: Sys, e: Event)
    requires ResolversInv(s) && Enabled(s, e)
    ensures ResolversInv(Apply(s, e))
  {
    hide Exposed, StillBased, Committed, Managed;
  }

  lemma InvStep(s: Sys, e: Event, first: set<EnvelopeSet>)
    requires Inv(s, first) && Enabled(s, e)
    ensures Inv(Apply(s, e), first)
  {
    hide Enabled, Apply;
    WriterStep(s, e, first);
    ResolversStep(s, e);
  }

  lemma {:induction false} RunInv(ss: seq<Sys>, es: seq<Event>, i: nat)
    requires Run(ss, es) && i < |ss|
    ensures Inv(ss[i], ss[0].materialised)
  {
    hide Inv, Enabled, Apply;
    if i == 0 {
      InitInv(ss[0]);
    } else {
      RunInv(ss, es, i - 1);
      InvStep(ss[i - 1], es[i - 1], ss[0].materialised);
    }
  }

  lemma InitInv(s: Sys)
    requires Init(s)
    ensures Inv(s, s.materialised)
  {
  }

  // ---------------------------------------------------------------- theorems

  // A value ResolveCredential returns comes from a complete set that was the
  // committed one at the final check, and that a writer read back whole before
  // its commit (or that was the persisted set of the first start).
  lemma ResolvedValueIsCommitted(ss: seq<Sys>, es: seq<Event>, i: nat)
    requires Run(ss, es) && i < |es| && es[i].ResolveCheck?
    requires ss[i + 1].resolvers[es[i].r].result.Some?
    ensures var a := ss[i + 1].resolvers[es[i].r].result.value;
            && ss[i].config.digest == DigestOf(a.envelopes)
            && a.field in a.envelopes && Open(a.envelopes[a.field]) == Some(a.value)
            && (a.envelopes in ss[i].readBack || a.envelopes in ss[0].materialised)
            && ss[i].config.active && a.field in ss[i].config.fields && ss[i].op.Idle? && !ss[i].quarantined
  {
    RunInv(ss, es, i);
    assert FromAnswer(ss[i].resolvers[es[i].r].answer);
  }

  // The resolver's answer so far rests on this loaded set.
  predicate Carries(s: Sys, r: nat, envelopes: EnvelopeSet) {
    r in s.resolvers &&
    match s.resolvers[r]
    case ToLoad(_) => false
    case ToOpen(_, loaded) => loaded == envelopes
    case ToCheck(a) => a.envelopes == envelopes
    case Resolved(result) => result.Some? && result.value.envelopes == envelopes
  }

  lemma CarriesStep(s: Sys, e: Event, r: nat, envelopes: EnvelopeSet)
    requires Enabled(s, e) && Carries(Apply(s, e), r, envelopes)
    ensures Carries(s, r, envelopes) || s.store == envelopes
  {
    if e.ResolveStart? || e.ResolveLoad? || e.ResolveOpen? || e.ResolveCheck? {
      hide Exposed, Open;
    } else {
      ResolversKept(s, e);
      hide Apply, Enabled;
    }
  }

  lemma ResolversKept(s: Sys, e: Event)
    requires Enabled(s, e) && !e.ResolveStart? && !e.ResolveLoad? && !e.ResolveOpen? && !e.ResolveCheck?
    ensures Apply(s, e).resolvers == s.resolvers || Apply(s, e).resolvers == map[]
  {
    hide Exposed, StillBased, Committed, Open, Managed;
  }

  // The set it came from was the whole content of the store when it was loaded.
  lemma {:induction false} ResolverReadTheStore(ss: seq<Sys>, es: seq<Event>, i: nat, r: nat, envelopes: EnvelopeSet)
    returns (j: nat)
    requires Run(ss, es) && i < |ss| && Carries(ss[i], r, envelopes)
    ensures j < i && ss[j].store == envelopes
  {
    hide Enabled, Apply;
    assert i > 0;
    CarriesStep(ss[i - 1], es[i - 1], r, envelopes);
    if ss[i - 1].store == envelopes {
      j := i - 1;
    } else {
      j := ResolverReadTheStore(ss, es, i - 1, r, envelopes);
    }
  }

  // Quarantine, and an uncertain write on its way to it, last until a restart.
  predicate Blocked(s: Sys) { s.quarantined || s.op.Uncertain? }

  lemma {:induction false} BlockedUntilRestart(ss: seq<Sys>, es: seq<Event>, i: nat, j: nat)
    requires Run(ss, es) && i <= j < |ss| && Blocked(ss[i])
    requires forall k :: i <= k < j ==> !es[k].Crash?
    ensures Blocked(ss[j])
    decreases j - i
  {
    hide Exposed, StillBased, Committed, Open;
    if i < j {
      BlockedUntilRestart(ss, es, i, j - 1);
      assert ss[j] == Apply(ss[j - 1], es[j - 1]);
    }
  }

  // After a write whose read-back proved neither the new nor the old set, no
  // resolution succeeds until the process restarts.
  lemma UncertainWriteIsNeverExposed(ss: seq<Sys>, es: seq<Event>, i: nat, j: nat)
    requires Run(ss, es) && i <= j < |es| && Blocked(ss[i])
    requires forall k :: i <= k < j ==> !es[k].Crash?
    requires es[j].ResolveCheck?
    ensures ss[j + 1].resolvers[es[j].r] == Resolved(None)
  {
    BlockedUntilRestart(ss, es, i, j);
    assert ss[j + 1] == Apply(ss[j], es[j]);
  }

  // Restart reconciliation: a connection with managed fields leaves start-up
  // unquarantined only if the stored set it compared was the committed one.
  lemma ReconcileExposesOnlyMatches(ss: seq<Sys>, es: seq<Event>, i: nat, j: nat)
    requires Run(ss, es) && i < j < |es| && es[i].BootCompare? && es[j].BootFinish?
    requires forall k :: i < k < j ==> !es[k].Crash?
    requires Managed(ss[j].config) && !ss[j + 1].quarantined
    ensures es[i].readable && ss[j].config.digest == DigestOf(ss[i].store)
  {
    BootHolds(ss, es, i, j);
    assert ss[j + 1] == Apply(ss[j], es[j]);
  }

  // And it quarantines nothing else: a readable stored set that was the committed
  // one, or a connection without managed fields, stays usable.
  lemma ReconcileQuarantinesOnlyMismatches(ss: seq<Sys>, es: seq<Event>, i: nat, j: nat)
    requires Run(ss, es) && i < j < |es| && es[i].BootCompare? && es[j].BootFinish?
    requires forall k :: i < k < j ==> !es[k].Crash?
    ensures ss[j + 1].quarantined <==>
              || ss[j].quarantined
              || (ss[j].config.active && ss[j].config.fields != {}
                  && !(es[i].readable && ss[i].config.digest == DigestOf(ss[i].store)))
    ensures ss[j + 1].boot.Ready? && ss[j].config == ss[i].config
  {
    BootHolds(ss, es, i, j);
    assert Enabled(ss[j], es[j]) && ss[j + 1] == Apply(ss[j], es[j]) && ss[i + 1] == Apply(ss[i], es[i]);
  }

  lemma BootStep(s: Sys, e: Event)
    requires ResolversInv(s) && Enabled(s, e) && !e.Crash? && !s.boot.ToCompare?
    ensures var s' := Apply(s, e); s'.boot.Ready? || (s'.boot == s.boot && s'.config == s.config)
  {
    hide Exposed, StillBased, Committed, Open, Managed, ResolverOk;
  }

  lemma {:induction false} BootHolds(ss: seq<Sys>, es: seq<Event>, i: nat, j: nat)
    requires Run(ss, es) && i < j < |es| && es[i].BootCompare?
    requires forall k :: i < k < j ==> !es[k].Crash?
    ensures ss[j].boot.Ready? || (ss[j].boot == ss[i + 1].boot && ss[j].config == ss[i].config)
    ensures !ss[j].boot.ToCompare?
    decreases j - i
  {
    hide Apply, Enabled, WriterInv, ResolversInv, Init;
    if i + 1 < j {
      BootHolds(ss, es, i, j - 1);
      RunInv(ss, es, j - 1);
      BootStep(ss[j - 1], es[j - 1]);
    } else {
      CompareStep(ss[i], es[i]);
    }
  }

  lemma CompareStep(s: Sys, e: Event)
    requires Enabled(s, e) && e.BootCompare?
    ensures Apply(s, e).boot.Compared? && Apply(s, e).config == s.config
  {
  }

  // ------------------------------------------------------ what commits keep

  // A change commits exactly when nothing was committed since it began and the
  // record is as it found it. Without credentials it leaves the managed fields
  // and the digest as they are; with a sealed set they become that set's.
  lemma CommitsMaterialise(ss: seq<Sys>, es: seq<Event>, i: nat)
    requires Run(ss, es) && i < |es| && es[i].CommitChange?
    ensures var (op, c, c') := (ss[i].op, ss[i].config, ss[i + 1].config);
      var commits := op.base == ss[i].generation && c.active == !op.ch.create && (c.active ==> c.revision == op.revision);
      && (!commits ==> c' == c && ss[i + 1].generation == ss[i].generation)
      && (!commits && op.ch.credentials.Some? ==> ss[i + 1].quarantined)
      && (commits ==> c'.active && c'.revision == op.ch.revision && ss[i + 1].generation == ss[i].generation + 1)
      && (commits && op.ch.credentials.None? && !op.ch.create ==> c'.fields == c.fields && c'.digest == c.digest)
      && (commits && op.ch.credentials.None? && op.ch.create ==> c'.fields == {} && c'.digest == NoDigest)
      && (commits && op.ch.credentials.Some? ==>
            c'.fields == op.ch.credentials.value.Keys && c'.digest == DigestOf(op.ch.credentials.value))
      && ss[i + 1].op.Closing? && ss[i + 1].store == ss[i].store
      && (commits ==> ss[i + 1].quarantined == ss[i].quarantined)
  {
    assert Enabled(ss[i], es[i]) && ss[i + 1] == Apply(ss[i], es[i]);
  }

  // Retiring keeps what was committed and only ends the activity.
  lemma RetirementKeepsTheRest(ss: seq<Sys>, es: seq<Event>, i: nat)
    requires Run(ss, es) && i < |es| && es[i].CommitRetire?
    ensures var (op, c, c') := (ss[i].op, ss[i].config, ss[i + 1].config);
      var commits := op.base == ss[i].generation && c.active && c.revision == op.revision;
      && c' == (if commits then Config(false, c.revision, c.fields, c.digest) else c) && ss[i + 1].op.Closing?
      && ss[i + 1].generation == ss[i].generation + (if commits then 1 else 0)
  {
    assert Enabled(ss[i], es[i]) && ss[i + 1] == Apply(ss[i], es[i]);
  }

  // What the writer's read-back decides.
  lemma ReadBackDecides(ss: seq<Sys>, es: seq<Event>, i: nat)
    requires Run(ss, es) && i < |es| && es[i].ReadBack? && ss[i].op.ch.credentials.Some?
    ensures var (op, op') := (ss[i].op, ss[i + 1].op);
      && (es[i].readable && ss[i].store == op.ch.credentials.value ==> op' == Verified(op.ch, op.base, op.revision))
      && (es[i].readable && ss[i].store == op.previous && ss[i].store != op.ch.credentials.value ==> op'.Closing?)
      && (!es[i].readable || ss[i].store !in {op.ch.credentials.value, op.previous} ==> op'.Uncertain?)
      && ss[i + 1].config == ss[i].config && ss[i + 1].quarantined == ss[i].quarantined
  {
    assert Enabled(ss[i], es[i]) && ss[i + 1] == Apply(ss[i], es[i]);
  }

  // ---------------------------------------------------- resolution succeeds

  // The connection is active, idle and unquarantined from state i to state j,
  // and the process does not restart in between.
  ghost predicate Quiet(ss: seq<Sys>, es: seq<Event>, i: nat, j: nat) {
    && i <= j < |ss| && j <= |es|
    && (forall k :: i <= k <= j ==> ss[k].config.active && ss[k].op.Idle? && !ss[k].quarantined)
    && forall k :: i <= k < j ==> !es[k].Crash?
  }

  lemma QuietStep(s: Sys, e: Event, r: nat)
    requires Enabled(s, e) && s.op.Idle? && !e.Crash?
    ensures Apply(s, e).config == s.config
    ensures r in s.resolvers && e != ResolveOpen(r) && e != ResolveCheck(r) && !(e.ResolveLoad? && e.r == r) ==>
              r in Apply(s, e).resolvers && Apply(s, e).resolvers[r] == s.resolvers[r]
  {
    hide Exposed, StillBased, Committed, Open, Managed;
  }

  lemma QuietAt(ss: seq<Sys>, es: seq<Event>, k: nat, r: nat)
    requires Run(ss, es) && k < |es| && ss[k].op.Idle? && !es[k].Crash?
    ensures ss[k + 1].config == ss[k].config
    ensures r in ss[k].resolvers && Untouched(es, k, k + 1, r) ==>
              r in ss[k + 1].resolvers && ss[k + 1].resolvers[r] == ss[k].resolvers[r]
  {
    hide Enabled, Apply;
    assert Enabled(ss[k], es[k]) && ss[k + 1] == Apply(ss[k], es[k]);
    QuietStep(ss[k], es[k], r);
  }

  // Nothing else touches resolver r between its own steps.
  ghost predicate Untouched(es: seq<Event>, i: nat, j: nat, r: nat) {
    i <= j <= |es| && forall k :: i <= k < j ==>
      es[k] != ResolveOpen(r) && es[k] != ResolveCheck(r) && !(es[k].ResolveLoad? && es[k].r == r)
  }

  lemma {:induction false} QuietRun(ss: seq<Sys>, es: seq<Event>, i: nat, j: nat, r: nat)
    requires Run(ss, es) && Quiet(ss, es, i, j) && Untouched(es, i, j, r)
    ensures ss[j].config == ss[i].config
    ensures r in ss[i].resolvers ==> r in ss[j].resolvers && ss[j].resolvers[r] == ss[i].resolvers[r]
    decreases j - i
  {
    if i < j {
      hide Run;
      QuietRun(ss, es, i, j - 1, r);
      QuietAt(ss, es, j - 1, r);
    }
  }

  // A managed field resolves: when the connection stays active, idle and
  // unquarantined from the start of a resolution at i over its load at k and its
  // decryption at m to its check at j, the load works, the store then holds the
  // committed set, and the field's envelope is authentic, then the answer is the
  // plaintext.
  lemma CommittedFieldsResolve(ss: seq<Sys>, es: seq<Event>, i: nat, k: nat, m: nat, j: nat, r: nat, field: string)
    requires Run(ss, es) && i < k < m < j < |es| && Quiet(ss, es, i, j)
    requires es[i] == ResolveStart(r, field) && es[k] == ResolveLoad(r, true)
    requires es[m] == ResolveOpen(r) && es[j] == ResolveCheck(r)
    requires field in ss[i].config.fields && field in ss[k].store && ss[k].store[field].authentic
    requires ss[i].config.digest == DigestOf(ss[k].store)
    requires Untouched(es, i + 1, k, r) && Untouched(es, k + 1, m, r) && Untouched(es, m + 1, j, r)
    ensures r in ss[j + 1].resolvers
    ensures ss[j + 1].resolvers[r] == Resolved(Some(Answer(field, ss[k].store[field].plaintext, ss[k].store)))
  {
    var envelopes, value := ss[k].store, ss[k].store[field].plaintext;
    ResolverSteps(ss, es, i, r, field);
    QuietRun(ss, es, i + 1, k, r);
    ConfigKept(ss, es, i, k);
    assert ss[k].resolvers[r] == ToLoad(field);
    LoadStep(ss[k], es[k], ss[k + 1], r, field);
    QuietRun(ss, es, k + 1, m, r);
    OpenStep(ss[m], es[m], ss[m + 1], r, field, envelopes);
    QuietRun(ss, es, m + 1, j, r);
    ConfigKept(ss, es, i, j);
    CheckStep(ss[j], es[j], ss[j + 1], r, Answer(field, value, envelopes));
  }

  lemma {:induction false} ConfigKept(ss: seq<Sys>, es: seq<Event>, i: nat, j: nat)
    requires Run(ss, es) && Quiet(ss, es, i, j)
    ensures ss[j].config == ss[i].config
    decreases j - i
  {
    if i < j {
      hide Run;
      ConfigKept(ss, es, i, j - 1);
      QuietAt(ss, es, j - 1, 0);
    }
  }

  lemma ResolverSteps(ss: seq<Sys>, es: seq<Event>, i: nat, r: nat, field: string)
    requires Run(ss, es) && i < |es| && es[i] == ResolveStart(r, field)
    requires ss[i].config.active && ss[i].op.Idle? && !ss[i].quarantined && field in ss[i].config.fields
    ensures r in ss[i + 1].resolvers && ss[i + 1].resolvers[r] == ToLoad(field)
  {
    assert Enabled(ss[i], es[i]) && ss[i + 1] == Apply(ss[i], es[i]);
  }

  lemma LoadStep(s: Sys, e: Event, s': Sys, r: nat, field: string)
    requires Enabled(s, e) && s' == Apply(s, e) && e == ResolveLoad(r, true) && s.resolvers[r] == ToLoad(field)
    ensures r in s'.resolvers && s'.resolvers[r] == ToOpen(field, s.store)
  {
  }

  lemma OpenStep(s: Sys, e: Event, s': Sys, r: nat, field: string, envelopes: EnvelopeSet)
    requires Enabled(s, e) && s' == Apply(s, e) && e == ResolveOpen(r) && s.resolvers[r] == ToOpen(field, envelopes)
    requires field in envelopes && envelopes[field].authentic
    ensures r in s'.resolvers && s'.resolvers[r] == ToCheck(Answer(field, envelopes[field].plaintext, envelopes))
  {
  }

  lemma CheckStep(s: Sys, e: Event, s': Sys, r: nat, a: Answer)
    requires Enabled(s, e) && s' == Apply(s, e) && e == ResolveCheck(r) && s.resolvers[r] == ToCheck(a)
    requires s.config.active && s.op.Idle? && !s.quarantined && a.field in s.config.fields
    requires s.config.digest == DigestOf(a.envelopes)
    ensures r in s'.resolvers && s'.resolvers[r] == Resolved(Some(a))
  {
  }

  // ------------------------------------------------------ what the writer does

  // A change begins on the current generation and revision, loads the previous
  // set, and goes on only if that and the re-check after the callback allow it;
  // a set is then handed to the store, and a doubtful one quarantines.
  lemma WriterSteps(ss: seq<Sys>, es: seq<Event>, i: nat)
    requires Run(ss, es) && i < |es|
    requires var e := es[i];
      || e.Begin? || e.LoadPrevious? || e.Authorize? || e.Replace? || e.Quarantine?
      || e.BeginRetire? || e.Abort? || e.FinishPending?
    ensures var (s, s', e) := (ss[i], ss[i + 1], es[i]);
      && s'.config == s.config && s'.generation == s.generation && s'.durable == s.durable
      && s'.resolvers == s.resolvers && s'.boot == s.boot
      && s'.store == (if e.Replace? then e.left else s.store)
      && s'.quarantined == (s.quarantined || e.Quarantine?)
    ensures var (op, op', e) := (ss[i].op, ss[i + 1].op, es[i]);
      && (e.Begin? ==> op.Idle? && op' == Begun(e.ch, ss[i].generation, ss[i].config.revision))
      && (e.BeginRetire? ==> op.Idle? && op' == Retiring(ss[i].generation, ss[i].config.revision))
      && (e.LoadPrevious? ==>
            op' == if e.readable && (op.ch.create ==> ss[i].store == map[])
                   then Loaded(op.ch, op.base, op.revision, ss[i].store) else Closing)
      && (e.Replace? ==> op' == Wrote(op.ch, op.base, op.revision, op.previous))
      && (e.Quarantine? || e.Abort? ==> op'.Closing?)
      && (e.FinishPending? ==> op.Closing? && op'.Idle?)
    ensures var (s, op, op', e) := (ss[i], ss[i].op, ss[i + 1].op, es[i]);
      e.Authorize? ==>
        var current := s.generation == op.base && s.config.active == !op.ch.create
                       && (s.config.active ==> s.config.revision == op.revision);
        op' == if !e.ok || !current then Closing
               else if op.ch.credentials.None? then Verified(op.ch, op.base, op.revision)
               else Writing(op.ch, op.base, op.revision, op.previous)
  {
    hide Inv;
    assert Enabled(ss[i], es[i]) && ss[i + 1] == Apply(ss[i], es[i]);
    if es[i].Authorize? {
      LoadedHasCredentials(ss, es, i);
    }
  }

  lemma {:induction false} LoadedHasCredentials(ss: seq<Sys>, es: seq<Event>, i: nat)
    requires Run(ss, es) && i < |ss|
    ensures ss[i].op.Loaded? ==> ss[i].op.ch.credentials.Some?
  {
    if i > 0 {
      LoadedHasCredentials(ss, es, i - 1);
      assert Enabled(ss[i - 1], es[i - 1]) && ss[i] == Apply(ss[i - 1], es[i - 1]);
    }
  }

  // What happens around the writer: other commits count, the store and the
  // durable record change on their own, and a restart begins from the durable
  // record with nothing pending, quarantined or resolving.
  lemma OutsideSteps(ss: seq<Sys>, es: seq<Event>, i: nat)
    requires Run(ss, es) && i < |es| && (es[i].OtherCommit? || es[i].StoreChanges? || es[i].Persist? || es[i].Crash?)
    ensures var (s, s', e) := (ss[i], ss[i + 1], es[i]);
      && s'.store == (if e.StoreChanges? then e.now else s.store)
      && s'.durable == (if e.Persist? then s.config else s.durable)
      && (!e.Crash? ==>
            && s'.config == s.config && s'.op == s.op && s'.quarantined == s.quarantined && s'.resolvers == s.resolvers
            && s'.boot == s.boot && s'.generation == s.generation + (if e.OtherCommit? then 1 else 0))
      && (e.Crash? ==>
            && s'.config == s.durable && s'.op.Idle? && !s'.quarantined && s'.resolvers == map[]
            && s'.boot.ToCompare? && s'.generation == 1)
  {
    assert Enabled(ss[i], es[i]) && ss[i + 1] == Apply(ss[i], es[i]);
  }

  // Nothing but resolutions and saves happens from i to j.
  ghost predicate Still(es: seq<Event>, i: nat, j: nat) {
    i <= j <= |es| && forall k :: i <= k < j ==>
      es[k].Persist? || es[k].ResolveStart? || es[k].ResolveLoad? || es[k].ResolveOpen? || es[k].ResolveCheck?
  }

  lemma StillStep(s: Sys, e: Event)
    requires Enabled(s, e)
    requires e.Persist? || e.ResolveStart? || e.ResolveLoad? || e.ResolveOpen? || e.ResolveCheck?
    ensures var s' := Apply(s, e);
      && s'.config == s.config && s'.generation == s.generation && s'.op == s.op && s'.store == s.store
      && s'.quarantined == s.quarantined
  {
    hide Exposed, Open;
  }

  lemma {:induction false} StillRun(ss: seq<Sys>, es: seq<Event>, i: nat, j: nat)
    requires Run(ss, es) && Still(es, i, j)
    ensures ss[j].config == ss[i].config && ss[j].generation == ss[i].generation && ss[j].op == ss[i].op
    ensures ss[j].store == ss[i].store && ss[j].quarantined == ss[i].quarantined
    decreases j - i
  {
    if i < j {
      hide Enabled, Apply;
      StillRun(ss, es, i, j - 1);
      assert Enabled(ss[j - 1], es[j - 1]) && ss[j] == Apply(ss[j - 1], es[j - 1]);
      hide Run;
      StillStep(ss[j - 1], es[j - 1]);
    }
  }

  // The events of an undisturbed write, and when they happen.
  ghost predicate Writes(es: seq<Event>, ch: Change, sealed: EnvelopeSet, at: seq<nat>) {
    && ch.credentials == Some(sealed)
    && |at| == 6 && at[0] < at[1] < at[2] < at[3] < at[4] < at[5] < |es|
    && es[at[0]] == Begin(ch) && es[at[1]] == LoadPrevious(true) && es[at[2]] == Authorize(true)
    && es[at[3]] == Replace(sealed) && es[at[4]] == ReadBack(true) && es[at[5]] == CommitChange
    && Still(es, at[0] + 1, at[1]) && Still(es, at[1] + 1, at[2]) && Still(es, at[2] + 1, at[3])
    && Still(es, at[3] + 1, at[4]) && Still(es, at[4] + 1, at[5])
  }

  // A write that nothing disturbs takes effect: the store holds the sealed set
  // and the connection is committed with its fields and digest.
  lemma UndisturbedWriteCommits(ss: seq<Sys>, es: seq<Event>, ch: Change, sealed: EnvelopeSet, at: seq<nat>)
    requires Run(ss, es) && ch.credentials == Some(sealed)
    requires |at| == 6 && at[0] < at[1] < at[2] < at[3] < at[4] < at[5] < |es|
    requires es[at[0]] == Begin(ch) && es[at[1]] == LoadPrevious(true) && es[at[2]] == Authorize(true)
    requires es[at[3]] == Replace(sealed) && es[at[4]] == ReadBack(true) && es[at[5]] == CommitChange
    requires Still(es, at[0] + 1, at[1]) && Still(es, at[1] + 1, at[2]) && Still(es, at[2] + 1, at[3])
    requires Still(es, at[3] + 1, at[4]) && Still(es, at[4] + 1, at[5])
    requires ch.create ==> ss[at[0]].store == map[]
    ensures var (s, s') := (ss[at[0]], ss[at[5] + 1]);
      && s'.config == Config(true, ch.revision, sealed.Keys, DigestOf(sealed))
      && s'.store == sealed && s'.generation == s.generation + 1 && s'.quarantined == s.quarantined
  {
    WriteIsHandedOver(ss, es, ch, sealed, at);
    assert |ss| == |es| + 1;
    hide Run, Still;
    var s := ss[at[0]];
    StillRun(ss, es, at[3] + 1, at[4]);
    ReadBackDecides(ss, es, at[4]);
    ReadBackKeeps(ss, es, at[4]);
    StillRun(ss, es, at[4] + 1, at[5]);
    CommitsMaterialise(ss, es, at[5]);
  }

  lemma WriteIsHandedOver(ss: seq<Sys>, es: seq<Event>, ch: Change, sealed: EnvelopeSet, at: seq<nat>)
    requires Run(ss, es) && Writes(es, ch, sealed, at)
    requires ch.create ==> ss[at[0]].store == map[]
    ensures var (s, s') := (ss[at[0]], ss[at[3] + 1]);
      && s.config.active == !ch.create
      && s' == s'.(op := Wrote(ch, s.generation, s.config.revision, s.store), store := sealed, config := s.config,
                   generation := s.generation, quarantined := s.quarantined)
  {
    assert |ss| == |es| + 1;
    hide Run, Still;
    BeginsActive(ss, es, at[0]);
    WriterSteps(ss, es, at[0]);
    StillRun(ss, es, at[0] + 1, at[1]);
    WriterSteps(ss, es, at[1]);
    StillRun(ss, es, at[1] + 1, at[2]);
    WriterSteps(ss, es, at[2]);
    StillRun(ss, es, at[2] + 1, at[3]);
    WriterSteps(ss, es, at[3]);
  }

  lemma BeginsActive(ss: seq<Sys>, es: seq<Event>, i: nat)
    requires Run(ss, es) && i < |es| && es[i].Begin?
    ensures ss[i].config.active == !es[i].ch.create
  {
    assert Enabled(ss[i], es[i]);
  }

  lemma ReadBackKeeps(ss: seq<Sys>, es: seq<Event>, i: nat)
    requires Run(ss, es) && i < |es| && es[i].ReadBack?
    ensures ss[i + 1].store == ss[i].store && ss[i + 1].generation == ss[i].generation
  {
    assert ss[i + 1] == Apply(ss[i], es[i]);
  }

  // No operation is stuck: whatever the store answers it has its next event, and
  // an idle connection may begin one.
  lemma NoOperationIsStuck(s: Sys, b: bool, left: EnvelopeSet)
    ensures match s.op
            case Idle => true
            case Begun(ch, _, _) =>
              Enabled(s, Abort) && Enabled(s, if ch.credentials.Some? then LoadPrevious(b) else Authorize(b))
            case Loaded(_, _, _, _) => Enabled(s, Abort) && Enabled(s, Authorize(b))
            case Writing(_, _, _, _) => Enabled(s, Replace(left))
            case Wrote(_, _, _, _) => Enabled(s, ReadBack(b))
            case Uncertain => Enabled(s, Quarantine)
            case Verified(_, _, _) => Enabled(s, CommitChange)
            case Retiring(_, _) => Enabled(s, Abort) && Enabled(s, CommitRetire)
            case Closing => Enabled(s, FinishPending)
    ensures s.boot.Ready? && s.op.Idle? && s.config.active ==>
              Enabled(s, BeginRetire) && forall ch: Change :: !ch.create ==> Enabled(s, Begin(ch))
    ensures s.boot.Ready? && s.op.Idle? && !s.config.active && !s.quarantined ==>
              forall ch: Change :: ch.create ==> Enabled(s, Begin(ch))
  {
  }

  // Neither is start-up or a resolution, and what happens outside may always
  // happen.
  lemma NoResolutionIsStuck(s: Sys, b: bool, left: EnvelopeSet, r: nat)
    ensures s.boot.ToCompare? ==> Enabled(s, BootCompare(b))
    ensures s.boot.Compared? ==> Enabled(s, BootFinish)
    ensures r in s.resolvers && !s.resolvers[r].Resolved? ==>
              Enabled(s, ResolveLoad(r, b)) || Enabled(s, ResolveOpen(r)) || Enabled(s, ResolveCheck(r))
    ensures s.boot.Ready? && r !in s.resolvers ==> forall field :: Enabled(s, ResolveStart(r, field))
    ensures Enabled(s, OtherCommit) && Enabled(s, Persist) && Enabled(s, Crash) && Enabled(s, StoreChanges(left))
  {
  }
}
