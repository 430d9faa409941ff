/**
 * What each operation of the idempotency log does, told by what a load reads
 * before and after it, in any run that keeps the caller rules.
 */
module IdempotencyMeaning {
  import opened Common
  import opened IdempotencyLog
  import opened IdempotencyRuns

  // ------------------------------------------------------ one moment of a run

  lemma {:induction false} RunStep(rows: seq<Row>, ops: seq<Op>, n: nat)
    requires n < |ops|
    ensures Run(rows, ops[..n + 1]).0 == Step(Run(rows, ops[..n]).0, ops[n]).0
    ensures Run(rows, ops).1[n] == Step(Run(rows, ops[..n]).0, ops[n]).1
    decreases n
  {
    var rows' := Step(rows, ops[0]).0;
    assert ops[..n + 1][0] == ops[0] && ops[..n + 1][1..] == ops[1..][..n];
    if n == 0 {
      assert ops[..0] == [] && ops[1..][..0] == [];
    } else {
      assert ops[..n][0] == ops[0] && ops[..n][1..] == ops[1..][..n - 1] && ops[1..][n - 1] == ops[n];
      RunStep(rows', ops[1..], n - 1);
    }
  }

  lemma {:induction false} AbsPrefix(rows: seq<Row>, abs: Abs, ops: seq<Op>, n: nat)
    requires Rep(rows, abs) && Obeys(abs, ops) && n < |ops|
    ensures Rep(Run(rows, ops[..n]).0, AbsRun(abs, ops[..n]).0)
    ensures CallerRules(AbsRun(abs, ops[..n]).0, ops[n])
    decreases n
  {
    hide Rep, Step, AbsStep, CallerRules;
    if n == 0 {
      assert ops[..0] == [];
    } else {
      assert ops[..n][0] == ops[0] && ops[..n][1..] == ops[1..][..n - 1] && ops[1..][n - 1] == ops[n];
      StepRefines(rows, abs, ops[0]);
      AbsPrefix(Step(rows, ops[0]).0, AbsStep(abs, ops[0]).0, ops[1..], n - 1);
    }
  }

  // ------------------------------------------------------------ raw validity

  predicate PlainAttempt(a: string) {
    && (exists i :: 0 <= i < |a| && !IsSpace(a[i])) && |a| <= 200
    && forall i :: 0 <= i < |a| ==> ' ' <= a[i] && a[i] != '\U{7F}'
  }

  predicate PlainRecord(r: Record) {
    && !Blank(r.scope) && !Blank(r.key) && !Blank(r.digest) && !Blank(r.createdAt) && IsHex(r.digest)
    && 100 <= r.status <= 599 && |r.body| <= 4 * 1024 * 1024
  }

  // A row of this key and base scope carries another digest.
  predicate OtherDigest(rows: seq<Row>, scope: string, key: string, digest: string) {
    exists i :: 0 <= i < |rows| && rows[i].key == key && InFamily(rows[i].scope, scope) && rows[i].digest != digest
  }

  lemma FamilyDigest(rows: seq<Row>, abs: Abs, scope: string, key: string, digest: string)
    requires Rep(rows, abs) && NulFree(scope)
    ensures OtherDigest(rows, scope, key, digest) <==> (scope, key) in abs && abs[(scope, key)].digest != digest
  {
    hide Decodable, NulFree, TagScope, InFamily;
    if OtherDigest(rows, scope, key, digest) {
      var i :| 0 <= i < |rows| && rows[i].key == key && InFamily(rows[i].scope, scope) && rows[i].digest != digest;
      assert RowOk(rows[i], abs);
      FamilyBase(rows[i].scope, scope);
    }
    if (scope, key) in abs {
      EntryOfRep(rows, abs, (scope, key));
      var newest := Newest(rows, scope, key).value;
      var i :| 0 <= i < |rows| && rows[i] == newest;
    }
  }

  // ------------------------------------------------------------ reservation

  // A valid reservation: another digest in the family is a conflict; otherwise
  // it wins exactly when nothing is pending or finished, and is then pending
  // under its attempt.
  lemma ReserveAnswers(rows: seq<Row>, abs: Abs, r: Record)
    requires Rep(rows, abs) && CallerRules(abs, OpReserve(r))
    requires r.state.Reserved? && PlainRecord(r) && PlainAttempt(r.attempt) && StorableKey(r.key)
    ensures var (rows', o) := Step(rows, OpReserve(r));
      var (before, after) := (Load(rows, r.scope, r.key), Load(rows', r.scope, r.key));
      if OtherDigest(rows, r.scope, r.key, r.digest) then o == Conflict && after == before
      else if before == NotFound then o == Done && after == Pending(r.attempt, None)
      else o == NotReserved && after == before
  {
    hide Rep, Blank, IsHex, StorableKey, NulFree, OtherDigest, Step, Load;
    StepRefines(rows, abs, OpReserve(r));
    FamilyDigest(rows, abs, r.scope, r.key, r.digest);
    LoadRefines(rows, abs, r.scope, r.key);
    LoadRefines(Step(rows, OpReserve(r)).0, AbsStep(abs, OpReserve(r)).0, r.scope, r.key);
    assert !Blank(r.attempt) by { AttemptNotBlank(r.attempt); }
  }

  lemma AttemptNotBlank(a: string)
    requires PlainAttempt(a)
    ensures !Blank(a)
  {
  }

  // --------------------------------------------------------------- effects

  predicate PlainMutation(m: Mutation) {
    && !Blank(m.operation) && !Blank(m.resourceKind) && !Blank(m.resourceId) && !Blank(m.revision)
    && !Blank(m.scope) && !Blank(m.key) && !Blank(m.digest) && IsHex(m.digest) && PlainAttempt(m.attempt)
  }

  // The holder's effect is read back with every field as it was given; a second
  // effect is accepted exactly if it is the same one.
  lemma EffectIsRead(rows: seq<Row>, abs: Abs, m: Mutation)
    requires Rep(rows, abs) && CallerRules(abs, OpEffect(m)) && PlainMutation(m)
    ensures var (rows', o) := Step(rows, OpEffect(m));
      var (before, after) := (Load(rows, m.scope, m.key), Load(rows', m.scope, m.key));
      && before.Pending? && before.attempt == m.attempt
      && (before.effect.None? ==> o == Done)
      && (o == Done ==>
            && after.Pending? && after.attempt == m.attempt && after.effect.Some?
            && after.effect.value.scope == m.scope && after.effect.value.key == m.key
            && after.effect.value.digest == m.digest && after.effect.value.attempt == m.attempt
            && after.effect.value.operation == m.operation && after.effect.value.resourceKind == m.resourceKind
            && after.effect.value.resourceId == m.resourceId && after.effect.value.revision == m.revision)
      && (before.effect.Some? ==> after == before)
      && (o != Done ==> o == Failed && after == before)
  {
    hide Rep, Blank, IsHex, NulFree, Step, Load;
    StepRefines(rows, abs, OpEffect(m));
    LoadRefines(rows, abs, m.scope, m.key);
    LoadRefines(Step(rows, OpEffect(m)).0, AbsStep(abs, OpEffect(m)).0, m.scope, m.key);
    AttemptNotBlank(m.attempt);
  }

  // --------------------------------------------------------------- release

  // A valid release that reports success leaves nothing to be found; while a
  // reservation is pending it succeeds exactly for the holder's attempt and digest.
  lemma ReleaseAnswers(rows: seq<Row>, abs: Abs, r: Record)
    requires Rep(rows, abs) && CallerRules(abs, OpRelease(r))
    requires r.state.Reserved? && PlainRecord(r) && PlainAttempt(r.attempt)
    ensures var (rows', o) := Step(rows, OpRelease(r));
      var (before, after) := (Load(rows, r.scope, r.key), Load(rows', r.scope, r.key));
      && (o == Done ==> after == NotFound)
      && (o != Done ==> o == Failed && after == before)
      && (before.Finished? ==> o == Failed)
      && (before.Pending? ==>
            (o == Done <==> before.attempt == r.attempt && !OtherDigest(rows, r.scope, r.key, r.digest)))
  {
    hide Rep, Blank, IsHex, NulFree, OtherDigest, Step, Load;
    StepRefines(rows, abs, OpRelease(r));
    FamilyDigest(rows, abs, r.scope, r.key, r.digest);
    LoadRefines(rows, abs, r.scope, r.key);
    LoadRefines(Step(rows, OpRelease(r)).0, AbsStep(abs, OpRelease(r)).0, r.scope, r.key);
    AttemptNotBlank(r.attempt);
  }

  // ------------------------------------------------------------- completion

  // A valid completion without an effect of its own succeeds exactly for the
  // holder of a pending reservation, and is then read back with its status, body
  // and replayability and with the effect that was pending.
  lemma CompletionIsRead(rows: seq<Row>, abs: Abs, r: Record)
    requires Rep(rows, abs) && CallerRules(abs, OpComplete(r))
    requires r.state.Completed? && PlainRecord(r) && PlainAttempt(r.attempt) && r.effect.None?
    requires !Blank(r.kind) && !Blank(r.resourceId) && r.kind != EFFECT_KIND
    ensures var (rows', o) := Step(rows, OpComplete(r));
      var (before, after) := (Load(rows, r.scope, r.key), Load(rows', r.scope, r.key));
      && (o == Done <==> before.Pending? && before.attempt == r.attempt && !OtherDigest(rows, r.scope, r.key, r.digest))
      && (o == Done ==> after == Finished(r.attempt, r.status, r.body, r.replayable, before.effect))
      && (o != Done ==> o == Failed && after == before)
  {
    hide Rep, Blank, IsHex, NulFree, OtherDigest, Step, Load;
    StepRefines(rows, abs, OpComplete(r));
    FamilyDigest(rows, abs, r.scope, r.key, r.digest);
    LoadRefines(rows, abs, r.scope, r.key);
    LoadRefines(Step(rows, OpComplete(r)).0, AbsStep(abs, OpComplete(r)).0, r.scope, r.key);
    AttemptNotBlank(r.attempt);
    HeldEffectIsValid(rows, abs, (r.scope, r.key));
  }

  // The effect of a held entry was stored by its holder with the entry's digest.
  lemma HeldEffectIsValid(rows: seq<Row>, abs: Abs, id: Id)
    requires Rep(rows, abs)
    ensures id in abs && abs[id].phase.Holding? && abs[id].phase.effect.Some? ==>
              ValidEffect(abs[id].phase.effect.value, abs[id].digest, abs[id].phase.attempt)
  {
    hide Blank, IsHex, NulFree, StorableKey, TagScope, Has, ValidEffect;
    if id in abs {
      EntryOfRep(rows, abs, id);
      LatestShowsEntry(rows, abs, id.0, id.1);
    }
  }

  // ------------------------------------------------------------ other keys

  // An operation leaves every other key as it is.
  lemma OthersStay(rows: seq<Row>, abs: Abs, op: Op, scope: string, key: string)
    requires Rep(rows, abs) && CallerRules(abs, op) && NulFree(scope) && !Targets(op, (scope, key))
    ensures Load(Step(rows, op).0, scope, key) == Load(rows, scope, key)
  {
    hide Rep, Blank, IsHex, NulFree, Step, Load, ValidRecord, ValidMutation, ValidAttempt, StorableKey, ValidEffect;
    StepRefines(rows, abs, op);
    LoadRefines(rows, abs, scope, key);
    LoadRefines(Step(rows, op).0, AbsStep(abs, op).0, scope, key);
  }

  // ------------------------------------------------------ the same over runs

  // In every obeying run, an effect that reports success is what the next load
  // of its key reads, field by field.
  lemma RecordedEffectsAreRead(ops: seq<Op>, n: nat, m: Mutation)
    requires Obeys(map[], ops) && n < |ops| && ops[n] == OpEffect(m) && PlainMutation(m)
    requires Run([], ops).1[n] == Done
    ensures var l := Load(Run([], ops[..n + 1]).0, m.scope, m.key);
      && l.Pending? && l.attempt == m.attempt && l.effect.Some?
      && l.effect.value.scope == m.scope && l.effect.value.key == m.key
      && l.effect.value.digest == m.digest && l.effect.value.attempt == m.attempt
      && l.effect.value.operation == m.operation && l.effect.value.resourceKind == m.resourceKind
      && l.effect.value.resourceId == m.resourceId && l.effect.value.revision == m.revision
  {
    hide Rep, Obeys, Step, CallerRules, PlainMutation;
    RunStep([], ops, n);
    EmptyRep();
    AbsPrefix([], map[], ops, n);
    EffectIsRead(Run([], ops[..n]).0, AbsRun(map[], ops[..n]).0, m);
  }

  // In every obeying run, a completion that reports success is what the next
  // load reads: the same status, body and replayability.
  lemma CompletionsAreRead(ops: seq<Op>, n: nat, r: Record)
    requires Obeys(map[], ops) && n < |ops| && ops[n] == OpComplete(r)
    requires r.state.Completed? && PlainRecord(r) && PlainAttempt(r.attempt) && r.effect.None?
    requires !Blank(r.kind) && !Blank(r.resourceId) && r.kind != EFFECT_KIND
    requires Run([], ops).1[n] == Done
    ensures var (before, l) := (Load(Run([], ops[..n]).0, r.scope, r.key), Load(Run([], ops[..n + 1]).0, r.scope, r.key));
      && before.Pending? && before.attempt == r.attempt
      && l == Finished(r.attempt, r.status, r.body, r.replayable, before.effect)
  {
    hide Rep, Obeys, Step, CallerRules, PlainRecord, PlainAttempt, OtherDigest;
    RunStep([], ops, n);
    EmptyRep();
    AbsPrefix([], map[], ops, n);
    CompletionIsRead(Run([], ops[..n]).0, AbsRun(map[], ops[..n]).0, r);
  }

  lemma EmptyRep()
    ensures Rep([], map[])
  {
  }

  // ------------------------------------------------------------- any table

  // What a stored row must look like to be read: a reservation and a release
  // carry no response, an effect belongs to the row's digest and attempt.
  predicate GoodRow(r: Row) {
    && !Blank(r.scope) && !Blank(r.key) && !Blank(r.digest) && !Blank(r.kind) && !Blank(r.resourceId)
    && IsHex(r.digest) && r.responseDigest in {"", r.digest}
    && 100 <= r.status < 600 && r.responseStatus == r.status && |r.body| <= 4194304
    && (r.kind == "idempotency_effect" ==> r.effect.Some?)
    && (r.effect.Some? ==>
          && GoodEffect(r.effect.value)
          && r.effect.value.digest == r.digest && r.effect.value.attempt == r.attempt)
    && match r.state
       case Reserved => r.status == 102 && !r.replayable && |r.body| == 0
       case Released => r.status == 102 && !r.replayable && |r.body| == 0 && !Blank(r.attempt)
       case _ => true
  }

  predicate GoodEffect(e: Effect) {
    && !Blank(e.operation) && !Blank(e.resourceKind) && !Blank(e.resourceId) && !Blank(e.revision)
    && !Blank(e.scope) && !Blank(e.key) && !Blank(e.digest) && IsHex(e.digest) && PlainAttempt(e.attempt)
  }

  lemma GoodRowDecodes(r: Row)
    ensures Decodable(r) <==> GoodRow(r)
  {
    hide Blank, IsHex;
    if r.effect.Some? {
      PlainIsValid(r.effect.value.attempt);
    }
  }

  lemma PlainIsValid(a: string)
    ensures PlainAttempt(a) <==> ValidAttempt(a)
  {
  }

  // Malformed requests are refused and leave the table as it is.
  lemma MalformedIsRefused(rows: seq<Row>, r: Record, m: Mutation)
    ensures !(r.state.Reserved? && PlainRecord(r) && (r.attempt == "" || PlainAttempt(r.attempt))) ==>
              Step(rows, OpReserve(r)) == (rows, Failed)
    ensures !(r.state.Reserved? && PlainRecord(r) && PlainAttempt(r.attempt)) ==>
              Step(rows, OpRelease(r)) == (rows, Failed)
    ensures !(r.state.Completed? && PlainRecord(r) && (r.attempt == "" || PlainAttempt(r.attempt))) ==>
              Step(rows, OpComplete(r)) == (rows, Failed)
    ensures !PlainMutation(m) ==> Step(rows, OpEffect(m)) == (rows, Failed)
  {
    PlainIsValid(r.attempt);
    PlainIsValid(m.attempt);
    hide Blank, IsHex, PlainAttempt, ValidAttempt, LoadLatest, Insert, Exact, Decodable;
  }

  // The text before the first NUL ends at n.
  predicate TextEnds(key: string, n: nat) {
    && n <= |key| && (forall i :: 0 <= i < n ==> key[i] != '\0') && (n == |key| || key[n] == '\0')
  }

  // SQLite stores a key of at most 200 characters up to its first NUL, of which
  // one is no space; a row with any other key is silently left out.
  lemma StorableMeans(key: string, n: nat)
    requires TextEnds(key, n)
    ensures StorableKey(key) <==> n <= 200 && exists i :: 0 <= i < n && key[i] != ' '
  {
    SqlTextIs(key, n);
  }

  lemma {:induction false} SqlTextIs(key: string, n: nat)
    requires TextEnds(key, n)
    ensures SqlText(key) == key[..n]
  {
    if n > 0 {
      SqlTextIs(key[1..], n - 1);
      assert key[..n] == [key[0]] + key[1..][..n - 1];
    }
  }

  lemma UnstorableIsNotStored(rows: seq<Row>, op: Op)
    requires !StorableKey(match op case OpEffect(m) => m.key case _ => op.r.key)
    ensures Step(rows, op).0 == rows && (op.OpReserve? ==> Step(rows, op).1 != Done)
  {
    hide Blank, IsHex, ValidAttempt, LoadLatest, Exact, Decodable, StorableKey;
  }

  // Whatever a table held, a release or completion that reports success leaves a
  // row of its own that says so.
  lemma SuccessIsStored(rows: seq<Row>, r: Record)
    ensures Step(rows, OpRelease(r)).1 == Done ==>
      exists row :: row in Step(rows, OpRelease(r)).0 && row.key == r.key && row.digest == r.digest
                    && row.state.Released? && row.attempt == r.attempt && InFamily(row.scope, r.scope)
    ensures Step(rows, OpComplete(r)).1 == Done ==>
      exists row :: row in Step(rows, OpComplete(r)).0 && row.key == r.key && row.digest == r.digest
                    && row.state.Completed? && row.attempt == r.attempt && InFamily(row.scope, r.scope)
                    && row.status == r.status && row.body == r.body
    ensures Step(rows, OpRelease(r)).1 != Done ==> Step(rows, OpRelease(r)).0 == rows
    ensures Step(rows, OpComplete(r)).1 != Done ==> Step(rows, OpComplete(r)).0 == rows
  {
    hide Blank, IsHex, ValidAttempt, Decodable, StorableKey, Has;
    if Step(rows, OpRelease(r)).1 == Done {
      ReleaseIsStored(rows, r);
    }
    if Step(rows, OpComplete(r)).1 == Done {
      CompletionIsStored(rows, r);
    }
  }

  lemma ReleaseIsStored(rows: seq<Row>, r: Record)
    requires Release(rows, r).1 == Done
    ensures exists row :: row in Release(rows, r).0 && row.key == r.key && row.digest == r.digest
                          && row.state.Released? && row.attempt == r.attempt && InFamily(row.scope, r.scope)
  {
    hide Blank, IsHex, ValidAttempt, Decodable, StorableKey, Has, InFamily;
    TagInFamily(r.scope, Freed, r.attempt);
    var row := ReleaseRow(r);
    if Release(rows, r).0 == rows + [row] {
      assert row in Release(rows, r).0;
    }
  }

  lemma CompletionIsStored(rows: seq<Row>, r: Record)
    requires Complete(rows, r).1 == Done
    ensures exists row :: row in Complete(rows, r).0 && row.key == r.key && row.digest == r.digest
                          && row.state.Completed? && row.attempt == r.attempt && InFamily(row.scope, r.scope)
                          && row.status == r.status && row.body == r.body
  {
    hide Blank, IsHex, ValidAttempt, Decodable, StorableKey, Has;
    var row := CompletionRow(r, LoadLatest(rows, r.scope, r.key).row);
    var back := Exact(Complete(rows, r).0, row.scope, r.key);
    assert back.Some? && back.value in Complete(rows, r).0;
  }

  // Whatever a table holds, a load reads its newest row of the key and scope.
  lemma LoadReadsTheNewestRow(rows: seq<Row>, i: nat, scope: string, key: string)
    requires i < |rows| && !Blank(scope) && !Blank(key) && rows[i].key == key && InFamily(rows[i].scope, scope)
    requires forall j :: i < j < |rows| ==> !(rows[j].key == key && InFamily(rows[j].scope, scope))
    ensures Load(rows, scope, key).LoadError? <==> !GoodRow(rows[i])
    ensures GoodRow(rows[i]) ==> var (row, l) := (rows[i], Load(rows, scope, key));
      && (row.state.Released? ==> l == NotFound)
      && (row.state.Reserved? ==> l == Pending(row.attempt, row.effect))
      && (row.state.Completed? ==> l == Finished(row.attempt, row.status, row.body, row.replayable, row.effect))
      && (row.state.Legacy? ==> l == Finished(row.attempt, row.status, row.body, true, row.effect))
  {
    hide InFamily, Blank, IsHex;
    assert Decodable(rows[i]) <==> GoodRow(rows[i]) by { GoodRowDecodes(rows[i]); }
    hide Decodable, GoodRow;
    NewestIs(rows, i, scope, key);
  }

  lemma {:induction false} NewestIs(rows: seq<Row>, i: nat, scope: string, key: string)
    requires i < |rows| && rows[i].key == key && InFamily(rows[i].scope, scope)
    requires forall j :: i < j < |rows| ==> !(rows[j].key == key && InFamily(rows[j].scope, scope))
    ensures Newest(rows, scope, key) == Some(rows[i])
  {
    hide InFamily;
    if i < |rows| - 1 {
      NewestIs(rows[..|rows| - 1], i, scope, key);
    }
  }

  // A stored effect row carries the fields it was given, and is what a load then
  // reads.
  lemma EffectRowIsStored(rows: seq<Row>, m: Mutation)
    requires RecordEffect(rows, m).1 == Done && RecordEffect(rows, m).0 != rows
    ensures var l := Load(RecordEffect(rows, m).0, m.scope, m.key);
      && l.Pending? && l.attempt == m.attempt && l.effect.Some?
      && l.effect.value.scope == m.scope && l.effect.value.key == m.key
      && l.effect.value.digest == m.digest && l.effect.value.attempt == m.attempt
      && l.effect.value.operation == m.operation && l.effect.value.resourceKind == m.resourceKind
      && l.effect.value.resourceId == m.resourceId && l.effect.value.revision == m.revision
  {
    hide Blank, IsHex, StorableKey, Has, Decodable, InFamily, TagScope;
    var row := EffectRow(m);
    EffectRowDecodable(m);
    TagInFamily(m.scope, Marked, m.attempt);
    FamilyNotBlank(row.scope, m.scope);
    NewestAppend(rows, row, m.scope, m.key);
  }
}
