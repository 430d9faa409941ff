/**
 * Whole runs of the idempotency log: the refinement to the abstract machine,
 * what follows from it, and what goes wrong when a caller rule is broken.
 */
module IdempotencyRuns {
  import opened Common
  import opened IdempotencyLog

  function Run(rows: seq<Row>, ops: seq<Op>): (r: (seq<Row>, seq<Outcome>))
    ensures |r.1| == |ops|
    decreases |ops|
  {
    if ops == [] then (rows, [])
    else
      var (rows', o) := Step(rows, ops[0]);
      var (last, os) := Run(rows', ops[1..]);
      (last, [o] + os)
  }

  function AbsRun(abs: Abs, ops: seq<Op>): (r: (Abs, seq<Outcome>))
    ensures |r.1| == |ops|
    decreases |ops|
  {
    if ops == [] then (abs, [])
    else
      var (abs', o) := AbsStep(abs, ops[0]);
      var (last, os) := AbsRun(abs', ops[1..]);
      (last, [o] + os)
  }

  predicate Obeys(abs: Abs, ops: seq<Op>)
    decreases |ops|
  {
    ops != [] ==> CallerRules(abs, ops[0]) && Obeys(AbsStep(abs, ops[0]).0, ops[1..])
  }

  lemma {:induction false} RunRefines(rows: seq<Row>, abs: Abs, ops: seq<Op>)
    requires Rep(rows, abs) && Obeys(abs, ops)
    ensures Run(rows, ops).1 == AbsRun(abs, ops).1
    ensures Rep(Run(rows, ops).0, AbsRun(abs, ops).0)
    decreases |ops|
  {
    hide Rep, Step, AbsStep, CallerRules;
    if ops != [] {
      StepRefines(rows, abs, ops[0]);
      RunRefines(Step(rows, ops[0]).0, AbsStep(abs, ops[0]).0, ops[1..]);
    }
  }

  lemma LoadRefines(rows: seq<Row>, abs: Abs, scope: string, key: string)
    requires Rep(rows, abs) && NulFree(scope)
    ensures Load(rows, scope, key) == AbsLoad(abs, scope, key)
  {
    hide Rep, Blank, Newest, Decodable, NulFree;
    LatestShowsEntry(rows, abs, scope, key);
  }

  // Main theorem: every run that keeps the caller rules answers as the abstract
  // machine answers, and reads afterwards what the machine holds.
  lemma LogRefinesMachine(ops: seq<Op>, scope: string, key: string)
    requires Obeys(map[], ops) && NulFree(scope)
    ensures Run([], ops).1 == AbsRun(map[], ops).1
    ensures Load(Run([], ops).0, scope, key) == AbsLoad(AbsRun(map[], ops).0, scope, key)
  {
    RunRefines([], map[], ops);
    LoadRefines(Run([], ops).0, AbsRun(map[], ops).0, scope, key);
  }

  // One family has one digest.
  lemma FamilyHasOneDigest(ops: seq<Op>, i: nat, j: nat, scope: string)
    requires Obeys(map[], ops) && NulFree(scope)
    requires i < |Run([], ops).0| && j < |Run([], ops).0|
    requires var rows := Run([], ops).0;
             InFamily(rows[i].scope, scope) && InFamily(rows[j].scope, scope) && rows[i].key == rows[j].key
    ensures Run([], ops).0[i].digest == Run([], ops).0[j].digest
  {
    hide Decodable, NulFree, Run, AbsRun, EntryOk, InFamily;
    RunRefines([], map[], ops);
    var rows, abs := Run([], ops).0, AbsRun(map[], ops).0;
    assert RowOk(rows[i], abs) && RowOk(rows[j], abs);
    FamilyBase(rows[i].scope, scope);
    FamilyBase(rows[j].scope, scope);
  }

  // ------------------------------------------------- consequences over runs

  predicate Targets(op: Op, id: Id) {
    match op
    case OpReserve(r) => (r.scope, r.key) == id
    case OpEffect(m) => (m.scope, m.key) == id
    case OpRelease(r) => (r.scope, r.key) == id
    case OpComplete(r) => (r.scope, r.key) == id
  }

  predicate Wins(op: Op, o: Outcome, id: Id) { op.OpReserve? && Targets(op, id) && o == Done }

  predicate Frees(op: Op, o: Outcome, id: Id, attempt: string) {
    op.OpRelease? && Targets(op, id) && o == Done && op.r.attempt == attempt
  }

  // Completed is final: nothing changes the entry and no reserve is won again.
  lemma {:induction false} FinalForever(abs: Abs, ops: seq<Op>, id: Id)
    requires id in abs && abs[id].phase.Final? && Obeys(abs, ops)
    ensures id in AbsRun(abs, ops).0 && AbsRun(abs, ops).0[id] == abs[id]
    ensures forall i :: 0 <= i < |ops| ==> !Wins(ops[i], AbsRun(abs, ops).1[i], id)
    decreases |ops|
  {
    hide Blank, ValidRecord, ValidAttempt, ValidMutation, ValidEffect, StorableKey, NulFree;
    if ops != [] {
      var abs' := AbsStep(abs, ops[0]).0;
      assert abs'[id] == abs[id];
      FinalForever(abs', ops[1..], id);
      forall i | 0 <= i < |ops| ensures !Wins(ops[i], AbsRun(abs, ops).1[i], id) {
        if i > 0 {
          assert ops[i] == ops[1..][i - 1];
        }
      }
    }
  }

  lemma {:induction false} FinishedStays(rows: seq<Row>, abs: Abs, ops: seq<Op>, n: nat, scope: string, key: string)
    requires Rep(rows, abs) && Obeys(abs, ops) && n <= |ops| && NulFree(scope)
    requires Load(Run(rows, ops[..n]).0, scope, key).Finished?
    ensures Load(Run(rows, ops).0, scope, key) == Load(Run(rows, ops[..n]).0, scope, key)
    ensures forall i :: n <= i < |ops| ==> !Wins(ops[i], Run(rows, ops).1[i], (scope, key))
    decreases |ops|
  {
    hide Rep, Step, AbsStep, CallerRules, Load, AbsLoad, NulFree, Wins;
    if n == 0 {
      assert ops[..0] == [];
      LoadRefines(rows, abs, scope, key);
      FinishedIsFinal(abs, scope, key);
      FinalForever(abs, ops, (scope, key));
      RunRefines(rows, abs, ops);
      LoadRefines(Run(rows, ops).0, AbsRun(abs, ops).0, scope, key);
      SameEntrySameLoad(abs, AbsRun(abs, ops).0, scope, key);
    } else {
      StepRefines(rows, abs, ops[0]);
      assert ops[..n][0] == ops[0] && ops[..n][1..] == ops[1..][..n - 1];
      FinishedStays(Step(rows, ops[0]).0, AbsStep(abs, ops[0]).0, ops[1..], n - 1, scope, key);
      forall i | n <= i < |ops| ensures !Wins(ops[i], Run(rows, ops).1[i], (scope, key)) {
        assert ops[i] == ops[1..][i - 1];
      }
    }
  }

  // Once a load answers with a finished response, every later load answers with
  // the same response and every later reserve of that key is refused.
  lemma CompletedIsForever(ops: seq<Op>, n: nat, scope: string, key: string)
    requires Obeys(map[], ops) && n <= |ops| && NulFree(scope)
    requires Load(Run([], ops[..n]).0, scope, key).Finished?
    ensures Load(Run([], ops).0, scope, key) == Load(Run([], ops[..n]).0, scope, key)
    ensures forall i :: n <= i < |ops| ==> !Wins(ops[i], Run([], ops).1[i], (scope, key))
  {
    FinishedStays([], map[], ops, n, scope, key);
  }

  lemma FinishedIsFinal(abs: Abs, scope: string, key: string)
    requires AbsLoad(abs, scope, key).Finished?
    ensures (scope, key) in abs && abs[(scope, key)].phase.Final?
  {
  }

  lemma SameEntrySameLoad(abs: Abs, abs': Abs, scope: string, key: string)
    requires (scope, key) in abs && (scope, key) in abs' && abs[(scope, key)] == abs'[(scope, key)]
    ensures AbsLoad(abs, scope, key) == AbsLoad(abs', scope, key)
  {
  }

  // A reservation stays with its holder until that holder releases it.
  lemma {:induction false} HeldUntilReleased(abs: Abs, ops: seq<Op>, id: Id, attempt: string, j: nat) returns (m: nat)
    requires id in abs && abs[id].phase.Holding? && abs[id].phase.attempt == attempt && Obeys(abs, ops)
    requires j < |ops| && Wins(ops[j], AbsRun(abs, ops).1[j], id)
    ensures m < j && Frees(ops[m], AbsRun(abs, ops).1[m], id, attempt)
    decreases |ops|
  {
    hide Blank, ValidRecord, ValidAttempt, ValidMutation, ValidEffect, StorableKey, NulFree;
    var (abs', o) := AbsStep(abs, ops[0]);
    assert j > 0;
    assert ops[j] == ops[1..][j - 1] && AbsRun(abs, ops).1[j] == AbsRun(abs', ops[1..]).1[j - 1];
    m := 0;
    if Frees(ops[0], o, id, attempt) {
    } else if abs'[id].phase.Final? {
      FinalForever(abs', ops[1..], id);
      assert false;
    } else {
      var k := HeldUntilReleased(abs', ops[1..], id, attempt, j - 1);
      m := k + 1;
      assert ops[m] == ops[1..][k];
    }
  }

  // Mutual exclusion: between two winning reserves of one (scope, key) lies a
  // successful release by the first winner.
  lemma {:induction false} ReleasedBetweenWins(abs: Abs, ops: seq<Op>, id: Id, i: nat, j: nat) returns (m: nat)
    requires Obeys(abs, ops) && i < j < |ops|
    requires Wins(ops[i], AbsRun(abs, ops).1[i], id) && Wins(ops[j], AbsRun(abs, ops).1[j], id)
    ensures i < m < j && Frees(ops[m], AbsRun(abs, ops).1[m], id, ops[i].r.attempt)
    decreases |ops|
  {
    hide Blank, ValidRecord, ValidAttempt, ValidMutation, ValidEffect, StorableKey, NulFree;
    var abs' := AbsStep(abs, ops[0]).0;
    assert ops[j] == ops[1..][j - 1];
    if i == 0 {
      var k := HeldUntilReleased(abs', ops[1..], id, ops[0].r.attempt, j - 1);
      m := k + 1;
      assert ops[m] == ops[1..][k];
    } else {
      assert ops[i] == ops[1..][i - 1];
      var k := ReleasedBetweenWins(abs', ops[1..], id, i - 1, j - 1);
      m := k + 1;
      assert ops[m] == ops[1..][k];
    }
  }

  lemma LogIsMutuallyExclusive(ops: seq<Op>, id: Id, i: nat, j: nat) returns (m: nat)
    requires Obeys(map[], ops) && i < j < |ops|
    requires Wins(ops[i], Run([], ops).1[i], id) && Wins(ops[j], Run([], ops).1[j], id)
    ensures i < m < j && Frees(ops[m], Run([], ops).1[m], id, ops[i].r.attempt)
  {
    RunRefines([], map[], ops);
    m := ReleasedBetweenWins(map[], ops, id, i, j);
  }

  // -------------------------------------------------- the rules are needed

  // Whatever the rows hold, a release that reports success really frees the key
  // exactly when the key was free already or no release row of this attempt was
  // stored before: the caller rule of fresh attempt ids is what guarantees it.
  lemma ReleaseFreesIff(rows: seq<Row>, r: Record)
    requires Release(rows, r).1 == Done
    ensures Load(Release(rows, r).0, r.scope, r.key) == NotFound <==>
              || Load(rows, r.scope, r.key) == NotFound
              || !Has(rows, EventScope(r.scope, r.attempt, "released"), r.key)
  {
    hide Blank, IsHex, StorableKey, Has;
    var row := ReleaseRow(r);
    TagInFamily(r.scope, Freed, r.attempt);
    NewestAppend(rows, row, r.scope, r.key);
    KindsNotBlank();
    FamilyNotBlank(row.scope, r.scope);
    assert Decodable(row);
  }

  // Rule 2 broken: after reserve, release, reserve with the same attempt id, a
  // second release reports success and the key stays reserved.
  lemma ReusedAttemptNeverFrees(r: Record)
    requires r.state.Reserved? && ValidRecord(r) && ValidAttempt(r.attempt) && !Blank(r.createdAt)
    requires NulFree(r.scope) && StorableKey(r.key)
    ensures var ops := [OpReserve(r), OpRelease(r), OpReserve(r), OpRelease(r)];
            && Run([], ops).1 == [Done, Done, Done, Done]
            && Load(Run([], ops).0, r.scope, r.key) == Pending(r.attempt, None)
  {
    hide Blank, IsHex, ValidAttempt, StorableKey, NulFree, Decodable, Newest, Step, Load, ValidRecord;
    var first := ReservationRow(r.scope, r);
    var freed := ReleaseRow(r);
    var again := ReservationRow(EventScope(r.scope, r.attempt, "reserved"), r);
    var r1, r2, r3 := [first], [first, freed], [first, freed, again];
    ReuseFirstHalf(r);
    ReuseSecondHalf(r);
    var a, b := OpReserve(r), OpRelease(r);
    RunCons(r3, b, []);
    assert [a] + [b] == [a, b] && [b] + [a, b] == [b, a, b] && [a] + [b, a, b] == [a, b, a, b] && [b] + [] == [b];
    RunCons(r2, a, [b]);
    RunCons(r1, b, [a, b]);
    RunCons([], a, [b, a, b]);
    assert Run([], [a, b, a, b]).1 == [Done, Done, Done, Done];
  }

  lemma ReuseFirstHalf(r: Record)
    requires r.state.Reserved? && ValidRecord(r) && ValidAttempt(r.attempt) && !Blank(r.createdAt)
    requires NulFree(r.scope) && StorableKey(r.key)
    ensures var first := ReservationRow(r.scope, r);
      && Step([], OpReserve(r)) == ([first], Done) && Step([first], OpRelease(r)) == ([first, ReleaseRow(r)], Done)
  {
    hide Blank, IsHex, ValidAttempt, StorableKey, NulFree, Decodable, Newest;
    var first := ReservationRow(r.scope, r);
    ReuseRows(r);
    assert [first, ReleaseRow(r)] == [first] + [ReleaseRow(r)] && [first] == [] + [first];
    assert [first][0] == first;
  }

  lemma ReuseSecondHalf(r: Record)
    requires r.state.Reserved? && ValidRecord(r) && ValidAttempt(r.attempt) && !Blank(r.createdAt)
    requires NulFree(r.scope) && StorableKey(r.key)
    ensures var first := ReservationRow(r.scope, r);
      var freed := ReleaseRow(r);
      var again := ReservationRow(EventScope(r.scope, r.attempt, "reserved"), r);
      && Step([first, freed], OpReserve(r)) == ([first, freed, again], Done)
      && Step([first, freed, again], OpRelease(r)) == ([first, freed, again], Done)
      && Load([first, freed, again], r.scope, r.key) == Pending(r.attempt, None)
  {
    hide Blank, IsHex, ValidAttempt, StorableKey, NulFree, Decodable, Newest;
    var first := ReservationRow(r.scope, r);
    var freed := ReleaseRow(r);
    var again := ReservationRow(EventScope(r.scope, r.attempt, "reserved"), r);
    var r2, r3 := [first, freed], [first, freed, again];
    ReuseRows(r);
    assert r3 == r2 + [again] && r2[1] == freed && r3[1] == freed;
  }

  lemma RunCons(rows: seq<Row>, op: Op, ops: seq<Op>)
    ensures var (rows', o) := Step(rows, op);
            Run(rows, [op] + ops) == (Run(rows', ops).0, [o] + Run(rows', ops).1)
  {
    hide Step;
    assert ([op] + ops)[1..] == ops;
  }

  lemma ReuseRows(r: Record)
    requires r.state.Reserved? && ValidRecord(r) && ValidAttempt(r.attempt) && NulFree(r.scope)
    ensures var first := ReservationRow(r.scope, r);
            var freed := ReleaseRow(r);
            var again := ReservationRow(EventScope(r.scope, r.attempt, "reserved"), r);
            && Decodable(first) && Decodable(freed) && Decodable(again) && !Blank(r.scope) && !Blank(r.key)
            && first.scope != freed.scope && first.scope != again.scope && freed.scope != again.scope
            && Newest([], r.scope, r.key) == None
            && Newest([first], r.scope, r.key) == Some(first)
            && Newest([first, freed], r.scope, r.key) == Some(freed)
            && Newest([first, freed, again], r.scope, r.key) == Some(again)
            && Exact([first, freed, again], freed.scope, r.key) == Some(freed)
  {
    hide Blank, IsHex, NulFree;
    var first := ReservationRow(r.scope, r);
    var freed := ReleaseRow(r);
    var again := ReservationRow(EventScope(r.scope, r.attempt, "reserved"), r);
    KindsNotBlank();
    ValidAttemptNulFree(r.attempt);
    TagInFamily(r.scope, Freed, r.attempt);
    TagInFamily(r.scope, Again, r.attempt);
    FamilyNotBlank(freed.scope, r.scope);
    FamilyNotBlank(again.scope, r.scope);
    assert EventScope(r.scope, r.attempt, "released")[|r.scope|] == '\0';
    if freed.scope == again.scope {
      TagInjective(r.scope, Freed, r.attempt, Again, r.attempt);
    }
    assert [first, freed] == [first] + [freed] && [first, freed, again] == [first, freed] + [again];
    assert [first, freed, again][..2] == [first] + [freed];
    ExactAppend([first], freed);
    NewestAppend([first], freed, r.scope, r.key);
    NewestAppend([first, freed], again, r.scope, r.key);
  }

  // Rule 3 broken: an effect recorded for an attempt that no longer holds the
  // reservation turns a completed key back into a pending one.
  lemma StrayEffectReopens(rows: seq<Row>, abs: Abs, m: Mutation)
    requires Rep(rows, abs) && NulFree(m.scope) && ValidMutation(m) && (m.scope, m.key) in abs
    requires abs[(m.scope, m.key)].phase.Final? && !Has(rows, EffectRow(m).scope, m.key)
    ensures Load(rows, m.scope, m.key).Finished?
    ensures RecordEffect(rows, m).1 == Done
    ensures Load(RecordEffect(rows, m).0, m.scope, m.key) == Pending(m.attempt, Some(EffectOf(m)))
  {
    hide Rep, StorableKey, IsHex, Blank, NulFree, Decodable;
    EntryOfRep(rows, abs, (m.scope, m.key));
    LoadRefines(rows, abs, m.scope, m.key);
    EffectRowDecodable(m);
    TagInFamily(m.scope, Marked, m.attempt);
    FamilyNotBlank(EffectRow(m).scope, m.scope);
    NewestAppend(rows, EffectRow(m), m.scope, m.key);
  }

  // Exactly when an effect damages a finished entry: whenever it is valid and
  // was not stored before. The caller rule is what rules that out.
  lemma StrayEffectReopensIff(rows: seq<Row>, abs: Abs, m: Mutation)
    requires Rep(rows, abs) && NulFree(m.scope) && (m.scope, m.key) in abs && abs[(m.scope, m.key)].phase.Final?
    ensures Load(rows, m.scope, m.key).Finished?
    ensures Load(RecordEffect(rows, m).0, m.scope, m.key) != Load(rows, m.scope, m.key)
            <==> ValidMutation(m) && !Has(rows, EffectRow(m).scope, m.key)
  {
    hide Rep, ValidMutation, Blank, NulFree, Newest, Decodable, StorableKey;
    LoadRefines(rows, abs, m.scope, m.key);
    EntryOfRep(rows, abs, (m.scope, m.key));
    if ValidMutation(m) && !Has(rows, EffectRow(m).scope, m.key) {
      StrayEffectReopens(rows, abs, m);
    }
  }

  // Rule 1 broken: a reservation under a base scope that holds a NUL can show
  // up as a reservation of another base scope that nobody used.
  lemma NulScopeJoinsFamily(scope: string, attempt: string, r: Record)
    requires r.scope == EventScope(scope, attempt, "reserved") && !Blank(scope)
    requires r.state.Reserved? && ValidRecord(r) && ValidAttempt(r.attempt) && !Blank(r.createdAt) && StorableKey(r.key)
    ensures Step([], OpReserve(r)).1 == Done
    ensures Load([], scope, r.key) == NotFound
    ensures Load(Step([], OpReserve(r)).0, scope, r.key) == Pending(r.attempt, None)
    ensures r.scope != scope
  {
    hide Blank, IsHex, StorableKey;
    var row := ReservationRow(r.scope, r);
    KindsNotBlank();
    TagInFamily(scope, Again, attempt);
    assert [] + [row] == [row] && [row][..0] == [];
    NewestAppend([], row, scope, r.key);
  }

  // Exactly when the families of two different base scopes meet.
  lemma FamiliesMeetIff(s: string, t: string)
    requires s != t
    ensures (exists r :: InFamily(r, s) && InFamily(r, t)) <==> Reaches(s, t) || Reaches(t, s)
  {
    if exists r :: InFamily(r, s) && InFamily(r, t) {
      var r :| InFamily(r, s) && InFamily(r, t);
      if |s| < |t| {
        SharedRow(s, t, r);
      } else {
        SharedRow(t, s, r);
      }
    }
    if Reaches(s, t) {
      CommonRow(s, t);
    }
    if Reaches(t, s) {
      CommonRow(t, s);
    }
  }

  // t is the completion scope of s, or starts like an event scope of s, the
  // NUL that follows t included.
  predicate Reaches(s: string, t: string) { t == CompletionScope(s) || EventPrefix(s) <= t + "\0" }

  lemma CommonRow(s: string, t: string)
    requires Reaches(s, t)
    ensures InFamily(t + EVENT_MARKER, t) && (t == CompletionScope(s) ==> InFamily(t, s) && InFamily(t, t))
    ensures EventPrefix(s) <= t + "\0" ==> InFamily(t + EVENT_MARKER, s)
  {
    if EventPrefix(s) <= t + "\0" {
      assert t + "\0" == (t + EVENT_MARKER)[..|t| + 1];
    }
  }

  // Where an event marker can lie in a text that ends in one or the other marker.
  lemma MarkerOverlap(s: string, t: string, marker: string)
    requires marker == EVENT_MARKER || marker == COMPLETION_MARKER
    requires EventPrefix(s) <= t + marker && s != t
    ensures |s| < |t| && EventPrefix(s) <= t + "\0"
  {
    var text, p := t + marker, |s| + 17;
    assert |EVENT_MARKER| == 18 && |COMPLETION_MARKER| == 22 && marker[0] == '\0';
    assert EventPrefix(s)[p] == EVENT_MARKER[17] == '\0';
    assert text[p] == '\0';
    MarkerNuls();
    assert p >= |t| ==> text[p] == marker[p - |t|];
    assert text[..|s|] == s && text[..|t|] == t;
    if p >= |t| {
      assert marker[p - |t|] == '\0' && p - |t| < 17;
      assert text[..|t| + 1] == t + "\0";
    } else {
      assert EventPrefix(s) == text[..p + 1] == t[..p + 1];
    }
  }

  lemma MarkerNuls()
    ensures forall i :: 0 < i < 17 ==> EVENT_MARKER[i] != '\0'
    ensures forall i :: 0 < i < 22 ==> COMPLETION_MARKER[i] != '\0'
  {
  }

  lemma SharedRow(s: string, t: string, r: string)
    requires s != t && |s| <= |t| && InFamily(r, s) && InFamily(r, t)
    ensures Reaches(s, t)
  {
    if r == t {
      if EventPrefix(s) <= r {
        assert EventPrefix(s) <= t + "\0";
      }
    } else if r == CompletionScope(t) {
      LongMarkers(s, t);
      MarkerOverlap(s, t, COMPLETION_MARKER);
    } else {
      assert EventPrefix(t) <= r;
      if EventPrefix(s) <= r {
        assert EventPrefix(s) <= EventPrefix(t);
        MarkerOverlap(s, t, EVENT_MARKER);
      } else {
        LongMarkers(s, t);
        MarkerOverlap(t, s, COMPLETION_MARKER);
      }
    }
  }

  lemma LongMarkers(s: string, t: string)
    requires s != t && |s| <= |t|
    ensures CompletionScope(t) != s && CompletionScope(t) != CompletionScope(s)
  {
    assert CompletionScope(s)[..|s|] == s && CompletionScope(t)[..|t|] == t;
  }
}
