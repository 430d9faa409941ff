/**
 * The durable idempotency log of cmd/mastarr/persistence.go.
 *
 * The table is append-only with primary key (scope, key); rowid order is the
 * sequence order.  Every SQL transaction is one atomic function from rows to
 * rows, and a failed transaction leaves the rows alone.  `Step` is the
 * specification that the methods of IdempotencyStore meet.
 */
module IdempotencyLog {
  import opened Common

  // ---------------------------------------------------------------- rows

  // response.State; Legacy is the empty string of older rows.
  datatype State = Reserved | Released | Completed | Legacy

  datatype Effect = Effect(scope: string, key: string, digest: string, attempt: string,
                           operation: string, resourceKind: string, resourceId: string, revision: string)

  datatype Row = Row(scope: string, key: string, digest: string, status: int, kind: string, resourceId: string,
                     state: State, replayable: bool, responseDigest: string, attempt: string,
                     responseStatus: int, body: seq<bv8>, effect: Option<Effect>)

  // transport.IdempotencyRecord, as callers pass it.
  datatype Record = Record(scope: string, key: string, digest: string, state: State, status: int, attempt: string,
                           replayable: bool, body: seq<bv8>, effect: Option<Effect>,
                           kind: string, resourceId: string, createdAt: string)

  // transport.MutationAttempt together with the arguments of persistConfigurationEffect.
  datatype Mutation = Mutation(scope: string, key: string, digest: string, attempt: string,
                               operation: string, resourceKind: string, resourceId: string, revision: string)

  const PROCESSING := 102
  const MAX_BODY := 4 * 1024 * 1024
  const EFFECT_KIND := "idempotency_effect"

  // ------------------------------------------------------- scope encoding

  const COMPLETION_MARKER := "\0mastarr-completion-v1"
  const EVENT_MARKER := "\0mastarr-event-v1\0"

  predicate NulFree(s: string) { forall i :: 0 <= i < |s| ==> s[i] != '\0' }

  function CompletionScope(scope: string): string { scope + COMPLETION_MARKER }

  function EventPrefix(scope: string): string { scope + EVENT_MARKER }

  function EventScope(scope: string, attempt: string, state: string): string {
    EventPrefix(scope) + attempt + "\0" + state
  }

  // The WHERE clause of the newest-row query.
  predicate InFamily(rowScope: string, scope: string) {
    rowScope == scope || rowScope == CompletionScope(scope) || EventPrefix(scope) <= rowScope
  }

  // ------------------------------------------------------------ validation

  predicate ValidAttempt(a: string) {
    !Blank(a) && |a| <= 200 && forall i :: 0 <= i < |a| ==> a[i] >= ' ' && a[i] != '\U{7F}'
  }

  predicate ValidRecord(r: Record) {
    && !Blank(r.scope) && !Blank(r.key) && !Blank(r.digest)
    && 100 <= r.status <= 599 && |r.body| <= MAX_BODY && IsHex(r.digest)
  }

  predicate ValidEffect(e: Effect, digest: string, attempt: string) {
    && !Blank(e.scope) && !Blank(e.key) && !Blank(e.digest) && !Blank(e.attempt)
    && !Blank(e.operation) && !Blank(e.resourceKind) && !Blank(e.resourceId) && !Blank(e.revision)
    && e.digest == digest && e.attempt == attempt && ValidAttempt(e.attempt) && IsHex(e.digest)
  }

  // loadSQLiteIdempotencyRowFromValues accepts the row.
  predicate Decodable(r: Row) {
    && !Blank(r.scope) && !Blank(r.key) && !Blank(r.digest) && 100 <= r.status <= 599
    && !Blank(r.kind) && !Blank(r.resourceId) && IsHex(r.digest)
    && r.responseStatus == r.status && |r.body| <= MAX_BODY
    && (r.responseDigest != "" ==> r.responseDigest == r.digest)
    && (r.effect.Some? ==> ValidEffect(r.effect.value, r.digest, r.attempt))
    && (r.kind == EFFECT_KIND ==> r.effect.Some?)
    && (r.state.Reserved? || r.state.Released? ==> r.status == PROCESSING && !r.replayable && r.body == [])
    && (r.state.Released? ==> !Blank(r.attempt))
  }

  // SQLite's length() stops at the first NUL and trim() removes spaces.
  function SqlText(s: string): string { if s == [] || s[0] == '\0' then [] else [s[0]] + SqlText(s[1..]) }

  // The CHECK on idempotency_key; INSERT OR IGNORE skips a row that breaks it.
  predicate StorableKey(key: string) {
    |SqlText(key)| <= 200 && exists i :: 0 <= i < |SqlText(key)| && SqlText(key)[i] != ' '
  }

  // --------------------------------------------------------------- queries

  predicate Has(rows: seq<Row>, scope: string, key: string) {
    exists i :: 0 <= i < |rows| && rows[i].scope == scope && rows[i].key == key
  }

  // SELECT ... WHERE scope = ? AND idempotency_key = ?
  function Exact(rows: seq<Row>, scope: string, key: string): (r: Option<Row>)
    ensures r.Some? ==> r.value in rows && r.value.scope == scope && r.value.key == key
    ensures r.None? <==> !Has(rows, scope, key)
  {
    if rows == [] then None
    else if rows[|rows| - 1].scope == scope && rows[|rows| - 1].key == key then Some(rows[|rows| - 1])
    else Exact(rows[..|rows| - 1], scope, key)
  }

  // ... ORDER BY rowid DESC LIMIT 1
  function Newest(rows: seq<Row>, scope: string, key: string): (r: Option<Row>)
    ensures r.Some? ==> r.value in rows && r.value.key == key && InFamily(r.value.scope, scope)
  {
    if rows == [] then None
    else
      var last := rows[|rows| - 1];
      if last.key == key && InFamily(last.scope, scope) then Some(last)
      else Newest(rows[..|rows| - 1], scope, key)
  }

  datatype Lookup = Missing | Found(row: Row) | Broken

  function LoadLatest(rows: seq<Row>, scope: string, key: string): Lookup {
    match Newest(rows, scope, key)
    case None => Missing
    case Some(row) => if Decodable(row) then Found(row) else Broken
  }

  // INSERT OR IGNORE
  function Insert(rows: seq<Row>, row: Row): (seq<Row>, bool) {
    if Has(rows, row.scope, row.key) || !StorableKey(row.key) then (rows, false) else (rows + [row], true)
  }

  // ------------------------------------------------------------ operations

  datatype Outcome = Done | NotReserved | Conflict | Failed

  function ReservationRow(scope: string, r: Record): Row {
    Row(scope, r.key, r.digest, PROCESSING, "idempotency_reservation", "http-digest",
        Reserved, false, r.digest, r.attempt, PROCESSING, [], None)
  }

  function Reserve(rows: seq<Row>, r: Record): (seq<Row>, Outcome) {
    if !r.state.Reserved? || Blank(r.createdAt) || !ValidRecord(r) || (r.attempt != "" && !ValidAttempt(r.attempt)) then
      (rows, Failed)
    else match LoadLatest(rows, r.scope, r.key)
      case Broken => (rows, Failed)
      case Missing =>
        var (rows', inserted) := Insert(rows, ReservationRow(r.scope, r));
        (rows', if inserted then Done else NotReserved)
      case Found(latest) =>
        if latest.digest != r.digest then (rows, Conflict)
        else if !latest.state.Released? then (rows, NotReserved)
        else
          var (rows', inserted) := Insert(rows, ReservationRow(EventScope(r.scope, r.attempt, "reserved"), r));
          (rows', if inserted then Done else NotReserved)
  }

  predicate ValidMutation(m: Mutation) {
    && !Blank(m.operation) && !Blank(m.resourceKind) && !Blank(m.resourceId) && !Blank(m.revision)
    && !Blank(m.scope) && !Blank(m.key) && !Blank(m.digest) && ValidAttempt(m.attempt) && IsHex(m.digest)
  }

  function EffectOf(m: Mutation): Effect {
    Effect(m.scope, m.key, m.digest, m.attempt, m.operation, m.resourceKind, m.resourceId, m.revision)
  }

  function EffectRow(m: Mutation): Row {
    Row(EventScope(m.scope, m.attempt, "effect"), m.key, m.digest, PROCESSING, EFFECT_KIND, "http-digest",
        Reserved, false, m.digest, m.attempt, PROCESSING, [], Some(EffectOf(m)))
  }

  // persistConfigurationEffect: it never looks at the newest row.
  function RecordEffect(rows: seq<Row>, m: Mutation): (seq<Row>, Outcome) {
    if !ValidMutation(m) then (rows, Failed)
    else
      var (rows', inserted) := Insert(rows, EffectRow(m));
      if inserted then (rows', Done)
      else match Exact(rows, EffectRow(m).scope, m.key)
        case None => (rows, Failed)
        case Some(row) =>
          if Decodable(row) && row.digest == m.digest && row.state.Reserved? && row.effect == Some(EffectOf(m))
          then (rows, Done) else (rows, Failed)
  }

  function ReleaseRow(r: Record): Row {
    Row(EventScope(r.scope, r.attempt, "released"), r.key, r.digest, PROCESSING, "idempotency_release", "http-digest",
        Released, false, r.digest, r.attempt, PROCESSING, [], None)
  }

  function Release(rows: seq<Row>, r: Record): (seq<Row>, Outcome) {
    if !r.state.Reserved? || Blank(r.createdAt) || !ValidRecord(r) || !ValidAttempt(r.attempt) then (rows, Failed)
    else match LoadLatest(rows, r.scope, r.key)
      case Broken => (rows, Failed)
      case Missing => (rows, Failed)
      case Found(latest) =>
        if latest.digest != r.digest then (rows, Failed)
        else if latest.state.Released? && latest.attempt == r.attempt then (rows, Done)
        else if !latest.state.Reserved? || latest.attempt != r.attempt then (rows, Failed)
        else
          var (rows', inserted) := Insert(rows, ReleaseRow(r));
          if inserted then (rows', Done)
          else match Exact(rows, ReleaseRow(r).scope, r.key)
            case None => (rows, Failed)
            case Some(row) =>
              if Decodable(row) && row.digest == r.digest && row.attempt == r.attempt && row.state.Released?
              then (rows, Done) else (rows, Failed)
  }

  function CompletionRow(r: Record, reservation: Row): Row {
    Row(if r.attempt != "" then EventScope(r.scope, r.attempt, "completed") else CompletionScope(r.scope),
        r.key, r.digest, r.status, r.kind, r.resourceId,
        Completed, r.replayable, r.digest, r.attempt, r.status, r.body,
        if r.effect.None? then reservation.effect else r.effect)
  }

  function Complete(rows: seq<Row>, r: Record): (seq<Row>, Outcome) {
    if !r.state.Completed? || Blank(r.createdAt) || !ValidRecord(r)
       || (r.attempt != "" && !ValidAttempt(r.attempt)) then
      (rows, Failed)
    else match LoadLatest(rows, r.scope, r.key)
      case Broken => (rows, Failed)
      case Missing => (rows, Failed)
      case Found(latest) =>
        if latest.digest != r.digest || !latest.state.Reserved? || latest.attempt != r.attempt then (rows, Failed)
        else
          var row := CompletionRow(r, latest);
          var (rows', _) := Insert(rows, row);
          match Exact(rows', row.scope, r.key)
          case None => (rows, Failed)
          case Some(back) =>
            if && Decodable(back) && back.digest == r.digest && back.state.Completed? && back.status == r.status
               && back.attempt == r.attempt && back.body == r.body
            then (rows', Done) else (rows, Failed)
  }

  datatype Loaded = LoadError | NotFound | Pending(attempt: string, effect: Option<Effect>)
                  | Finished(attempt: string, status: int, body: seq<bv8>, replayable: bool, effect: Option<Effect>)

  function Load(rows: seq<Row>, scope: string, key: string): Loaded {
    if Blank(scope) || Blank(key) then LoadError
    else match LoadLatest(rows, scope, key)
      case Broken => LoadError
      case Missing => NotFound
      case Found(row) => match row.state
        case Released => NotFound
        case Reserved => Pending(row.attempt, row.effect)
        case Completed => Finished(row.attempt, row.status, row.body, row.replayable, row.effect)
        case Legacy => Finished(row.attempt, row.status, row.body, true, row.effect)
  }

  datatype Op = OpReserve(r: Record) | OpEffect(m: Mutation) | OpRelease(r: Record) | OpComplete(r: Record)

  function Step(rows: seq<Row>, op: Op): (seq<Row>, Outcome) {
    match op
    case OpReserve(r) => Reserve(rows, r)
    case OpEffect(m) => RecordEffect(rows, m)
    case OpRelease(r) => Release(rows, r)
    case OpComplete(r) => Complete(rows, r)
  }

  // ------------------------------------------------------ abstract machine

  datatype Phase =
    | Holding(attempt: string, effect: Option<Effect>)
    | Free(attempt: string)
    | Final(attempt: string, status: int, body: seq<bv8>, replayable: bool, effect: Option<Effect>)

  // `used` are the attempt ids that ever won the reservation.
  datatype Entry = Entry(digest: string, phase: Phase, used: set<string>)

  type Id = (string, string)
  type Abs = map<Id, Entry>

  function AbsReserve(abs: Abs, r: Record): (Abs, Outcome) {
    var id := (r.scope, r.key);
    if !r.state.Reserved? || Blank(r.createdAt) || !ValidRecord(r) || (r.attempt != "" && !ValidAttempt(r.attempt)) then
      (abs, Failed)
    else if id !in abs then
      if StorableKey(r.key) then (abs[id := Entry(r.digest, Holding(r.attempt, None), {r.attempt})], Done)
      else (abs, NotReserved)
    else
      var e := abs[id];
      if e.digest != r.digest then (abs, Conflict)
      else if !e.phase.Free? then (abs, NotReserved)
      else (abs[id := Entry(e.digest, Holding(r.attempt, None), e.used + {r.attempt})], Done)
  }

  function AbsEffect(abs: Abs, m: Mutation): (Abs, Outcome) {
    var id := (m.scope, m.key);
    if !ValidMutation(m) || id !in abs || !abs[id].phase.Holding? then (abs, Failed)
    else
      var e := abs[id];
      match e.phase.effect
      case None => (abs[id := e.(phase := Holding(m.attempt, Some(EffectOf(m))))], Done)
      case Some(x) => (abs, if x == EffectOf(m) then Done else Failed)
  }

  function AbsRelease(abs: Abs, r: Record): (Abs, Outcome) {
    var id := (r.scope, r.key);
    if || !r.state.Reserved? || Blank(r.createdAt) || !ValidRecord(r) || !ValidAttempt(r.attempt)
       || id !in abs || abs[id].digest != r.digest || abs[id].phase.attempt != r.attempt || abs[id].phase.Final? then
      (abs, Failed)
    else
      (abs[id := abs[id].(phase := Free(r.attempt))], Done)
  }

  function AbsComplete(abs: Abs, r: Record): (Abs, Outcome) {
    var id := (r.scope, r.key);
    if || !r.state.Completed? || Blank(r.createdAt) || !ValidRecord(r) || (r.attempt != "" && !ValidAttempt(r.attempt))
       || id !in abs || abs[id].digest != r.digest || !abs[id].phase.Holding? || abs[id].phase.attempt != r.attempt then
      (abs, Failed)
    else
      var effect := if r.effect.None? then abs[id].phase.effect else r.effect;
      if || Blank(r.kind) || Blank(r.resourceId)
         || (effect.Some? && !ValidEffect(effect.value, r.digest, r.attempt))
         || (r.kind == EFFECT_KIND && effect.None?) then
        (abs, Failed)
      else
        (abs[id := abs[id].(phase := Final(r.attempt, r.status, r.body, r.replayable, effect))], Done)
  }

  function AbsStep(abs: Abs, op: Op): (Abs, Outcome) {
    match op
    case OpReserve(r) => AbsReserve(abs, r)
    case OpEffect(m) => AbsEffect(abs, m)
    case OpRelease(r) => AbsRelease(abs, r)
    case OpComplete(r) => AbsComplete(abs, r)
  }

  function AbsLoad(abs: Abs, scope: string, key: string): Loaded {
    if Blank(scope) || Blank(key) then LoadError
    else if (scope, key) !in abs then NotFound
    else match abs[(scope, key)].phase
      case Free(_) => NotFound
      case Holding(a, e) => Pending(a, e)
      case Final(a, status, body, replayable, e) => Finished(a, status, body, replayable, e)
  }

  // The three rules the callers keep.
  predicate CallerRules(abs: Abs, op: Op) {
    match op
    case OpReserve(r) => NulFree(r.scope) && ((r.scope, r.key) in abs ==> r.attempt !in abs[(r.scope, r.key)].used)
    case OpEffect(m) =>
      && NulFree(m.scope) && (m.scope, m.key) in abs
      && abs[(m.scope, m.key)].digest == m.digest
      && abs[(m.scope, m.key)].phase.Holding? && abs[(m.scope, m.key)].phase.attempt == m.attempt
    case OpRelease(r) => NulFree(r.scope)
    case OpComplete(r) => NulFree(r.scope)
  }

  // ------------------------------------------------- scope encoding lemmas

  function Base(s: string): string { SqlText(s) }

  lemma {:induction false} BaseOf(b: string, rest: string)
    requires NulFree(b) && (rest == [] || rest[0] == '\0')
    ensures Base(b + rest) == b
  {
    if b == [] {
      assert b + rest == rest;
    } else {
      assert (b + rest)[1..] == b[1..] + rest;
      BaseOf(b[1..], rest);
    }
  }

  // A scope string belongs to at most one NUL-free base scope.
  lemma FamilyBase(rowScope: string, scope: string)
    requires NulFree(scope) && InFamily(rowScope, scope)
    ensures Base(rowScope) == scope
  {
    var rest := rowScope[|scope|..];
    assert rowScope == scope + rest;
    if rowScope == CompletionScope(scope) {
      assert rest == COMPLETION_MARKER;
    } else if EventPrefix(scope) <= rowScope {
      assert rest[0] == EventPrefix(scope)[|scope|];
    }
    BaseOf(scope, rest);
  }

  lemma FamiliesNeverMix(rowScope: string, s: string, t: string)
    requires NulFree(s) && NulFree(t)
    requires InFamily(rowScope, s) && InFamily(rowScope, t)
    ensures s == t
  {
    FamilyBase(rowScope, s);
    FamilyBase(rowScope, t);
  }

  // The six shapes of scope the operations write.
  datatype Tag = First | Again | Marked | Freed | Ended | EndedBare

  function TagScope(b: string, t: Tag, a: string): string {
    match t
    case First => b
    case Again => EventScope(b, a, "reserved")
    case Marked => EventScope(b, a, "effect")
    case Freed => EventScope(b, a, "released")
    case Ended => EventScope(b, a, "completed")
    case EndedBare => CompletionScope(b)
  }

  function TagState(t: Tag): State {
    match t
    case First => Reserved case Again => Reserved case Marked => Reserved
    case Freed => Released
    case Ended => Completed case EndedBare => Completed
  }

  lemma TagInFamily(b: string, t: Tag, a: string)
    ensures InFamily(TagScope(b, t, a), b)
  {
    if t != First && t != EndedBare {
      var tail := TagScope(b, t, a)[|EventPrefix(b)|..];
      assert TagScope(b, t, a) == EventPrefix(b) + tail;
    }
  }

  lemma AttemptSuffixInjective(a: string, x: string, a': string, x': string)
    requires NulFree(a) && NulFree(a') && a + "\0" + x == a' + "\0" + x'
    ensures a == a' && x == x'
  {
    var s := a + "\0" + x;
    assert s[|a|] == '\0' && s[|a'|] == '\0';
    assert forall i :: 0 <= i < |a| ==> s[i] == a[i];
    assert forall i :: 0 <= i < |a'| ==> s[i] == a'[i];
    assert |a| == |a'|;
    assert a == s[..|a|] && a' == s[..|a'|];
    assert x == s[|a| + 1..] && x' == s[|a'| + 1..];
  }

  lemma EventScopeInjective(b: string, a: string, x: string, a': string, x': string)
    requires NulFree(a) && NulFree(a') && EventScope(b, a, x) == EventScope(b, a', x')
    ensures a == a' && x == x'
  {
    var p := EventPrefix(b);
    assert a + "\0" + x == EventScope(b, a, x)[|p|..];
    assert a' + "\0" + x' == EventScope(b, a', x')[|p|..];
    AttemptSuffixInjective(a, x, a', x');
  }

  // The two markers share "\0mastarr-" and then differ.
  lemma MarkerLetter(b: string, t: Tag, a: string)
    requires t != First
    ensures |TagScope(b, t, a)| > |b| + 9
    ensures TagScope(b, t, a)[|b| + 9] == if t == EndedBare then 'c' else 'e'
  {
    assert COMPLETION_MARKER[9] == 'c' && EVENT_MARKER[9] == 'e';
    if t != EndedBare {
      assert EventPrefix(b)[|b| + 9] == 'e';
      TagInFamily(b, t, a);
    }
  }

  lemma TagInjective(b: string, t: Tag, a: string, t': Tag, a': string)
    requires NulFree(a) && NulFree(a') && TagScope(b, t, a) == TagScope(b, t', a')
    ensures t == t' && (t != First && t != EndedBare ==> a == a')
  {
    if t == First || t' == First {
      assert |TagScope(b, t, a)| == |b|;
    } else if t == EndedBare || t' == EndedBare {
      MarkerLetter(b, t, a);
      MarkerLetter(b, t', a');
    } else {
      var x := Word(t);
      var x' := Word(t');
      EventScopeInjective(b, a, x, a', x');
      WordInjective(t, t');
    }
  }

  function Word(t: Tag): string {
    match t
    case Again => "reserved" case Marked => "effect" case Freed => "released" case Ended => "completed"
    case _ => ""
  }

  lemma WordInjective(t: Tag, t': Tag)
    requires Word(t) == Word(t') && t !in {First, EndedBare} && t' !in {First, EndedBare}
    ensures t == t'
  {
    assert |Word(Again)| == 8 && |Word(Marked)| == 6 && |Word(Freed)| == 8 && |Word(Ended)| == 9;
    assert Word(Again)[2] == 's' && Word(Freed)[2] == 'l';
  }

  // ------------------------------------------------------------ refinement

  // What every stored row says about the abstract entry of its family.
  predicate RowOk(row: Row, abs: Abs) {
    var b := Base(row.scope);
    && Decodable(row) && NulFree(row.attempt) && NulFree(b)
    && (b, row.key) in abs
    && var e := abs[(b, row.key)];
    && row.digest == e.digest && row.attempt in e.used
    && (exists t: Tag :: row.scope == TagScope(b, t, row.attempt) && row.state == TagState(t) && (t == EndedBare ==>
      row.attempt == ""))
    && (row.state.Completed? ==> e.phase.Final?)
    && (row.state.Released? && e.phase.Holding? ==> row.attempt != e.phase.attempt)
    && (row.scope == TagScope(b, Marked, row.attempt) && e.phase.Holding? && row.attempt == e.phase.attempt
        ==> row.effect.Some? && e.phase.effect == row.effect)
  }

  predicate ShowsPhase(row: Row, e: Entry) {
    && row.digest == e.digest && row.attempt == e.phase.attempt
    && match e.phase
       case Holding(_, effect) => row.state.Reserved? && row.effect == effect
       case Free(_) => row.state.Released?
       case Final(_, status, body, replayable, effect) =>
         && row.state.Completed? && row.status == status && row.body == body
         && row.replayable == replayable && row.effect == effect
  }

  predicate EntryOk(rows: seq<Row>, id: Id, e: Entry) {
    && NulFree(id.0) && !Blank(id.0) && !Blank(id.1) && StorableKey(id.1)
    && Newest(rows, id.0, id.1).Some? && ShowsPhase(Newest(rows, id.0, id.1).value, e)
    && (e.phase.Holding? && e.phase.effect.Some? ==>
          Has(rows, TagScope(id.0, Marked, e.phase.attempt), id.1))
  }

  predicate Rep(rows: seq<Row>, abs: Abs) {
    && (forall i, j :: 0 <= i < j < |rows| ==> rows[i].scope != rows[j].scope || rows[i].key != rows[j].key)
    && (forall i :: 0 <= i < |rows| ==> RowOk(rows[i], abs))
    && (forall id :: id in abs ==> EntryOk(rows, id, abs[id]))
  }

  // -------------------------------------------------- refinement: support

  lemma NewestAppend(rows: seq<Row>, row: Row, scope: string, key: string)
    ensures Newest(rows + [row], scope, key) ==
            if row.key == key && InFamily(row.scope, scope) then Some(row) else Newest(rows, scope, key)
  {
    assert (rows + [row])[..|rows|] == rows;
  }

  lemma NewestRowOk(rows: seq<Row>, abs: Abs, scope: string, key: string)
    requires forall i :: 0 <= i < |rows| ==> RowOk(rows[i], abs)
    requires NulFree(scope) && Newest(rows, scope, key).Some?
    ensures Decodable(Newest(rows, scope, key).value) && (scope, key) in abs
  {
    var row := Newest(rows, scope, key).value;
    var i :| 0 <= i < |rows| && rows[i] == row;
    assert RowOk(rows[i], abs);
    FamilyBase(row.scope, scope);
  }

  // The newest-row query reads the abstract entry.
  lemma LatestShowsEntry(rows: seq<Row>, abs: Abs, scope: string, key: string)
    requires Rep(rows, abs) && NulFree(scope)
    ensures (scope, key) !in abs ==> LoadLatest(rows, scope, key) == Missing
    ensures (scope, key) in abs ==>
              && LoadLatest(rows, scope, key) == Found(Newest(rows, scope, key).value)
              && ShowsPhase(Newest(rows, scope, key).value, abs[(scope, key)])
  {
    if Newest(rows, scope, key).Some? {
      NewestRowOk(rows, abs, scope, key);
    }
    if (scope, key) in abs {
      assert EntryOk(rows, (scope, key), abs[(scope, key)]);
    }
  }

  // A stored scope of a given shape can only come from a row of that shape.
  lemma StoredTag(rows: seq<Row>, abs: Abs, scope: string, key: string, t: Tag, a: string) returns (row: Row)
    requires Rep(rows, abs) && NulFree(scope) && NulFree(a)
    requires Has(rows, TagScope(scope, t, a), key)
    ensures row in rows && row.scope == TagScope(scope, t, a) && row.key == key
    ensures RowOk(row, abs) && Base(row.scope) == scope && row.state == TagState(t)
    ensures t != First && t != EndedBare ==> row.attempt == a
  {
    hide Decodable, EntryOk, NulFree;
    var i :| 0 <= i < |rows| && rows[i].scope == TagScope(scope, t, a) && rows[i].key == key;
    row := rows[i];
    assert RowOk(row, abs);
    TagInFamily(scope, t, a);
    FamilyBase(row.scope, scope);
    var t' :| row.scope == TagScope(scope, t', row.attempt) && row.state == TagState(t');
    TagInjective(scope, t, a, t', row.attempt);
  }

  lemma ExactUnique(rows: seq<Row>, abs: Abs, row: Row)
    requires Rep(rows, abs) && row in rows
    ensures Exact(rows, row.scope, row.key) == Some(row)
  {
    var i :| 0 <= i < |rows| && rows[i] == row;
    var r := Exact(rows, row.scope, row.key);
    var j :| 0 <= j < |rows| && rows[j] == r.value;
    assert i == j;
  }

  lemma ExactAppend(rows: seq<Row>, row: Row)
    ensures Exact(rows + [row], row.scope, row.key) == Some(row)
  {
  }

  // Appending the row that shows the new phase of one entry.
  lemma AppendKeepsRep(rows: seq<Row>, abs: Abs, id: Id, e: Entry, row: Row)
    requires Rep(rows, abs)
    requires NulFree(id.0) && !Blank(id.0) && !Blank(id.1) && StorableKey(id.1)
    requires row.key == id.1 && InFamily(row.scope, id.0) && !Has(rows, row.scope, row.key)
    requires ShowsPhase(row, e) && RowOk(row, abs[id := e])
    requires forall i :: 0 <= i < |rows| ==> RowOk(rows[i], abs[id := e])
    requires e.phase.Holding? && e.phase.effect.Some? ==>
               Has(rows + [row], TagScope(id.0, Marked, e.phase.attempt), id.1)
    ensures Rep(rows + [row], abs[id := e])
  {
    hide RowOk, EntryOk, ShowsPhase, InFamily, StorableKey, Blank, NulFree, Has, TagScope;
    AppendRows(rows, abs[id := e], row);
    AppendEntries(rows, abs, abs[id := e], id, e, row);
    AppendUnique(rows, row);
  }

  lemma AppendRows(rows: seq<Row>, abs: Abs, row: Row)
    requires RowOk(row, abs) && forall i :: 0 <= i < |rows| ==> RowOk(rows[i], abs)
    ensures forall i :: 0 <= i < |rows + [row]| ==> RowOk((rows + [row])[i], abs)
  {
    hide RowOk;
  }

  lemma AppendEntries(rows: seq<Row>, abs: Abs, now: Abs, id: Id, e: Entry, row: Row)
    requires now == abs[id := e] && forall other :: other in abs ==> EntryOk(rows, other, abs[other])
    requires NulFree(id.0) && !Blank(id.0) && !Blank(id.1) && StorableKey(id.1)
    requires row.key == id.1 && InFamily(row.scope, id.0) && ShowsPhase(row, e)
    requires e.phase.Holding? && e.phase.effect.Some? ==>
               Has(rows + [row], TagScope(id.0, Marked, e.phase.attempt), id.1)
    ensures forall other :: other in now ==> EntryOk(rows + [row], other, now[other])
  {
    forall other | other in now ensures EntryOk(rows + [row], other, now[other]) {
      if other == id {
        NewestAppend(rows, row, id.0, id.1);
      } else {
        hide EntryOk, ShowsPhase, InFamily, StorableKey, Blank, NulFree, Has, TagScope;
        EntryUntouched(rows, other, abs[other], id, row);
      }
    }
  }

  lemma EntryUntouched(rows: seq<Row>, id: Id, e: Entry, other: Id, row: Row)
    requires EntryOk(rows, id, e) && id != other
    requires NulFree(other.0) && row.key == other.1 && InFamily(row.scope, other.0)
    ensures EntryOk(rows + [row], id, e)
  {
    NewestAppend(rows, row, id.0, id.1);
    if InFamily(row.scope, id.0) {
      FamiliesNeverMix(row.scope, other.0, id.0);
    }
    if e.phase.Holding? && e.phase.effect.Some? {
      HasAppend(rows, row, TagScope(id.0, Marked, e.phase.attempt), id.1);
    }
  }

  lemma AppendUnique(rows: seq<Row>, row: Row)
    requires forall i, j :: 0 <= i < j < |rows| ==> rows[i].scope != rows[j].scope || rows[i].key != rows[j].key
    requires !Has(rows, row.scope, row.key)
    ensures var rows' := rows + [row];
            forall i, j :: 0 <= i < j < |rows'| ==> rows'[i].scope != rows'[j].scope || rows'[i].key != rows'[j].key
  {
    var rows' := rows + [row];
    forall i, j | 0 <= i < j < |rows'| ensures rows'[i].scope != rows'[j].scope || rows'[i].key != rows'[j].key {
      if j == |rows| {
        assert rows[i].scope != row.scope || rows[i].key != row.key;
      }
    }
  }

  lemma HasAppend(rows: seq<Row>, row: Row, scope: string, key: string)
    requires Has(rows, scope, key) || (row.scope == scope && row.key == key)
    ensures Has(rows + [row], scope, key)
  {
    if Has(rows, scope, key) {
      var i :| 0 <= i < |rows| && rows[i].scope == scope && rows[i].key == key;
      assert (rows + [row])[i].scope == scope;
    } else {
      assert (rows + [row])[|rows|].scope == scope;
    }
  }

  lemma FamilyNotBlank(rowScope: string, scope: string)
    requires InFamily(rowScope, scope) && !Blank(scope)
    ensures !Blank(rowScope)
  {
    assert scope <= EventPrefix(scope);
    assert scope <= rowScope;
    var i :| 0 <= i < |scope| && !IsSpace(scope[i]);
    assert !IsSpace(rowScope[i]);
  }

  lemma ValidAttemptNulFree(a: string)
    requires a == "" || ValidAttempt(a)
    ensures NulFree(a)
  {
  }

  // --------------------------------------------- refinement: one operation

  lemma KindsNotBlank()
    ensures !Blank("idempotency_reservation") && !Blank("idempotency_release")
    ensures !Blank(EFFECT_KIND) && !Blank("http-digest")
  {
    assert "idempotency_reservation"[0] == 'i' && "idempotency_release"[0] == 'i';
    assert EFFECT_KIND[0] == 'i' && "http-digest"[0] == 'h';
  }

  // A new row of shape t is acceptable once the entry it shows is in place.
  lemma NewRowOk(abs: Abs, id: Id, t: Tag, row: Row)
    requires NulFree(id.0) && !Blank(id.0) && id in abs && row.key == id.1 && NulFree(row.attempt)
    requires row.scope == TagScope(id.0, t, row.attempt) && row.state == TagState(t)
    requires t == EndedBare ==> row.attempt == ""
    requires row.attempt in abs[id].used && ShowsPhase(row, abs[id])
    requires !Blank(row.scope) ==> Decodable(row)
    requires t == Marked ==> row.effect.Some?
    ensures InFamily(row.scope, id.0) && RowOk(row, abs)
  {
    TagInFamily(id.0, t, row.attempt);
    FamilyBase(row.scope, id.0);
    FamilyNotBlank(row.scope, id.0);
    if row.scope == TagScope(id.0, Marked, row.attempt) {
      TagInjective(id.0, t, row.attempt, Marked, row.attempt);
    }
  }

  lemma ReserveRefines(rows: seq<Row>, abs: Abs, r: Record)
    requires Rep(rows, abs) && CallerRules(abs, OpReserve(r))
    ensures Reserve(rows, r).1 == AbsReserve(abs, r).1
    ensures Rep(Reserve(rows, r).0, AbsReserve(abs, r).0)
  {
    hide Rep, ValidRecord, ValidAttempt, Blank, StorableKey, Newest, Has, IsHex, Decodable;
    LatestShowsEntry(rows, abs, r.scope, r.key);
    if AbsReserve(abs, r).1 == Done {
      ReserveAppends(rows, abs, r);
    }
  }

  // An old row keeps its meaning when its entry moves on, provided a new holder is fresh.
  lemma OldRowOk(row: Row, abs: Abs, id: Id, e: Entry)
    requires RowOk(row, abs)
    requires id in abs ==> abs[id].digest == e.digest && abs[id].used <= e.used && !abs[id].phase.Final?
    requires e.phase.Holding? && id in abs && (Base(row.scope), row.key) == id && row.attempt == e.phase.attempt ==>
               !row.state.Released? && row.scope != TagScope(id.0, Marked, row.attempt)
    ensures RowOk(row, abs[id := e])
  {
    hide Decodable, NulFree, TagScope, Base, TagState;
  }

  lemma ReserveAppends(rows: seq<Row>, abs: Abs, r: Record)
    requires Rep(rows, abs) && CallerRules(abs, OpReserve(r)) && AbsReserve(abs, r).1 == Done
    ensures var t := if (r.scope, r.key) in abs then Again else First;
            var row := ReservationRow(TagScope(r.scope, t, r.attempt), r);
            !Has(rows, row.scope, r.key) && StorableKey(r.key) && Rep(rows + [row], AbsReserve(abs, r).0)
  {
    var id := (r.scope, r.key);
    var t := if id in abs then Again else First;
    var row := ReservationRow(TagScope(r.scope, t, r.attempt), r);
    hide StorableKey, Newest, RowOk, Has, InFamily, Blank, IsHex, TagScope, NulFree, Rep, AbsReserve, CallerRules,
      ShowsPhase;
    ReserveEntry(abs, r, row);
    var e := AbsReserve(abs, r).0[id];
    ReserveRowFits(rows, abs, r, t);
    ReserveOldRows(rows, abs, id, e);
    AppendKeepsRep(rows, abs, id, e, row);
  }

  // What a winning reservation makes of its entry.
  lemma ReserveEntry(abs: Abs, r: Record, row: Row)
    requires CallerRules(abs, OpReserve(r)) && AbsReserve(abs, r).1 == Done
    requires exists scope :: row == ReservationRow(scope, r)
    ensures var id := (r.scope, r.key);
      && id in AbsReserve(abs, r).0 && AbsReserve(abs, r).0 == abs[id := AbsReserve(abs, r).0[id]]
      && ShowsPhase(row, AbsReserve(abs, r).0[id]) && row.key == id.1
      && (var p := AbsReserve(abs, r).0[id].phase; p.Holding? && p.effect.None?)
      && NulFree(r.scope) && !Blank(r.scope) && !Blank(r.key)
      && (var e := AbsReserve(abs, r).0[id];
          id in abs ==> abs[id].phase.Free? && abs[id].digest == e.digest && abs[id].used <= e.used
                        && e.phase.attempt !in abs[id].used)
  {
    hide StorableKey, Blank, IsHex, NulFree;
  }

  lemma ReserveRowFits(rows: seq<Row>, abs: Abs, r: Record, t: Tag)
    requires Rep(rows, abs) && CallerRules(abs, OpReserve(r)) && AbsReserve(abs, r).1 == Done
    requires t == if (r.scope, r.key) in abs then Again else First
    ensures var row := ReservationRow(TagScope(r.scope, t, r.attempt), r);
            && !Has(rows, row.scope, r.key) && StorableKey(r.key) && InFamily(row.scope, r.scope)
            && RowOk(row, AbsReserve(abs, r).0)
  {
    hide StorableKey, Newest, RowOk, Has, InFamily, Decodable, Blank, IsHex;
    var id := (r.scope, r.key);
    ValidAttemptNulFree(r.attempt);
    if id in abs {
      assert EntryOk(rows, id, abs[id]);
    }
    ReserveNoClash(rows, abs, r, t);
    ReserveRowOk(AbsReserve(abs, r).0, r, t);
  }

  lemma ReserveNoClash(rows: seq<Row>, abs: Abs, r: Record, t: Tag)
    requires Rep(rows, abs) && CallerRules(abs, OpReserve(r)) && NulFree(r.attempt)
    requires t == if (r.scope, r.key) in abs then Again else First
    ensures !Has(rows, TagScope(r.scope, t, r.attempt), r.key)
  {
    hide Rep, TagScope, Has, Decodable;
    if Has(rows, TagScope(r.scope, t, r.attempt), r.key) {
      var clash := StoredTag(rows, abs, r.scope, r.key, t, r.attempt);
      assert false;
    }
  }

  lemma ReserveRowOk(abs: Abs, r: Record, t: Tag)
    requires NulFree(r.scope) && NulFree(r.attempt) && ValidRecord(r) && (r.scope, r.key) in abs
    requires (t == First || t == Again)
    requires var e := abs[(r.scope, r.key)];
             e.digest == r.digest && r.attempt in e.used && e.phase == Holding(r.attempt, None)
    ensures var row := ReservationRow(TagScope(r.scope, t, r.attempt), r);
            InFamily(row.scope, r.scope) && RowOk(row, abs)
  {
    hide RowOk, InFamily, TagScope, NulFree, Blank, IsHex;
    KindsNotBlank();
    NewRowOk(abs, (r.scope, r.key), t, ReservationRow(TagScope(r.scope, t, r.attempt), r));
  }

  lemma ReserveOldRows(rows: seq<Row>, abs: Abs, id: Id, e: Entry)
    requires Rep(rows, abs) && e.phase.Holding?
    requires id in abs ==>
               abs[id].phase.Free? && abs[id].digest == e.digest && abs[id].used <= e.used &&
               e.phase.attempt !in abs[id].used
    ensures forall i :: 0 <= i < |rows| ==> RowOk(rows[i], abs[id := e])
  {
    forall i | 0 <= i < |rows| ensures RowOk(rows[i], abs[id := e]) {
      assert RowOk(rows[i], abs);
      assert (Base(rows[i].scope), rows[i].key) == id ==> rows[i].attempt in abs[id].used;
      OldRowOk(rows[i], abs, id, e);
    }
  }

  // The holder moves its own entry on: effect, release and completion rows.
  lemma HolderAppends(rows: seq<Row>, abs: Abs, id: Id, t: Tag, e: Entry, row: Row)
    requires Rep(rows, abs) && id in abs && abs[id].phase.Holding? && NulFree(id.0)
    requires e == abs[id].(phase := e.phase) && e.phase.attempt == abs[id].phase.attempt == row.attempt
    requires t in {Marked, Freed, Ended, EndedBare} && NulFree(row.attempt) && (t == EndedBare ==> row.attempt == "")
    requires row.key == id.1 && row.scope == TagScope(id.0, t, row.attempt) && row.state == TagState(t)
    requires !Blank(row.scope) ==> Decodable(row)
    requires ShowsPhase(row, e) && (t == Marked <==> e.phase.Holding?) && (t == Marked ==> row.effect.Some?)
    requires !Has(rows, row.scope, row.key)
    ensures Rep(rows + [row], abs[id := e])
  {
    hide StorableKey, Newest, RowOk, Blank, IsHex, TagScope, NulFree, Decodable;
    assert EntryOk(rows, id, abs[id]);
    HolderWasUsed(rows, abs, id);
    HolderOldRows(rows, abs, id, t, e, row);
    NewRowOk(abs[id := e], id, t, row);
    if t == Marked {
      HasAppend(rows, row, row.scope, row.key);
    }
    AppendKeepsRep(rows, abs, id, e, row);
  }

  lemma HolderWasUsed(rows: seq<Row>, abs: Abs, id: Id)
    requires Rep(rows, abs) && id in abs && NulFree(id.0)
    ensures abs[id].phase.attempt in abs[id].used && NulFree(abs[id].phase.attempt)
  {
    hide Decodable, StorableKey, Blank, NulFree, InFamily;
    assert EntryOk(rows, id, abs[id]);
    var row := Newest(rows, id.0, id.1).value;
    var i :| 0 <= i < |rows| && rows[i] == row;
    assert RowOk(rows[i], abs);
    FamilyBase(row.scope, id.0);
  }

  lemma HolderOldRows(rows: seq<Row>, abs: Abs, id: Id, t: Tag, e: Entry, row: Row)
    requires Rep(rows, abs) && id in abs && abs[id].phase.Holding?
    requires e == abs[id].(phase := e.phase) && e.phase.attempt == abs[id].phase.attempt == row.attempt
    requires row.key == id.1 && row.scope == TagScope(id.0, t, row.attempt)
    requires t == Marked <==> e.phase.Holding?
    requires !Has(rows, row.scope, row.key)
    ensures forall i :: 0 <= i < |rows| ==> RowOk(rows[i], abs[id := e])
  {
    hide Decodable, NulFree, EntryOk, Base, TagScope;
    forall i | 0 <= i < |rows| ensures RowOk(rows[i], abs[id := e]) {
      assert RowOk(rows[i], abs);
      assert rows[i].scope != row.scope || rows[i].key != row.key;
      OldRowOk(rows[i], abs, id, e);
    }
  }

  lemma EffectRefines(rows: seq<Row>, abs: Abs, m: Mutation)
    requires Rep(rows, abs) && CallerRules(abs, OpEffect(m))
    ensures RecordEffect(rows, m).1 == AbsEffect(abs, m).1
    ensures Rep(RecordEffect(rows, m).0, AbsEffect(abs, m).0)
  {
    hide StorableKey, Newest, RowOk, Blank, IsHex, TagScope, NulFree, Decodable, Rep;
    if ValidMutation(m) {
      var id := (m.scope, m.key);
      EffectScopeStored(rows, abs, m);
      if abs[id].phase.effect.None? {
        EffectRowDecodable(m);
        HolderAppends(rows, abs, id, Marked, AbsEffect(abs, m).0[id], EffectRow(m));
      }
    }
  }

  lemma EffectRowDecodable(m: Mutation)
    requires ValidMutation(m)
    ensures NulFree(m.attempt) && EffectRow(m).scope == TagScope(m.scope, Marked, m.attempt)
    ensures !Blank(EffectRow(m).scope) ==> Decodable(EffectRow(m))
  {
    hide Blank, IsHex;
    KindsNotBlank();
    ValidAttemptNulFree(m.attempt);
  }

  lemma EffectScopeStored(rows: seq<Row>, abs: Abs, m: Mutation)
    requires Rep(rows, abs) && CallerRules(abs, OpEffect(m)) && ValidMutation(m)
    ensures StorableKey(m.key)
    ensures var scope := EffectRow(m).scope;
            var effect := abs[(m.scope, m.key)].phase.effect;
            && (effect.None? ==> !Has(rows, scope, m.key))
            && (effect.Some? ==>
                  && Exact(rows, scope, m.key).Some?
                  && var row := Exact(rows, scope, m.key).value;
                  Decodable(row) && row.digest == m.digest && row.state.Reserved? && row.effect == effect)
  {
    hide StorableKey, Newest, Blank, IsHex, NulFree, Decodable, Has, TagScope, Rep;
    var id := (m.scope, m.key);
    EntryOfRep(rows, abs, id);
    EffectRowDecodable(m);
    if Has(rows, TagScope(m.scope, Marked, m.attempt), m.key) {
      var row := StoredTag(rows, abs, m.scope, m.key, Marked, m.attempt);
      ExactUnique(rows, abs, row);
    }
  }

  lemma EntryOfRep(rows: seq<Row>, abs: Abs, id: Id)
    requires Rep(rows, abs) && id in abs
    ensures EntryOk(rows, id, abs[id])
  {
  }

  lemma ReleaseRefines(rows: seq<Row>, abs: Abs, r: Record)
    requires Rep(rows, abs) && CallerRules(abs, OpRelease(r))
    ensures Release(rows, r).1 == AbsRelease(abs, r).1
    ensures Rep(Release(rows, r).0, AbsRelease(abs, r).0)
  {
    hide StorableKey, Newest, RowOk, Blank, IsHex, TagScope, NulFree, Decodable, Rep, ValidAttempt;
    LatestShowsEntry(rows, abs, r.scope, r.key);
    var id := (r.scope, r.key);
    if AbsRelease(abs, r).1 == Done {
      if abs[id].phase.Holding? {
        EntryOfRep(rows, abs, id);
        ReleaseRowFits(rows, abs, r);
        HolderAppends(rows, abs, id, Freed, AbsRelease(abs, r).0[id], ReleaseRow(r));
      } else {
        assert AbsRelease(abs, r).0 == abs;
      }
    }
  }

  lemma ReleaseRowFits(rows: seq<Row>, abs: Abs, r: Record)
    requires Rep(rows, abs) && CallerRules(abs, OpRelease(r)) && ValidRecord(r) && ValidAttempt(r.attempt)
    requires (r.scope, r.key) in abs && abs[(r.scope, r.key)].phase.Holding?
    requires abs[(r.scope, r.key)].phase.attempt == r.attempt
    ensures NulFree(r.attempt) && ReleaseRow(r).scope == TagScope(r.scope, Freed, r.attempt)
    ensures !Blank(ReleaseRow(r).scope) ==> Decodable(ReleaseRow(r))
    ensures !Has(rows, ReleaseRow(r).scope, r.key)
  {
    hide Blank, IsHex, Rep, Has;
    KindsNotBlank();
    ValidAttemptNulFree(r.attempt);
    if Has(rows, ReleaseRow(r).scope, r.key) {
      var clash := StoredTag(rows, abs, r.scope, r.key, Freed, r.attempt);
      assert false;
    }
  }

  lemma CompleteRefines(rows: seq<Row>, abs: Abs, r: Record)
    requires Rep(rows, abs) && CallerRules(abs, OpComplete(r))
    ensures Complete(rows, r).1 == AbsComplete(abs, r).1
    ensures Rep(Complete(rows, r).0, AbsComplete(abs, r).0)
  {
    hide StorableKey, Newest, RowOk, Blank, IsHex, TagScope, NulFree, Decodable, Rep, ValidAttempt, ValidEffect;
    LatestShowsEntry(rows, abs, r.scope, r.key);
    var id := (r.scope, r.key);
    if && r.state.Completed? && !Blank(r.createdAt) && ValidRecord(r) && (r.attempt == "" || ValidAttempt(r.attempt))
       && id in abs && abs[id].digest == r.digest && abs[id].phase.Holding? && abs[id].phase.attempt == r.attempt {
      EntryOfRep(rows, abs, id);
      var latest := Newest(rows, r.scope, r.key).value;
      var row := CompletionRow(r, latest);
      CompletionRowFits(rows, abs, r, latest);
      ExactAppend(rows, row);
      if AbsComplete(abs, r).1 == Done {
        var t := if r.attempt != "" then Ended else EndedBare;
        HolderAppends(rows, abs, id, t, AbsComplete(abs, r).0[id], row);
      }
    }
  }

  lemma CompletionRowFits(rows: seq<Row>, abs: Abs, r: Record, latest: Row)
    requires Rep(rows, abs) && CallerRules(abs, OpComplete(r)) && ValidRecord(r)
    requires (r.attempt == "" || ValidAttempt(r.attempt))
    requires (r.scope, r.key) in abs && abs[(r.scope, r.key)].phase.Holding?
    requires latest.effect == abs[(r.scope, r.key)].phase.effect
    ensures NulFree(r.attempt)
    ensures CompletionRow(r, latest).scope == TagScope(r.scope, if r.attempt != "" then Ended else EndedBare, r.attempt)
    ensures !Has(rows, CompletionRow(r, latest).scope, r.key)
    ensures var effect := CompletionRow(r, latest).effect;
            Decodable(CompletionRow(r, latest)) <==>
              && !Blank(r.kind) && !Blank(r.resourceId)
              && (effect.Some? ==> ValidEffect(effect.value, r.digest, r.attempt))
              && (r.kind == EFFECT_KIND ==> effect.Some?)
  {
    hide Blank, IsHex, Rep, Has, ValidEffect, InFamily;
    ValidAttemptNulFree(r.attempt);
    var t := if r.attempt != "" then Ended else EndedBare;
    TagInFamily(r.scope, t, r.attempt);
    FamilyNotBlank(TagScope(r.scope, t, r.attempt), r.scope);
    if Has(rows, TagScope(r.scope, t, r.attempt), r.key) {
      var clash := StoredTag(rows, abs, r.scope, r.key, t, r.attempt);
      assert false;
    }
  }

  lemma StepRefines(rows: seq<Row>, abs: Abs, op: Op)
    requires Rep(rows, abs) && CallerRules(abs, op)
    ensures Step(rows, op).1 == AbsStep(abs, op).1
    ensures Rep(Step(rows, op).0, AbsStep(abs, op).0)
  {
    match op
    case OpReserve(r) => ReserveRefines(rows, abs, r);
    case OpEffect(m) => EffectRefines(rows, abs, m);
    case OpRelease(r) => ReleaseRefines(rows, abs, r);
    case OpComplete(r) => CompleteRefines(rows, abs, r);
  }
}
