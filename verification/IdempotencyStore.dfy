/**
 * The store object: each method is one SQL transaction over the table, written
 * as the source writes it and proved to meet the transition functions whose
 * runs IdempotencyRuns reasons about.
 */
module IdempotencyStore {
  import opened Common
  import opened IdempotencyLog
  import IdempotencyMeaning

  class Store {
    var rows: seq<Row>

    constructor ()
      ensures rows == []
    {
      rows := [];
    }

    method LatestRow(scope: string, key: string) returns (r: Lookup)
      ensures r == LoadLatest(rows, scope, key)
    {
      var n := |rows|;
      assert rows[..n] == rows;
      while n > 0
        invariant 0 <= n <= |rows|
        invariant Newest(rows, scope, key) == Newest(rows[..n], scope, key)
      {
        var row := rows[n - 1];
        assert rows[..n][..n - 1] == rows[..n - 1];
        if row.key == key && InFamily(row.scope, scope) {
          return if Decodable(row) then Found(row) else Broken;
        }
        n := n - 1;
      }
      return Missing;
    }

    method ExactRow(scope: string, key: string) returns (r: Option<Row>)
      ensures r == Exact(rows, scope, key)
    {
      var n := |rows|;
      assert rows[..n] == rows;
      while n > 0
        invariant 0 <= n <= |rows|
        invariant Exact(rows, scope, key) == Exact(rows[..n], scope, key)
      {
        assert rows[..n][..n - 1] == rows[..n - 1];
        if rows[n - 1].scope == scope && rows[n - 1].key == key {
          return Some(rows[n - 1]);
        }
        n := n - 1;
      }
      return None;
    }

    method InsertOrIgnore(row: Row) returns (inserted: bool)
      modifies this
      ensures (rows, inserted) == Insert(old(rows), row)
    {
      var existing := ExactRow(row.scope, row.key);
      inserted := existing.None? && StorableKey(row.key);
      if inserted {
        rows := rows + [row];
      }
    }

    method LoadRecord(scope: string, key: string) returns (r: Loaded)
      ensures r == Load(rows, scope, key)
    {
      if Blank(scope) || Blank(key) {
        return LoadError;
      }
      var latest := LatestRow(scope, key);
      match latest
      case Broken => return LoadError;
      case Missing => return NotFound;
      case Found(row) =>
        match row.state
        case Released => return NotFound;
        case Reserved => return Pending(row.attempt, row.effect);
        case Completed => return Finished(row.attempt, row.status, row.body, row.replayable, row.effect);
        case Legacy => return Finished(row.attempt, row.status, row.body, true, row.effect);
    }

    method ReserveKey(r: Record) returns (o: Outcome)
      modifies this
      ensures (rows, o) == Reserve(old(rows), r)
    {
      if !r.state.Reserved? || Blank(r.createdAt) || !ValidRecord(r) || (r.attempt != "" && !ValidAttempt(r.attempt)) {
        return Failed;
      }
      var latest := LatestRow(r.scope, r.key);
      var scope := r.scope;
      match latest {
        case Broken => return Failed;
        case Missing =>
        case Found(row) =>
          if row.digest != r.digest {
            return Conflict;
          }
          if !row.state.Released? {
            return NotReserved;
          }
          scope := EventScope(r.scope, r.attempt, "reserved");
      }
      var inserted := InsertOrIgnore(ReservationRow(scope, r));
      return if inserted then Done else NotReserved;
    }

    method PersistEffect(m: Mutation) returns (o: Outcome)
      modifies this
      ensures (rows, o) == RecordEffect(old(rows), m)
      ensures o == Done && rows != old(rows) ==>
        var l := Load(rows, m.scope, m.key);
        && l.Pending? && l.attempt == m.attempt && l.effect.Some?
        && l.effect.value.scope == m.scope && l.effect.value.key == m.key
        && l.effect.value.digest == m.digest && l.effect.value.attempt == m.attempt
        && l.effect.value.operation == m.operation && l.effect.value.resourceKind == m.resourceKind
        && l.effect.value.resourceId == m.resourceId && l.effect.value.revision == m.revision
    {
      if RecordEffect(rows, m).1 == Done && RecordEffect(rows, m).0 != rows {
        IdempotencyMeaning.EffectRowIsStored(rows, m);
      }
      if !ValidMutation(m) {
        return Failed;
      }
      var inserted := InsertOrIgnore(EffectRow(m));
      if !inserted {
        var stored := ExactRow(EffectRow(m).scope, m.key);
        if || stored.None? || !Decodable(stored.value) || stored.value.digest != m.digest
           || !stored.value.state.Reserved? || stored.value.effect != Some(EffectOf(m)) {
          return Failed;
        }
      }
      return Done;
    }

    method ReleaseKey(r: Record) returns (o: Outcome)
      modifies this
      ensures (rows, o) == Release(old(rows), r)
    {
      if !r.state.Reserved? || Blank(r.createdAt) || !ValidRecord(r) || !ValidAttempt(r.attempt) {
        return Failed;
      }
      var latest := LatestRow(r.scope, r.key);
      if !latest.Found? || latest.row.digest != r.digest {
        return Failed;
      }
      if latest.row.state.Released? && latest.row.attempt == r.attempt {
        return Done;
      }
      if !latest.row.state.Reserved? || latest.row.attempt != r.attempt {
        return Failed;
      }
      var inserted := InsertOrIgnore(ReleaseRow(r));
      if !inserted {
        var stored := ExactRow(ReleaseRow(r).scope, r.key);
        if || stored.None? || !Decodable(stored.value) || stored.value.digest != r.digest
           || stored.value.attempt != r.attempt || !stored.value.state.Released? {
          return Failed;
        }
      }
      return Done;
    }

    // The row is inserted before it is read back; a mismatch rolls the table back.
    method CompleteKey(r: Record) returns (o: Outcome)
      modifies this
      ensures (rows, o) == Complete(old(rows), r)
    {
      if !r.state.Completed? || Blank(r.createdAt) || !ValidRecord(r) || (r.attempt != "" && !ValidAttempt(r.attempt)) {
        return Failed;
      }
      var latest := LatestRow(r.scope, r.key);
      if || !latest.Found? || latest.row.digest != r.digest || !latest.row.state.Reserved?
         || latest.row.attempt != r.attempt {
        return Failed;
      }
      var before := rows;
      var row := CompletionRow(r, latest.row);
      var _ := InsertOrIgnore(row);
      var back := ExactRow(row.scope, r.key);
      if || back.None? || !Decodable(back.value) || back.value.digest != r.digest || !back.value.state.Completed?
         || back.value.status != r.status || back.value.attempt != r.attempt || back.value.body != r.body {
        rows := before;
        return Failed;
      }
      return Done;
    }
  }
}
