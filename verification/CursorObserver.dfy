/**
 * The cursor store as the objects of internal/filesystem/observe/cursor_store.go:
 * each method is one critical section, run with the locks it takes free, and
 * proved against the regions that CursorStore interleaves.
 */
module CursorObserver {
  import opened Common
  import opened CursorStore

  const TTL := 600

  class CursorState {
    const r: nat
    var open: bool
    var generation: nat
    var invalidated: bool
    var lastUsed: int

    constructor (r: nat, now: int)
      ensures this.r == r && Value() == Cell(true, 1, false) && lastUsed == now
    {
      this.r, open, generation, invalidated, lastUsed := r, true, 1, false, now;
    }

    function Value(): Cell
      reads this
    {
      Cell(open, generation, invalidated)
    }
  }

  // Several cursors forgotten at once.
  ghost function ForgetAll(core: Core, gone: set<string>): Core {
    Core(core.cursors - gone,
         map r | r in core.cells ::
           if exists k :: k in gone && k in core.cursors && core.cursors[k] == r
           then core.cells[r].(open := false) else core.cells[r])
  }

  lemma ForgetOneMore(core: Core, gone: set<string>, k: string)
    requires k in core.cursors && k !in gone && core.cursors[k] in core.cells
    ensures ForgetAll(core, gone + {k}) == Forget(ForgetAll(core, gone), k)
  {
    var one, two := ForgetAll(core, gone + {k}), Forget(ForgetAll(core, gone), k);
    assert one.cursors == two.cursors;
    forall r | r in core.cells ensures one.cells[r] == two.cells[r] {
      if r == core.cursors[k] {
        assert k in gone + {k};
      }
    }
  }

  lemma OneMore(core: Core, uses: map<string, int>, gone: set<string>, k: string)
    requires k in core.cursors && k !in gone && core.cursors[k] in core.cells
    ensures ForgetAll(core, gone + {k}) == Forget(ForgetAll(core, gone), k)
    ensures uses - gone - {k} == uses - (gone + {k})
  {
    ForgetOneMore(core, gone, k);
  }

  lemma ForgetNone(core: Core)
    ensures ForgetAll(core, {}) == core
  {
    assert ForgetAll(core, {}).cells == core.cells;
  }

  class Observer {
    var cursors: map<string, CursorState>
    ghost var all: map<nat, CursorState> // every state ever made

    ghost predicate Valid()
      reads this, all.Values
    {
      && (forall r :: r in all ==> all[r].r == r)
      && (forall id :: id in cursors ==> cursors[id].r in all && all[cursors[id].r] == cursors[id])
    }

    ghost function View(): Core
      reads this, all.Values, cursors.Values
    {
      Core(map id | id in cursors :: cursors[id].r, map r | r in all :: all[r].Value())
    }

    constructor ()
      ensures Valid() && View() == Init.core
    {
      cursors := map[];
      all := map[];
    }

    // delete(o.cursors, k) and closeLocked
    method Close(k: string)
      requires Valid() && k in cursors
      modifies this`cursors, cursors[k]
      ensures Valid() && View() == Forget(old(View()), k)
      ensures cursors == old(cursors) - {k} && LastUses() == old(LastUses()) - {k}
      ensures var state := old(cursors)[k];
        !state.open && state.invalidated == old(state.invalidated) && state.generation == old(state.generation)
    {
      StateOf(k);
      var state := cursors[k];
      Unlink(k);
      Shut(state);
    }

    method Unlink(k: string)
      requires Valid() && k in cursors
      modifies this`cursors
      ensures Valid() && View() == Core(old(View()).cursors - {k}, old(View()).cells)
      ensures cursors == old(cursors) - {k} && LastUses() == old(LastUses()) - {k}
    {
      cursors := cursors - {k};
      assert View().cursors == old(View()).cursors - {k};
    }

    // closeLocked
    method Shut(state: CursorState)
      requires Valid() && state.r in all && all[state.r] == state
      modifies state`open
      ensures Valid() && LastUses() == old(LastUses()) && !state.open
      ensures View() == old(View()).(cells := old(View()).cells[state.r := old(state.Value()).(open := false)])
    {
      state.open := false;
      assert View().cells == old(View()).cells[state.r := old(state.Value()).(open := false)];
    }

    // lockEnumerationCursor
    method Lock(id: string, now: int) returns (state: CursorState?)
      requires Valid()
      modifies this`cursors, cursors.Values
      ensures Valid()
      ensures state != null <==> id in old(cursors) && now - old(cursors[id].lastUsed) <= 600
      ensures state != null ==> id in cursors && state == cursors[id] && state.lastUsed == now && View() == old(View())
      ensures state != null ==> cursors == old(cursors) && state.open == old(cursors[id].open)
      ensures state == null && id in old(cursors) ==> cursors == old(cursors) - {id} && !old(cursors)[id].open
      ensures state == null ==> View() == if id in old(cursors) then Forget(old(View()), id) else old(View())
    {
      if id !in cursors {
        return null;
      }
      state := cursors[id];
      if now - state.lastUsed > TTL {
        Close(id);
        return null;
      }
      state.lastUsed := now;
      assert View().cells == old(View()).cells;
    }
  
    // dropEnumerationCursor
    method Drop(id: string, state: CursorState)
      requires Valid()
      modifies this`cursors, cursors.Values
      ensures Valid()
      ensures id in old(cursors) && old(cursors[id]) == state ==>
                cursors == old(cursors) - {id} && !state.open && state.invalidated
      ensures !(id in old(cursors) && old(cursors[id]) == state) ==> cursors == old(cursors)
      ensures View() == if id in old(cursors) && old(cursors[id]) == state then Forget(Mark(old(View()), state.r), id)
                        else old(View())
    {
      if id !in cursors || cursors[id] != state {
        return;
      }
      Invalidate(state, id);
    }

    // invalidateEnumerationCursor
    method InvalidateCursor(id: string, generation: nat)
      requires Valid()
      modifies this`cursors, cursors.Values
      ensures Valid()
      ensures id in old(cursors) && old(cursors[id].generation) == generation ==>
                cursors == old(cursors) - {id} && !old(cursors)[id].open && old(cursors)[id].invalidated
      ensures !(id in old(cursors) && old(cursors[id].generation) == generation) ==> cursors == old(cursors)
      ensures View() == if id in old(cursors) && old(cursors[id].generation) == generation
                        then Forget(Mark(old(View()), old(cursors)[id].r), id) else old(View())
    {
      if id !in cursors {
        return;
      }
      var state := cursors[id];
      if state.generation != generation {
        return;
      }
      Invalidate(state, id);
    }

    method Invalidate(state: CursorState, id: string)
      requires Valid() && id in cursors && cursors[id] == state
      modifies this`cursors, state
      ensures Valid() && View() == Forget(Mark(old(View()), state.r), id)
      ensures cursors == old(cursors) - {id} && !state.open && state.invalidated
    {
      state.invalidated := true;
      assert View().cells == Mark(old(View()), state.r).cells;
      Close(id);
    }

    // The first loop of storeEnumerationCursor.
    method Sweep(now: int) returns (ghost gone: set<string>)
      requires Valid()
      modifies this`cursors, all.Values
      ensures Valid() && gone == Idlers(old(LastUses()), now) && View() == ForgetAll(old(View()), gone)
      ensures LastUses() == old(LastUses()) - gone
    {
      hide ForgetAll, Forget, View, LastUses, Valid;
      ghost var core, uses := View(), LastUses();
      gone := {};
      ForgetNone(core);
      Domains();
      var todo := cursors.Keys;
      while todo != {}
        invariant Valid() && todo <= cursors.Keys && todo !! gone
        invariant LastUses() == uses - gone && View() == ForgetAll(core, gone)
        invariant gone == Idlers(uses, now) - todo
      {
        Domains();
        var k :| k in todo;
        todo := todo - {k};
        if now - cursors[k].lastUsed > TTL {
          OneMore(core, uses, gone, k);
          Close(k);
          gone := gone + {k};
        }
      }
    }

    lemma StateOf(k: string)
      requires Valid() && k in cursors
      ensures k in View().cursors && View().cursors[k] == cursors[k].r
      ensures cursors[k].r in View().cells && View().cells[cursors[k].r] == cursors[k].Value()
    {
    }

    lemma Domains()
      requires Valid()
      ensures LastUses().Keys == cursors.Keys && forall k :: k in cursors ==> LastUses()[k] == cursors[k].lastUsed
      ensures View().cursors.Keys == cursors.Keys
      ensures forall k :: k in cursors ==> View().cursors[k] in View().cells && cursors[k] in all.Values
    {
    }

    // storeEnumerationCursor: idle cursors go, and the oldest when the store is full.
    method Store(id: string, state: CursorState, now: int) returns (ghost gone: set<string>)
      requires Valid() && |cursors| <= MAX_CURSORS
      requires state.r in all && all[state.r] == state && state !in cursors.Values
      modifies this`cursors, all.Values
      ensures Valid() && |cursors| <= 256 && id in cursors && cursors[id] == state
      ensures Removed(old(LastUses()), now, gone)
      ensures View() == Stored(ForgetAll(old(View()), gone), id, state.r)
    {
      hide ForgetAll, Forget;
      Touch(state, now);
      gone := MakeRoom(now);
      Put(id, state);
    }

    // state.touch on a state that is not stored
    method Touch(state: CursorState, now: int)
      requires Valid() && state !in cursors.Values && state.r in all && all[state.r] == state
      modifies state`lastUsed
      ensures Valid() && View() == old(View()) && LastUses() == old(LastUses()) && cursors == old(cursors)
    {
      state.lastUsed := now;
      assert View().cells == old(View()).cells;
    }

    method MakeRoom(now: int) returns (ghost gone: set<string>)
      requires Valid() && |cursors| <= MAX_CURSORS
      modifies this`cursors, all.Values
      ensures Valid() && |cursors| < MAX_CURSORS
      ensures Removed(old(LastUses()), now, gone) && View() == ForgetAll(old(View()), gone)
    {
      hide ForgetAll, Forget, View, LastUses, Valid, Removed;
      Domains();
      ghost var core, uses := View(), LastUses();
      gone := Sweep(now);
      Domains();
      assert |cursors| == |cursors.Keys| == |uses - gone| by { assert |uses - gone| == |(uses - gone).Keys|; }
      if |cursors| >= MAX_CURSORS {
        var oldest := EvictOldest();
        assert oldest in uses - gone;
        OneMore(core, uses, gone, oldest);
        RoomMade(uses, now, oldest);
        gone := gone + {oldest};
      } else {
        NoRoomMade(uses, now);
      }
    }

    method EvictOldest() returns (oldest: string)
      requires Valid() && cursors != map[]
      modifies this`cursors, all.Values
      ensures Valid() && |cursors| == |old(cursors)| - 1
      ensures oldest in old(LastUses()) && forall k :: k in old(LastUses()) ==>
        old(LastUses())[oldest] <= old(LastUses())[k]
      ensures View() == Forget(old(View()), oldest)
    {
      hide Forget, View, LastUses, Valid;
      Domains();
      oldest := Oldest();
      Close(oldest);
      assert old(cursors) == cursors[oldest := old(cursors)[oldest]];
    }

    method Put(id: string, state: CursorState)
      requires Valid() && state.r in all && all[state.r] == state && |cursors| < MAX_CURSORS
      modifies this`cursors
      ensures Valid() && View() == Stored(old(View()), id, state.r) && |cursors| <= MAX_CURSORS
      ensures cursors == old(cursors)[id := state]
    {
      cursors := cursors[id := state];
      assert View().cursors == Stored(old(View()), id, state.r).cursors;
    }

    ghost function LastUses(): map<string, int>
      reads this, cursors.Values
    {
      map k | k in cursors :: cursors[k].lastUsed
    }

    // The eviction loop.
    method Oldest() returns (oldest: string)
      requires cursors != map[]
      ensures oldest in cursors && forall k :: k in cursors ==> cursors[oldest].lastUsed <= cursors[k].lastUsed
    {
      oldest :| oldest in cursors;
      var todo := cursors.Keys;
      while todo != {}
        invariant todo <= cursors.Keys && oldest in cursors
        invariant forall k :: k in cursors && k !in todo ==> cursors[oldest].lastUsed <= cursors[k].lastUsed
      {
        var k :| k in todo;
        todo := todo - {k};
        if cursors[k].lastUsed < cursors[oldest].lastUsed {
          oldest := k;
        }
      }
    }
  }

  // The cursors unused for too long.
  ghost function Idlers(uses: map<string, int>, now: int): set<string> { set k | k in uses && now - uses[k] > TTL }

  // What a store removes: every idle cursor, and when that leaves the store
  // full one more, least recently used.
  ghost predicate Removed(uses: map<string, int>, now: int, gone: set<string>) {
    var left := uses - Idlers(uses, now);
    if |left| < MAX_CURSORS then gone == Idlers(uses, now)
    else exists k :: k in left && gone == Idlers(uses, now) + {k} && forall j :: j in left ==> left[k] <= left[j]
  }

  lemma NoRoomMade(uses: map<string, int>, now: int)
    requires |uses - Idlers(uses, now)| < MAX_CURSORS
    ensures Removed(uses, now, Idlers(uses, now))
  {
  }

  lemma RoomMade(uses: map<string, int>, now: int, k: string)
    requires var left := uses - Idlers(uses, now);
      |left| >= MAX_CURSORS && k in left && forall j :: j in left ==> left[k] <= left[j]
    ensures Removed(uses, now, Idlers(uses, now) + {k})
  {
  }
}
