/**
 * The bounded store of directory cursors (internal/filesystem/observe/cursor_store.go)
 * and the enumeration calls that use it (internal/filesystem/observe/observe.go),
 * interleaved at their lock operations. A critical section that cannot block is
 * one step; acquiring a lock is a step that waits for the lock. Which cursor
 * looks idle for too long, or oldest, is up to the clock and hence arbitrary.
 */
module CursorStore {
  import opened Common

  const MAX_CURSORS := 256

  // An enumerationCursorState: its directory descriptor is open or closed.
  datatype Cell = Cell(open: bool, generation: nat, invalidated: bool)

  datatype Core = Core(cursors: map<string, nat>, cells: map<nat, Cell>)

  // Where a thread stands. Hold: it has the map lock and waits for a state lock.
  datatype Pc =
    | Idle
    | Own(r: nat)
    | StoreWait(id: string, r: nat)
    | StoreHold(id: string, r: nat, todo: set<string>)
    | SweepHold(id: string, r: nat, todo: set<string>, k: string)
    | EvictHold(id: string, r: nat, k: string)
    | LockWait(id: string, g: nat)
    | LockHold(id: string, g: nat, s: nat)
    | Using(id: string, g: nat, s: nat)
    | DropWait(id: string, s: nat)
    | DropHold(id: string, s: nat)
    | InvWait(id: string, g: nat)
    | InvHold(id: string, g: nat, s: nat)

  datatype Sys = Sys(core: Core, mapHolder: Option<nat>, holder: map<nat, nat>, pcs: map<nat, Pc>, issued: set<string>)

  datatype Event =
    | Open(t: nat, r: nat)
    | Abandon(t: nat)
    | WantStore(t: nat, id: string)
    | WantLock(t: nat, id: string, g: nat)
    | WantInvalidate(t: nat, id: string, g: nat)
    | TakeMap(t: nat)
    | TakeState(t: nat, expired: bool)
    | Leave(t: nat, advance: bool, drop: bool)
    | Keep(t: nat, k: string)
    | Expire(t: nat, k: string)
    | Evict(t: nat, k: string)
    | Insert(t: nat)

  function At(s: Sys, t: nat): Pc { if t in s.pcs then s.pcs[t] else Idle }

  predicate WantsMap(pc: Pc) { pc.StoreWait? || pc.LockWait? || pc.DropWait? || pc.InvWait? }

  predicate HoldsMap(pc: Pc) {
    pc.StoreHold? || pc.SweepHold? || pc.EvictHold? || pc.LockHold? || pc.DropHold? || pc.InvHold?
  }

  // The state whose lock a map holder waits for.
  function WantsState(core: Core, pc: Pc): Option<nat> {
    match pc
    case LockHold(_, _, s) => Some(s)
    case DropHold(_, s) => Some(s)
    case InvHold(_, _, s) => Some(s)
    case SweepHold(_, _, _, k) => if k in core.cursors then Some(core.cursors[k]) else None
    case EvictHold(_, _, k) => if k in core.cursors then Some(core.cursors[k]) else None
    case _ => None
  }

  // The state a thread has opened but not stored yet.
  function Owns(pc: Pc): Option<nat> {
    if pc.Own? || pc.StoreWait? || pc.StoreHold? || pc.SweepHold? || pc.EvictHold? then Some(pc.r) else None
  }

  function StoresAs(pc: Pc): Option<string> {
    if pc.StoreWait? || pc.StoreHold? || pc.SweepHold? || pc.EvictHold? then Some(pc.id) else None
  }

  // ------------------------------------------------------------ regions

  // delete and closeLocked
  function Forget(core: Core, k: string): Core {
    if k in core.cursors && core.cursors[k] in core.cells then
      Core(core.cursors - {k}, core.cells[core.cursors[k] := core.cells[core.cursors[k]].(open := false)])
    else core
  }

  function Mark(core: Core, s: nat): Core {
    if s in core.cells then core.(cells := core.cells[s := core.cells[s].(invalidated := true)]) else core
  }

  // The rest of a continuation: consume the token, or invalidate, or neither.
  function Finish(core: Core, s: nat, advance: bool, drop: bool): Core {
    if s in core.cells then
      var c := core.cells[s];
      core.(cells := core.cells[s :=
        Cell(c.open, if advance then c.generation + 1 else c.generation, c.invalidated || drop)])
    else core
  }

  predicate Enabled(s: Sys, e: Event) {
    var pc := At(s, e.t);
    match e
    case Open(_, r) => pc.Idle? && r !in s.core.cells
    case Abandon(_) => pc.Own?
    case WantStore(_, id) => pc.Own? && id !in s.issued
    case WantLock(_, _, _) => pc.Idle?
    case WantInvalidate(_, _, _) => pc.Idle?
    case TakeMap(_) => WantsMap(pc) && s.mapHolder.None?
    case TakeState(_, _) => WantsState(s.core, pc).Some? && WantsState(s.core, pc).value !in s.holder
    case Leave(_, advance, drop) =>
      pc.Using? && (advance || drop ==>
        pc.s in s.core.cells && !s.core.cells[pc.s].invalidated && s.core.cells[pc.s].generation == pc.g)
    case Keep(_, k) => pc.StoreHold? && k in pc.todo
    case Expire(_, k) => pc.StoreHold? && k in pc.todo
    case Evict(_, k) => pc.StoreHold? && pc.todo == {} && |s.core.cursors| >= MAX_CURSORS && k in s.core.cursors
    case Insert(_) => pc.StoreHold? && pc.todo == {} && |s.core.cursors| < MAX_CURSORS
  }

  function Go(s: Sys, t: nat, pc: Pc): Sys { s.(pcs := s.pcs[t := pc]) }

  // Releasing the map lock with a new core.
  function Free(s: Sys, t: nat, core: Core): Sys { s.(core := core, mapHolder := None, pcs := s.pcs[t := Idle]) }

  function Stored(core: Core, id: string, r: nat): Core { core.(cursors := core.cursors[id := r]) }

  function Apply(s: Sys, e: Event): Sys
    requires Enabled(s, e)
  {
    var t, pc := e.t, At(s, e.t);
    match e
    case Open(_, r) => Go(s.(core := s.core.(cells := s.core.cells[r := Cell(true, 1, false)])), t, Own(r))
    case Abandon(_) =>
      if pc.r in s.core.cells then
        Go(s.(core := s.core.(cells := s.core.cells[pc.r := s.core.cells[pc.r].(open := false)])), t, Idle)
      else s
    case WantStore(_, id) => Go(s.(issued := s.issued + {id}), t, StoreWait(id, pc.r))
    case WantLock(_, id, g) => Go(s, t, LockWait(id, g))
    case WantInvalidate(_, id, g) => Go(s, t, InvWait(id, g))
    case TakeMap(_) => EnterMap(s, t)
    case TakeState(_, expired) => EnterState(s, t, expired)
    case Leave(_, advance, drop) =>
      Go(s.(core := Finish(s.core, pc.s, advance, drop), holder := s.holder - {pc.s}), t,
         if drop then DropWait(pc.id, pc.s) else Idle)
    case Keep(_, k) => Go(s, t, StoreHold(pc.id, pc.r, pc.todo - {k}))
    case Expire(_, k) => Go(s, t, SweepHold(pc.id, pc.r, pc.todo - {k}, k))
    case Evict(_, k) => Go(s, t, EvictHold(pc.id, pc.r, k))
    case Insert(_) => Free(s, t, Stored(s.core, pc.id, pc.r))
  }

  // cursorMu.Lock and what follows up to the next lock operation.
  function EnterMap(s: Sys, t: nat): Sys
    requires WantsMap(At(s, t))
  {
    var pc := At(s, t);
    var held := s.(mapHolder := Some(t));
    match pc
    case StoreWait(id, r) => Go(held, t, StoreHold(id, r, s.core.cursors.Keys))
    case LockWait(id, g) =>
      if id in s.core.cursors then Go(held, t, LockHold(id, g, s.core.cursors[id])) else Go(s, t, Idle)
    case InvWait(id, g) =>
      if id in s.core.cursors then Go(held, t, InvHold(id, g, s.core.cursors[id])) else Go(s, t, Idle)
    case DropWait(id, r) =>
      if id in s.core.cursors && s.core.cursors[id] == r then Go(held, t, DropHold(id, r)) else Go(s, t, Idle)
  }

  // state.mu.Lock under the map lock and what follows.
  function EnterState(s: Sys, t: nat, expired: bool): Sys
    requires WantsState(s.core, At(s, t)).Some?
  {
    var pc := At(s, t);
    match pc
    case LockHold(id, g, r) =>
      if expired then Free(s, t, Forget(s.core, id))
      else Sys(s.core, None, s.holder[r := t], s.pcs[t := Using(id, g, r)], s.issued)
    case DropHold(id, r) => Free(s, t, Forget(Mark(s.core, r), id))
    case InvHold(id, g, r) =>
      if r in s.core.cells && s.core.cells[r].generation == g then Free(s, t, Forget(Mark(s.core, r), id))
      else Free(s, t, s.core)
    case SweepHold(id, r, todo, k) => Go(s.(core := Forget(s.core, k)), t, StoreHold(id, r, todo))
    case EvictHold(id, r, k) => Free(s, t, Stored(Forget(s.core, k), id, r))
  }

  const Init := Sys(Core(map[], map[]), None, map[], map[], {})

  ghost predicate Run(ss: seq<Sys>, es: seq<Event>) {
    && |ss| == |es| + 1 && ss[0] == Init
    && forall i :: 0 <= i < |es| ==> Enabled(ss[i], es[i]) && ss[i + 1] == Apply(ss[i], es[i])
  }

  // ------------------------------------------------------------ invariant

  predicate InMap(core: Core, r: nat) { exists id :: id in core.cursors && core.cursors[id] == r }

  ghost predicate CoreOk(core: Core, issued: set<string>) {
    && |core.cursors| <= MAX_CURSORS
    && (forall id :: id in core.cursors ==>
         id in issued && core.cursors[id] in core.cells && core.cells[core.cursors[id]].open)
    && (forall a, b :: a in core.cursors && b in core.cursors && core.cursors[a] == core.cursors[b] ==> a == b)
  }

  // What a thread relies on.
  ghost predicate ThreadOk(core: Core, issued: set<string>, pc: Pc) {
    && (Owns(pc).Some? ==>
          && pc.r in core.cells && core.cells[pc.r].open && !core.cells[pc.r].invalidated && !InMap(core, pc.r))
    && (StoresAs(pc).Some? ==> pc.id in issued && pc.id !in core.cursors)
    && (pc.StoreHold? || pc.SweepHold? ==> pc.todo <= core.cursors.Keys)
    && (pc.SweepHold? ==> pc.k in core.cursors && pc.k !in pc.todo)
    && (pc.EvictHold? ==> pc.k in core.cursors)
    && (pc.LockHold? || pc.Using? || pc.DropHold? || pc.InvHold? ==>
      pc.id in core.cursors && core.cursors[pc.id] == pc.s)
  }

  ghost predicate Locks(s: Sys) {
    && (forall t: nat :: s.mapHolder == Some(t) <==> HoldsMap(At(s, t)))
    && (forall r :: r in s.holder ==> At(s, s.holder[r]).Using? && At(s, s.holder[r]).s == r)
    && (forall t: nat :: At(s, t).Using? ==> At(s, t).s in s.holder && s.holder[At(s, t).s] == t)
  }

  ghost predicate Apart(s: Sys) {
    forall t, u :: t != u ==>
      && (Owns(At(s, t)).Some? ==> Owns(At(s, t)) != Owns(At(s, u)))
      && (StoresAs(At(s, t)).Some? ==> StoresAs(At(s, t)) != StoresAs(At(s, u)))
  }

  ghost predicate Owned(s: Sys, r: nat) { exists t :: Owns(At(s, t)) == Some(r) }

  // A directory is open exactly while its state is stored or still being made.
  ghost predicate OpenOk(s: Sys) {
    forall r :: r in s.core.cells && s.core.cells[r].open ==> InMap(s.core, r) || Owned(s, r)
  }

  predicate Dropping(pc: Pc, id: string, r: nat) { pc == DropWait(id, r) || pc == DropHold(id, r) }

  ghost predicate BeingDropped(s: Sys, id: string, r: nat) { exists t :: Dropping(At(s, t), id, r) }

  // An invalidated cursor that is still stored has a thread on its way to drop it.
  ghost predicate DropsOk(s: Sys) {
    forall id :: id in s.core.cursors && s.core.cursors[id] in s.core.cells
                 && s.core.cells[s.core.cursors[id]].invalidated ==>
      BeingDropped(s, id, s.core.cursors[id])
  }

  ghost predicate Threads(s: Sys) { forall t :: ThreadOk(s.core, s.issued, At(s, t)) }

  ghost predicate Inv(s: Sys) {
    CoreOk(s.core, s.issued) && Threads(s) && Locks(s) && Apart(s) && OpenOk(s) && DropsOk(s)
  }

  // ------------------------------------------------------------ preservation

  lemma ForgetCore(core: Core, issued: set<string>, k: string)
    requires CoreOk(core, issued) && k in core.cursors
    ensures CoreOk(Forget(core, k), issued) && |Forget(core, k).cursors| == |core.cursors| - 1
  {
    var after := core.cursors - {k};
    assert core.cursors == after[k := core.cursors[k]];
  }

  lemma MarkCore(core: Core, issued: set<string>, r: nat)
    requires CoreOk(core, issued)
    ensures CoreOk(Mark(core, r), issued)
  {
  }

  lemma StoredCore(core: Core, issued: set<string>, id: string, r: nat)
    requires CoreOk(core, issued) && id !in core.cursors && id in issued && |core.cursors| < MAX_CURSORS
    requires r in core.cells && core.cells[r].open && !InMap(core, r)
    ensures CoreOk(Stored(core, id, r), issued)
  {
    assert |core.cursors[id := r]| == |core.cursors| + 1;
  }

  // Only thread t moves, to pc.
  ghost predicate Moves(s: Sys, s': Sys, t: nat, pc: Pc) { s'.pcs == s.pcs[t := pc] }

  // The lock fields follow the mover's position.
  ghost predicate LocksFollow(s: Sys, s': Sys, t: nat, pc: Pc) {
    var was := At(s, t);
    && s'.mapHolder == (if HoldsMap(pc) then Some(t) else if HoldsMap(was) then None else s.mapHolder)
    && (HoldsMap(pc) && !HoldsMap(was) ==> s.mapHolder.None?)
    && (pc.Using? && pc != was ==> pc.s !in s.holder)
    && s'.holder == (if pc == was then s.holder else if pc.Using? then s.holder[pc.s := t]
                     else if was.Using? then s.holder - {was.s} else s.holder)
    && (was.Using? ==> !pc.Using?)
  }

  lemma LocksMove(s: Sys, s': Sys, t: nat, pc: Pc)
    requires Locks(s) && Moves(s, s', t, pc) && LocksFollow(s, s', t, pc)
    ensures Locks(s')
  {
    hide HoldsMap;
    assert forall u: nat :: At(s', u) == if u == t then pc else At(s, u);
    assert s.mapHolder == Some(t) <==> HoldsMap(At(s, t));
  }

  lemma ApartMove(s: Sys, s': Sys, t: nat, pc: Pc)
    requires Apart(s) && Moves(s, s', t, pc)
    requires Owns(pc).None? || Owns(pc) == Owns(At(s, t)) || forall u :: Owns(At(s, u)) != Owns(pc)
    requires StoresAs(pc).None? || StoresAs(pc) == StoresAs(At(s, t)) || forall u :: StoresAs(At(s, u)) != StoresAs(pc)
    ensures Apart(s')
  {
    hide Owns, StoresAs;
    assert forall u: nat :: At(s', u) == if u == t then pc else At(s, u);
  }

  lemma OpenMove(s: Sys, s': Sys, t: nat, pc: Pc)
    requires OpenOk(s) && Moves(s, s', t, pc)
    requires forall r :: r in s'.core.cells && s'.core.cells[r].open ==>
      || InMap(s'.core, r) || Owns(pc) == Some(r)
      || (r in s.core.cells && s.core.cells[r].open && (InMap(s.core, r) ==>
        InMap(s'.core, r)) && Owns(At(s, t)) != Some(r))
    ensures OpenOk(s')
  {
    hide Owns, InMap;
    assert forall u: nat :: At(s', u) == if u == t then pc else At(s, u);
    forall r | r in s'.core.cells && s'.core.cells[r].open ensures InMap(s'.core, r) || Owned(s', r) {
      if !InMap(s'.core, r) {
        if Owns(pc) == Some(r) {
          assert Owns(At(s', t)) == Some(r);
        } else {
          assert Owned(s, r);
          var u: nat :| Owns(At(s, u)) == Some(r);
          assert Owns(At(s', u)) == Some(r);
        }
      }
    }
  }

  lemma DropsMove(s: Sys, s': Sys, t: nat, pc: Pc)
    requires DropsOk(s) && Moves(s, s', t, pc)
    requires forall id ::
      (id in s'.core.cursors && s'.core.cursors[id] in s'.core.cells
       && s'.core.cells[s'.core.cursors[id]].invalidated) ==>
      || Dropping(pc, id, s'.core.cursors[id])
      || (id in s.core.cursors && s.core.cursors[id] == s'.core.cursors[id] && s.core.cursors[id] in s.core.cells
          && s.core.cells[s.core.cursors[id]].invalidated && !Dropping(At(s, t), id, s.core.cursors[id]))
    ensures DropsOk(s')
  {
    hide Dropping;
    assert forall u: nat :: At(s', u) == if u == t then pc else At(s, u);
    forall id | id in s'.core.cursors && s'.core.cursors[id] in s'.core.cells
               && s'.core.cells[s'.core.cursors[id]].invalidated
      ensures BeingDropped(s', id, s'.core.cursors[id])
    {
      var r := s'.core.cursors[id];
      if Dropping(pc, id, r) {
        assert Dropping(At(s', t), id, r);
      } else {
        var u: nat :| Dropping(At(s, u), id, r);
        assert Dropping(At(s', u), id, r);
      }
    }
  }

  // Another thread's facts survive a change of cells it does not own.
  lemma CellsKeepThread(core: Core, core': Core, issued: set<string>, issued': set<string>, pc: Pc)
    requires ThreadOk(core, issued, pc) && core'.cursors == core.cursors && issued <= issued'
    requires Owns(pc).Some? && Owns(pc).value in core.cells ==>
      Owns(pc).value in core'.cells && core'.cells[Owns(pc).value] == core.cells[Owns(pc).value]
    ensures ThreadOk(core', issued', pc)
  {
  }

  lemma ForgetKeepsThread(core: Core, issued: set<string>, pc: Pc, k: string)
    requires CoreOk(core, issued) && ThreadOk(core, issued, pc) && k in core.cursors
    requires !HoldsMap(pc) && (pc.Using? ==> pc.s != core.cursors[k])
    ensures ThreadOk(Forget(core, k), issued, pc)
  {
    if Owns(pc).Some? {
      assert InMap(core, core.cursors[k]);
    }
  }

  lemma StoredKeepsThread(core: Core, issued: set<string>, pc: Pc, id: string, r: nat)
    requires ThreadOk(core, issued, pc) && !HoldsMap(pc) && id !in core.cursors
    requires Owns(pc) != Some(r) && StoresAs(pc) != Some(id)
    ensures ThreadOk(Stored(core, id, r), issued, pc)
  {
  }

  lemma ThreadsMove(s: Sys, s': Sys, t: nat, pc: Pc)
    requires Moves(s, s', t, pc) && ThreadOk(s'.core, s'.issued, pc)
    requires forall u: nat :: u != t ==> ThreadOk(s'.core, s'.issued, At(s, u))
    ensures Threads(s')
  {
    hide ThreadOk;
    assert forall u: nat :: At(s', u) == if u == t then pc else At(s, u);
  }

  // A step that leaves the core alone.
  lemma QuietStep(s: Sys, s': Sys, t: nat, pc: Pc)
    requires Inv(s) && Moves(s, s', t, pc) && s'.core == s.core && s.issued <= s'.issued && LocksFollow(s, s', t, pc)
    requires ThreadOk(s.core, s'.issued, pc) && Owns(pc) == Owns(At(s, t))
    requires StoresAs(pc) == StoresAs(At(s, t)) || StoresAs(pc).None? || forall u :: StoresAs(At(s, u)) != StoresAs(pc)
    requires forall id, r :: Dropping(At(s, t), id, r) && id in s.core.cursors && s.core.cursors[id] == r ==>
      Dropping(pc, id, r)
    ensures Inv(s')
  {
    hide Locks, Apart, OpenOk, DropsOk, CoreOk, ThreadOk, Moves, LocksFollow, Dropping, Owns, StoresAs;
    LocksMove(s, s', t, pc);
    ApartMove(s, s', t, pc);
    OpenMove(s, s', t, pc);
    DropsMove(s, s', t, pc);
    forall u: nat | u != t ensures ThreadOk(s'.core, s'.issued, At(s, u)) {
      CellsKeepThread(s.core, s.core, s.issued, s'.issued, At(s, u));
    }
    ThreadsMove(s, s', t, pc);
    IssuedMore(s.core, s.issued, s'.issued);
  }

  lemma IssuedMore(core: Core, issued: set<string>, issued': set<string>)
    requires CoreOk(core, issued) && issued <= issued'
    ensures CoreOk(core, issued')
  {
  }

  // A step that changes one cell r, which no other thread owns.
  lemma CellStep(s: Sys, s': Sys, t: nat, pc: Pc, r: nat, c: Cell)
    requires Inv(s) && Moves(s, s', t, pc) && s'.issued == s.issued && LocksFollow(s, s', t, pc)
    requires s'.core == s.core.(cells := s.core.cells[r := c])
    requires ThreadOk(s'.core, s.issued, pc) && StoresAs(pc).None?
    requires forall u :: u != t ==> Owns(At(s, u)) != Some(r)
    requires Owns(pc) == Some(r) || Owns(pc).None?
    requires Owns(At(s, t)) == Some(r) || Owns(At(s, t)).None?
    requires c.open == (InMap(s.core, r) || Owns(pc) == Some(r))
    requires forall id :: !Dropping(At(s, t), id, r)
    requires forall id :: id in s.core.cursors && s.core.cursors[id] == r && c.invalidated ==>
      Dropping(pc, id, r) || (r in s.core.cells && s.core.cells[r].invalidated)
    requires !WantsMap(At(s, t)) && !HoldsMap(At(s, t))
    ensures Inv(s')
  {
    hide Locks, Apart, OpenOk, DropsOk, ThreadOk, Moves, LocksFollow, Owns, StoresAs;
    LocksMove(s, s', t, pc);
    ApartMove(s, s', t, pc);
    OpenMove(s, s', t, pc);
    DropsMove(s, s', t, pc);
    forall u: nat | u != t ensures ThreadOk(s'.core, s'.issued, At(s, u)) {
      CellsKeepThread(s.core, s'.core, s.issued, s'.issued, At(s, u));
    }
    ThreadsMove(s, s', t, pc);
    assert CoreOk(s'.core, s'.issued);
  }

  // A map holder forgets cursor k, whose state lock is free.
  lemma ForgetStep(s: Sys, s': Sys, t: nat, pc: Pc, k: string, core: Core)
    requires Inv(s) && Moves(s, s', t, pc) && s'.issued == s.issued && LocksFollow(s, s', t, pc)
    requires HoldsMap(At(s, t)) && k in s.core.cursors && s.core.cursors[k] !in s.holder
    requires core == s.core || core == Mark(s.core, s.core.cursors[k])
    requires s'.core == Forget(core, k) && ThreadOk(s'.core, s.issued, pc)
    requires Owns(pc) == Owns(At(s, t)) && (StoresAs(pc) == StoresAs(At(s, t)) || StoresAs(pc).None?)
    requires forall id, r :: Dropping(At(s, t), id, r) ==> id == k
    ensures Inv(s')
  {
    hide Locks, Apart, OpenOk, DropsOk, CoreOk, ThreadOk, Moves, LocksFollow, Owns, StoresAs;
    assert forall u: nat | u != t :: !HoldsMap(At(s, u)) && (At(s, u).Using? ==> At(s, u).s != s.core.cursors[k]) by {
      HoldersElsewhere(s, t, s.core.cursors[k]);
    }
    LocksMove(s, s', t, pc);
    ApartMove(s, s', t, pc);
    ForgetOpen(s.core, s.issued, core, k);
    OpenMove(s, s', t, pc);
    DropsMove(s, s', t, pc) by { ForgetDrops(s.core, s.issued, core, k); }
    MarkCore(s.core, s.issued, s.core.cursors[k]);
    ForgetCore(core, s.issued, k);
    forall u: nat | u != t ensures ThreadOk(s'.core, s'.issued, At(s, u)) {
      MarkKeepsThread(s.core, s.issued, At(s, u), k);
      ForgetKeepsThread(core, s.issued, At(s, u), k);
    }
    ThreadsMove(s, s', t, pc);
  }

  lemma HoldersElsewhere(s: Sys, t: nat, r: nat)
    requires Locks(s) && HoldsMap(At(s, t)) && r !in s.holder
    ensures forall u: nat :: u != t ==> !HoldsMap(At(s, u)) && (At(s, u).Using? ==> At(s, u).s != r)
  {
    hide HoldsMap;
    assert s.mapHolder == Some(t);
    forall u: nat | u != t ensures !HoldsMap(At(s, u)) && (At(s, u).Using? ==> At(s, u).s != r) {
      assert s.mapHolder == Some(u) <==> HoldsMap(At(s, u));
    }
  }

  lemma MarkKeepsThread(core: Core, issued: set<string>, pc: Pc, k: string)
    requires CoreOk(core, issued) && ThreadOk(core, issued, pc) && k in core.cursors
    ensures ThreadOk(Mark(core, core.cursors[k]), issued, pc)
  {
    assert InMap(core, core.cursors[k]);
    CellsKeepThread(core, Mark(core, core.cursors[k]), issued, issued, pc);
  }

  lemma ForgetOpen(core: Core, issued: set<string>, marked: Core, k: string)
    requires CoreOk(core, issued) && k in core.cursors && (marked == core || marked == Mark(core, core.cursors[k]))
    ensures forall r :: r in Forget(marked, k).cells && Forget(marked, k).cells[r].open ==>
      r in core.cells && core.cells[r].open && (InMap(core, r) ==> InMap(Forget(marked, k), r))
  {
    var after := Forget(marked, k);
    forall r | r in after.cells && after.cells[r].open
      ensures r in core.cells && core.cells[r].open && (InMap(core, r) ==> InMap(after, r))
    {
      if InMap(core, r) {
        var id :| id in core.cursors && core.cursors[id] == r;
        assert id in after.cursors;
      }
    }
  }

  lemma ForgetDrops(core: Core, issued: set<string>, marked: Core, k: string)
    requires CoreOk(core, issued) && k in core.cursors && (marked == core || marked == Mark(core, core.cursors[k]))
    ensures forall id :: id in Forget(marked, k).cursors ==>
      && id != k && id in core.cursors && core.cursors[id] == Forget(marked, k).cursors[id]
      && core.cursors[id] in core.cells && Forget(marked, k).cells[core.cursors[id]] == core.cells[core.cursors[id]]
  {
  }

  // A map holder stores its own state under its own id.
  lemma InsertStep(s: Sys, t: nat)
    requires Inv(s) && At(s, t).StoreHold? && |s.core.cursors| < MAX_CURSORS
    ensures Inv(Free(s, t, Stored(s.core, At(s, t).id, At(s, t).r)))
  {
    hide Locks, Apart, OpenOk, DropsOk, CoreOk, ThreadOk, LocksFollow;
    var id, r := At(s, t).id, At(s, t).r;
    var core := Stored(s.core, id, r);
    var s' := Free(s, t, core);
    OwnFacts(s, t);
    FreeFollows(s, t, core);
    LocksMove(s, s', t, Idle);
    ApartMove(s, s', t, Idle);
    InsertOpen(s.core, id, r);
    OpenMove(s, s', t, Idle);
    DropsMove(s, s', t, Idle);
    StoredCore(s.core, s.issued, id, r);
    forall u: nat | u != t ensures ThreadOk(core, s.issued, At(s, u)) {
      OthersApart(s, t, u);
      StoredKeepsThread(s.core, s.issued, At(s, u), id, r);
    }
    IdleOk(core, s.issued);
    ThreadsMove(s, s', t, Idle);
  }

  lemma IdleOk(core: Core, issued: set<string>)
    ensures ThreadOk(core, issued, Idle)
  {
  }

  lemma OwnFacts(s: Sys, t: nat)
    requires Threads(s) && At(s, t).StoreHold?
    ensures var pc := At(s, t);
      && pc.r in s.core.cells && s.core.cells[pc.r].open && !s.core.cells[pc.r].invalidated && !InMap(s.core, pc.r)
      && pc.id in s.issued && pc.id !in s.core.cursors
  {
    assert ThreadOk(s.core, s.issued, At(s, t));
  }

  lemma FreeFollows(s: Sys, t: nat, core: Core)
    requires Locks(s) && HoldsMap(At(s, t))
    ensures LocksFollow(s, Free(s, t, core), t, Idle)
  {
    assert s.mapHolder == Some(t);
  }

  lemma OthersApart(s: Sys, t: nat, u: nat)
    requires Locks(s) && Apart(s) && t != u && HoldsMap(At(s, t))
    ensures !HoldsMap(At(s, u))
    ensures Owns(At(s, t)).Some? ==> Owns(At(s, u)) != Owns(At(s, t))
    ensures StoresAs(At(s, t)).Some? ==> StoresAs(At(s, u)) != StoresAs(At(s, t))
  {
    assert s.mapHolder == Some(t);
    assert s.mapHolder == Some(u) <==> HoldsMap(At(s, u));
  }

  lemma InsertOpen(core: Core, id: string, r: nat)
    requires id !in core.cursors
    ensures forall x :: InMap(core, x) ==> InMap(Stored(core, id, r), x)
    ensures InMap(Stored(core, id, r), r)
  {
    var core' := Stored(core, id, r);
    assert core'.cursors[id] == r;
    forall x | InMap(core, x) ensures InMap(core', x) {
      var k :| k in core.cursors && core.cursors[k] == x;
      assert core'.cursors[k] == x;
    }
  }

  lemma StartStep(s: Sys, e: Event)
    requires Inv(s) && Enabled(s, e)
    requires (e.WantStore? || e.WantLock? || e.WantInvalidate? || e.Keep? || e.Expire? || e.Evict?)
    ensures Inv(Apply(s, e))
  {
    hide Locks, Apart, OpenOk, DropsOk, CoreOk, InMap;
    var s' := Apply(s, e);
    assert ThreadOk(s.core, s.issued, At(s, e.t));
    if e.WantStore? {
      NotPending(s, e.id);
    }
    HolderIs(s, e.t);
    QuietStep(s, s', e.t, At(s', e.t));
  }

  lemma HolderIs(s: Sys, t: nat)
    requires Locks(s)
    ensures HoldsMap(At(s, t)) <==> s.mapHolder == Some(t)
  {
    hide HoldsMap;
  }

  lemma NotPending(s: Sys, id: string)
    requires Inv(s) && id !in s.issued
    ensures (forall u :: StoresAs(At(s, u)) != Some(id)) && id !in s.core.cursors
  {
    forall u ensures StoresAs(At(s, u)) != Some(id) {
      assert ThreadOk(s.core, s.issued, At(s, u));
    }
  }

  lemma NotOwned(s: Sys, r: nat)
    requires Inv(s) && r !in s.core.cells
    ensures (forall u :: Owns(At(s, u)) != Some(r)) && !InMap(s.core, r)
  {
    forall u ensures Owns(At(s, u)) != Some(r) {
      assert ThreadOk(s.core, s.issued, At(s, u));
    }
  }

  lemma OpenStep(s: Sys, e: Event)
    requires Inv(s) && Enabled(s, e) && (e.Open? || e.Abandon?)
    ensures Inv(Apply(s, e))
  {
    hide Locks, Apart, OpenOk, DropsOk, CoreOk;
    var s' := Apply(s, e);
    assert ThreadOk(s.core, s.issued, At(s, e.t));
    HolderIs(s, e.t);
    if e.Open? {
      NotOwned(s, e.r);
      CellStep(s, s', e.t, At(s', e.t), e.r, Cell(true, 1, false));
    } else {
      var r := At(s, e.t).r;
      OwnerAlone(s, e.t);
      CellStep(s, s', e.t, Idle, r, s'.core.cells[r]);
    }
  }

  lemma OwnerAlone(s: Sys, t: nat)
    requires Apart(s)
    ensures Owns(At(s, t)).Some? ==> forall u :: u != t ==> Owns(At(s, u)) != Owns(At(s, t))
  {
  }

  lemma LeaveStep(s: Sys, e: Event)
    requires Inv(s) && Enabled(s, e) && e.Leave?
    ensures Inv(Apply(s, e))
  {
    hide Locks, Apart, OpenOk, DropsOk;
    var s' := Apply(s, e);
    var pc := At(s, e.t);
    assert ThreadOk(s.core, s.issued, pc);
    HolderIs(s, e.t);
    assert InMap(s.core, pc.s);
    StoredNotOwned(s, pc.s);
    CellStep(s, s', e.t, At(s', e.t), pc.s, s'.core.cells[pc.s]);
  }

  lemma StoredNotOwned(s: Sys, r: nat)
    requires Threads(s) && InMap(s.core, r)
    ensures forall u :: Owns(At(s, u)) != Some(r)
  {
    forall u ensures Owns(At(s, u)) != Some(r) {
      assert ThreadOk(s.core, s.issued, At(s, u));
    }
  }

  lemma MapStep(s: Sys, t: nat)
    requires Inv(s) && WantsMap(At(s, t)) && s.mapHolder.None?
    ensures Inv(EnterMap(s, t))
  {
    hide Locks, Apart, OpenOk, DropsOk, CoreOk, InMap;
    var s' := EnterMap(s, t);
    assert ThreadOk(s.core, s.issued, At(s, t));
    QuietStep(s, s', t, At(s', t));
  }

  lemma StateStep(s: Sys, t: nat, expired: bool)
    requires Inv(s) && WantsState(s.core, At(s, t)).Some? && WantsState(s.core, At(s, t)).value !in s.holder
    ensures Inv(EnterState(s, t, expired))
  {
    hide Locks, Apart, OpenOk, DropsOk, CoreOk, InMap, Forget, Mark;
    var s', pc := EnterState(s, t, expired), At(s, t);
    assert ThreadOk(s.core, s.issued, pc);
    HolderIs(s, t);
    IdleOk(s'.core, s'.issued);
    match pc
    case LockHold(id, g, r) =>
      if expired {
        ForgetStep(s, s', t, Idle, id, s.core);
      } else {
        QuietStep(s, s', t, Using(id, g, r));
      }
    case DropHold(id, r) => ForgetStep(s, s', t, Idle, id, Mark(s.core, r));
    case InvHold(id, g, r) =>
      if r in s.core.cells && s.core.cells[r].generation == g {
        ForgetStep(s, s', t, Idle, id, Mark(s.core, r));
      } else {
        QuietStep(s, s', t, Idle);
      }
    case SweepHold(id, r, todo, k) => SweepStep(s, t, todo);
    case EvictHold(id, r, k) => EvictStep(s, t);
  }

  // Sweeping or evicting cursor k, back to the store's loop.
  lemma SweepStep(s: Sys, t: nat, todo: set<string>)
    requires Inv(s) && (At(s, t).SweepHold? || At(s, t).EvictHold?)
    requires At(s, t).k !in todo && todo <= s.core.cursors.Keys
    requires WantsState(s.core, At(s, t)).Some? && WantsState(s.core, At(s, t)).value !in s.holder
    ensures var pc := At(s, t);
      var s' := Go(s.(core := Forget(s.core, pc.k)), t, StoreHold(pc.id, pc.r, todo));
      Inv(s') && |s'.core.cursors| == |s.core.cursors| - 1
  {
    hide Locks, Apart, OpenOk, DropsOk, Threads;
    var pc := At(s, t);
    var s' := Go(s.(core := Forget(s.core, pc.k)), t, StoreHold(pc.id, pc.r, todo));
    StoringOk(s, t, todo);
    HolderIs(s, t);
    ForgetCore(s.core, s.issued, pc.k);
    hide CoreOk, ThreadOk, Forget;
    ForgetStep(s, s', t, StoreHold(pc.id, pc.r, todo), pc.k, s.core);
  }

  lemma StoringOk(s: Sys, t: nat, todo: set<string>)
    requires CoreOk(s.core, s.issued) && Threads(s) && (At(s, t).SweepHold? || At(s, t).EvictHold?)
    requires At(s, t).k !in todo && todo <= s.core.cursors.Keys
    ensures var pc := At(s, t);
      pc.k in s.core.cursors && ThreadOk(Forget(s.core, pc.k), s.issued, StoreHold(pc.id, pc.r, todo))
  {
    var pc := At(s, t);
    assert ThreadOk(s.core, s.issued, pc);
    assert InMap(s.core, s.core.cursors[pc.k]);
  }

  lemma EvictStep(s: Sys, t: nat)
    requires Inv(s) && At(s, t).EvictHold?
    requires WantsState(s.core, At(s, t)).Some? && WantsState(s.core, At(s, t)).value !in s.holder
    ensures Inv(Free(s, t, Stored(Forget(s.core, At(s, t).k), At(s, t).id, At(s, t).r)))
  {
    hide Locks, Apart, OpenOk, DropsOk, Threads, Forget;
    var pc := At(s, t);
    var core := Forget(s.core, pc.k);
    var s1 := Go(s.(core := core), t, StoreHold(pc.id, pc.r, {}));
    SweepStep(s, t, {});
    InsertStep(s1, t);
    assert Free(s1, t, Stored(core, pc.id, pc.r)) == Free(s, t, Stored(core, pc.id, pc.r));
  }

  lemma InvStep(s: Sys, e: Event)
    requires Inv(s) && Enabled(s, e)
    ensures Inv(Apply(s, e))
  {
    hide Inv;
    match e
    case TakeMap(t) => MapStep(s, t);
    case TakeState(t, expired) => StateStep(s, t, expired);
    case Leave(_, _, _) => LeaveStep(s, e);
    case Open(_, _) => OpenStep(s, e);
    case Abandon(_) => OpenStep(s, e);
    case Insert(t) => InsertStep(s, t);
    case _ => StartStep(s, e);
  }

  lemma {:induction false} RunInv(ss: seq<Sys>, es: seq<Event>, i: nat)
    requires Run(ss, es) && i < |ss|
    ensures Inv(ss[i])
  {
    hide Inv, Enabled, Apply;
    if i == 0 {
      InitInv();
    } else {
      RunInv(ss, es, i - 1);
      InvStep(ss[i - 1], es[i - 1]);
    }
  }

  lemma InitInv()
    ensures Inv(Init)
  {
  }

  // ------------------------------------------------------------ theorems

  // At most 256 cursors are stored, and every directory is open exactly while
  // its state is stored or still owned by the call that opened it; a call that
  // continues a cursor works on a stored, open directory.
  lemma DirectoriesAreBounded(ss: seq<Sys>, es: seq<Event>, i: nat, r: nat)
    requires Run(ss, es) && i < |ss| && r in ss[i].core.cells
    ensures |ss[i].core.cursors| <= 256
    ensures ss[i].core.cells[r].open <==> InMap(ss[i].core, r) || Owned(ss[i], r)
    ensures !(InMap(ss[i].core, r) && Owned(ss[i], r))
    ensures forall t :: At(ss[i], t).Using? && At(ss[i], t).s == r ==> InMap(ss[i].core, r)
  {
    hide Run, Locks, Apart, DropsOk;
    var s := ss[i];
    RunInv(ss, es, i);
    if InMap(s.core, r) {
      StoredNotOwned(s, r);
    }
    if Owned(s, r) {
      var t :| Owns(At(s, t)) == Some(r);
      assert ThreadOk(s.core, s.issued, At(s, t));
    }
    forall t | At(s, t).Using? && At(s, t).s == r ensures InMap(s.core, r) {
      assert ThreadOk(s.core, s.issued, At(s, t));
    }
  }

  // When no call is under way, exactly the stored directories are open, and no
  // stored cursor is invalidated.
  lemma QuiescentStore(ss: seq<Sys>, es: seq<Event>, i: nat)
    requires Run(ss, es) && i < |ss| && forall t :: At(ss[i], t).Idle?
    ensures forall r :: r in ss[i].core.cells ==> (ss[i].core.cells[r].open <==> InMap(ss[i].core, r))
    ensures forall id :: id in ss[i].core.cursors ==>
      ss[i].core.cursors[id] in ss[i].core.cells && !ss[i].core.cells[ss[i].core.cursors[id]].invalidated
  {
    hide Run, Locks, Apart;
    RunInv(ss, es, i);
  }

  // The thread that t waits for.
  function Blocker(s: Sys, t: nat): Option<nat> {
    var pc := At(s, t);
    if WantsMap(pc) then s.mapHolder
    else match WantsState(s.core, pc)
      case Some(r) => if r in s.holder then Some(s.holder[r]) else None
      case None => None
  }

  // No set of threads deadlocks: somebody in it waits for nobody in it.
  lemma NoDeadlock(ss: seq<Sys>, es: seq<Event>, i: nat, stuck: set<nat>)
    requires Run(ss, es) && i < |ss| && stuck != {}
    ensures exists t :: t in stuck && (Blocker(ss[i], t).None? || Blocker(ss[i], t).value !in stuck)
  {
    hide Run, Threads, Apart, OpenOk, DropsOk;
    var s := ss[i];
    RunInv(ss, es, i);
    var t :| t in stuck;
    if Blocker(s, t).Some? && Blocker(s, t).value in stuck {
      var u := Blocker(s, t).value;
      BlockerIsAhead(s, t);
      if Blocker(s, u).Some? && Blocker(s, u).value in stuck {
        BlockerIsAhead(s, u);
        assert Blocker(s, Blocker(s, u).value).None?;
      }
    }
  }

  // Whoever blocks the map waits for a state at most; whoever blocks a state runs.
  lemma BlockerIsAhead(s: Sys, t: nat)
    requires Locks(s) && Blocker(s, t).Some?
    ensures var u := Blocker(s, t).value;
      if WantsMap(At(s, t)) then HoldsMap(At(s, u)) else At(s, u).Using? && Blocker(s, u).None?
  {
    assert WantsMap(At(s, t)) ==> s.mapHolder == Some(Blocker(s, t).value);
  }

  // Whoever is not blocked can step.
  lemma UnblockedSteps(ss: seq<Sys>, es: seq<Event>, i: nat, t: nat)
    requires Run(ss, es) && i < |ss| && !At(ss[i], t).Idle? && Blocker(ss[i], t).None?
    ensures exists e: Event :: e.t == t && Enabled(ss[i], e)
  {
    hide Run, Locks, Apart, OpenOk, DropsOk, CoreOk, InMap;
    var s := ss[i];
    RunInv(ss, es, i);
    var pc := At(s, t);
    assert ThreadOk(s.core, s.issued, pc);
    if WantsMap(pc) {
      assert Enabled(s, TakeMap(t));
    } else if pc.Own? {
      assert Enabled(s, Abandon(t));
    } else if pc.Using? {
      assert Enabled(s, Leave(t, false, false));
    } else if pc.StoreHold? {
      StoringSteps(s, t);
    } else {
      assert Enabled(s, TakeState(t, false));
    }
  }

  lemma StoringSteps(s: Sys, t: nat)
    requires At(s, t).StoreHold?
    ensures exists e: Event :: e.t == t && Enabled(s, e)
  {
    if At(s, t).todo != {} {
      var k :| k in At(s, t).todo;
      assert Enabled(s, Keep(t, k));
    } else if |s.core.cursors| < MAX_CURSORS {
      assert Enabled(s, Insert(t));
    } else {
      var k :| k in s.core.cursors;
      assert Enabled(s, Evict(t, k));
    }
  }

  // ------------------------------------------------------------ generations

  predicate Grows(core: Core, core': Core, r: nat) {
    r in core.cells ==> r in core'.cells && core.cells[r].generation <= core'.cells[r].generation
  }

  lemma ForgetGrows(core: Core, k: string, x: nat, r: nat)
    ensures Grows(core, Forget(core, k), r) && Grows(core, Forget(Mark(core, x), k), r)
  {
  }

  lemma GenerationStep(s: Sys, e: Event, r: nat)
    requires Enabled(s, e) && r in s.core.cells
    ensures Grows(s.core, Apply(s, e).core, r)
  {
    if e.TakeState? {
      hide Forget, Mark;
      var pc := At(s, e.t);
      match pc
      case LockHold(id, _, _) => ForgetGrows(s.core, id, r, r);
      case DropHold(id, x) => ForgetGrows(s.core, id, x, r);
      case InvHold(id, _, x) => ForgetGrows(s.core, id, x, r);
      case SweepHold(_, _, _, k) => ForgetGrows(s.core, k, r, r);
      case EvictHold(_, _, k) => ForgetGrows(s.core, k, r, r);
    }
  }

  lemma {:induction false} GenerationsGrow(ss: seq<Sys>, es: seq<Event>, i: nat, j: nat, r: nat)
    requires Run(ss, es) && i <= j < |ss| && r in ss[i].core.cells
    ensures r in ss[j].core.cells && ss[i].core.cells[r].generation <= ss[j].core.cells[r].generation
  {
    hide Enabled, Apply;
    if i < j {
      GenerationsGrow(ss, es, i, j - 1, r);
      GenerationStep(ss[j - 1], es[j - 1], r);
    }
  }

  // The generation of the token a thread presents for state r.
  predicate Presents(pc: Pc, r: nat, g: nat) { (pc.LockHold? || pc.Using? || pc.InvHold?) && pc.s == r && pc.g == g }

  // Taking the state lock finds that the cursor was idle for too long.
  predicate Expires(s: Sys, e: Event) { e.TakeState? && e.expired && At(s, e.t).LockHold? }

  // Once a state has moved past generation g, a token of generation g changes
  // no cursor, neither on its way to the state nor by its continuation or its
  // cancellation; the one exception is the expiry that any lookup performs.
  lemma StaleTokensAreHarmless(ss: seq<Sys>, es: seq<Event>, i: nat, j: nat, r: nat, g: nat)
    requires Run(ss, es) && i <= j < |es| && r in ss[i].core.cells && ss[i].core.cells[r].generation > g
    requires Presents(At(ss[j], es[j].t), r, g)
    ensures ss[j + 1].core ==
            if Expires(ss[j], es[j]) then Forget(ss[j].core, At(ss[j], es[j].t).id) else ss[j].core
  {
    GenerationsGrow(ss, es, i, j, r);
    StaleStep(ss[j], es[j], r, g);
  }

  lemma StaleStep(s: Sys, e: Event, r: nat, g: nat)
    requires Enabled(s, e) && Presents(At(s, e.t), r, g) && r in s.core.cells && s.core.cells[r].generation != g
    ensures Apply(s, e).core == if Expires(s, e) then Forget(s.core, At(s, e.t).id) else s.core
  {
    if e.Leave? {
      assert Finish(s.core, r, false, false).cells == s.core.cells;
    }
  }

  // A token is consumed at most once.
  lemma TokensAreSingleUse(ss: seq<Sys>, es: seq<Event>, i: nat, j: nat, r: nat, g: nat)
    requires Run(ss, es) && i < j < |es|
    requires es[i].Leave? && es[i].advance && Presents(At(ss[i], es[i].t), r, g)
    requires es[j].Leave? && Presents(At(ss[j], es[j].t), r, g)
    ensures !es[j].advance && !es[j].drop
  {
    assert Enabled(ss[i], es[i]) && ss[i + 1] == Apply(ss[i], es[i]);
    GenerationsGrow(ss, es, i + 1, j, r);
    assert Enabled(ss[j], es[j]);
  }

  // ------------------------------------------------------ what each step does

  // A cursor that is gone: not stored, its directory closed.
  lemma Gone(core: Core, id: string)
    requires id in core.cursors && core.cursors[id] in core.cells
    ensures var (r, after) := (core.cursors[id], Forget(core, id));
      && after.cursors == core.cursors - {id} && after.cells.Keys == core.cells.Keys
      && !after.cells[r].open && after.cells[r].generation == core.cells[r].generation
      && after.cells[r].invalidated == core.cells[r].invalidated
      && forall x :: x in core.cells && x != r ==> after.cells[x] == core.cells[x]
  {
  }

  // Under the map lock: a stored cursor is waited for, a missing one ends the
  // call, and a drop only goes after the very state it is for.
  lemma TakingTheMap(ss: seq<Sys>, es: seq<Event>, i: nat)
    requires Run(ss, es) && i < |es| && es[i].TakeMap?
    ensures var (s, s', t, pc) := (ss[i], ss[i + 1], es[i].t, At(ss[i], es[i].t));
      var stored := s.core.cursors;
      && s'.core == s.core && s'.holder == s.holder && s.mapHolder == None
      && s'.mapHolder == (if At(s', t) == Idle then None else Some(t))
      && (pc.LockWait? ==> At(s', t) == if pc.id in stored then LockHold(pc.id, pc.g, stored[pc.id]) else Idle)
      && (pc.InvWait? ==> At(s', t) == if pc.id in stored then InvHold(pc.id, pc.g, stored[pc.id]) else Idle)
      && (pc.DropWait? ==>
            At(s', t) == if pc.id in stored && stored[pc.id] == pc.s then DropHold(pc.id, pc.s) else Idle)
      && (pc.StoreWait? ==> At(s', t) == StoreHold(pc.id, pc.r, stored.Keys))
  {
    StepFacts(ss, es, i);
  }

  // Looking up a cursor: an idle one goes, any other is handed to the caller with
  // its state lock, and the map lock is released either way.
  lemma LookupHandsOver(ss: seq<Sys>, es: seq<Event>, i: nat)
    requires Run(ss, es) && i < |es| && es[i].TakeState? && At(ss[i], es[i].t).LockHold?
    ensures var (s, s', t, pc) := (ss[i], ss[i + 1], es[i].t, At(ss[i], es[i].t));
      && s'.mapHolder == None && pc.id in s.core.cursors && s.core.cursors[pc.id] == pc.s
      && (!es[i].expired ==>
            && s'.core == s.core && At(s', t) == Using(pc.id, pc.g, pc.s)
            && pc.s in s'.holder && s'.holder[pc.s] == t)
      && (es[i].expired ==>
            && s'.core.cursors == s.core.cursors - {pc.id} && pc.s in s'.core.cells && !s'.core.cells[pc.s].open
            && At(s', t) == Idle && s'.holder == s.holder)
  {
    var s := ss[i];
    StepFacts(ss, es, i);
    assert ThreadOk(s.core, s.issued, At(s, es[i].t));
    Gone(s.core, At(s, es[i].t).id);
  }

  // Cancelling: with the current generation the cursor goes, its directory is
  // closed and it is marked; with any other nothing happens.
  lemma CancellationWorks(ss: seq<Sys>, es: seq<Event>, i: nat)
    requires Run(ss, es) && i < |es| && es[i].TakeState? && At(ss[i], es[i].t).InvHold?
    ensures var (s, s', t, pc) := (ss[i], ss[i + 1], es[i].t, At(ss[i], es[i].t));
      && pc.s in s.core.cells && s'.mapHolder == None && At(s', t) == Idle
      && (s.core.cells[pc.s].generation == pc.g ==>
            && s'.core.cursors == s.core.cursors - {pc.id}
            && s'.core.cells == s.core.cells[pc.s := Cell(false, pc.g, true)])
      && (s.core.cells[pc.s].generation != pc.g ==> s'.core == s.core)
  {
    var s := ss[i];
    StepFacts(ss, es, i);
    assert ThreadOk(s.core, s.issued, At(s, es[i].t));
    var pc := At(s, es[i].t);
    assert Mark(s.core, pc.s).cells[pc.s].generation == s.core.cells[pc.s].generation;
  }

  // Dropping: the cursor a caller gave up goes and its directory is closed.
  lemma DroppingWorks(ss: seq<Sys>, es: seq<Event>, i: nat)
    requires Run(ss, es) && i < |es| && es[i].TakeState? && At(ss[i], es[i].t).DropHold?
    ensures var (s, s', t, pc) := (ss[i], ss[i + 1], es[i].t, At(ss[i], es[i].t));
      && pc.s in s.core.cells && s'.mapHolder == None && At(s', t) == Idle
      && s'.core.cursors == s.core.cursors - {pc.id}
      && s'.core.cells == s.core.cells[pc.s := Cell(false, s.core.cells[pc.s].generation, true)]
  {
    var s := ss[i];
    StepFacts(ss, es, i);
    assert ThreadOk(s.core, s.issued, At(s, es[i].t));
  }

  // A continuation ends: its token is consumed or not, the state is given up or
  // not, and its lock is free again.
  lemma ContinuationsEnd(ss: seq<Sys>, es: seq<Event>, i: nat)
    requires Run(ss, es) && i < |es| && es[i].Leave?
    ensures var (s, s', t, pc) := (ss[i], ss[i + 1], es[i].t, At(ss[i], es[i].t));
      && pc.Using? && pc.s in s.core.cells && pc.s !in s'.holder && s'.core.cursors == s.core.cursors
      && var c := s.core.cells[pc.s];
         && s'.core.cells == s.core.cells[pc.s :=
              Cell(true, c.generation + (if es[i].advance then 1 else 0), c.invalidated || es[i].drop)]
         && At(s', t) == (if es[i].drop then DropWait(pc.id, pc.s) else Idle)
         && (es[i].advance || es[i].drop ==> c.generation == pc.g && !c.invalidated)
  {
    var s := ss[i];
    StepFacts(ss, es, i);
    assert ThreadOk(s.core, s.issued, At(s, es[i].t));
  }

  // Storing: the new state is stored under its own id. With room nothing else
  // changes; at 256 cursors exactly one other makes room.
  lemma StoringStores(ss: seq<Sys>, es: seq<Event>, i: nat)
    requires Run(ss, es) && i < |es|
    requires es[i].Insert? || (es[i].TakeState? && At(ss[i], es[i].t).EvictHold?)
    ensures var (s, s', t, pc) := (ss[i], ss[i + 1], es[i].t, At(ss[i], es[i].t));
      && s'.mapHolder == None && At(s', t) == Idle && pc.id !in s.core.cursors
      && (es[i].Insert? ==> |s.core.cursors| < 256 && s'.core.cursors == s.core.cursors[pc.id := pc.r])
      && (es[i].TakeState? ==>
            && |s.core.cursors| == 256 && pc.k in s.core.cursors
            && s'.core.cursors == (s.core.cursors - {pc.k})[pc.id := pc.r]
            && s.core.cursors[pc.k] in s'.core.cells && !s'.core.cells[s.core.cursors[pc.k]].open)
      && pc.r in s'.core.cells && s'.core.cells[pc.r].open
  {
    var s := ss[i];
    StepFacts(ss, es, i);
    assert ThreadOk(s.core, s.issued, At(s, es[i].t));
    EvictsOnlyWhenFull(ss, es, i, es[i].t);
    var pc := At(s, es[i].t);
    if es[i].TakeState? {
      Gone(s.core, pc.k);
      assert InMap(s.core, s.core.cursors[pc.k]);
    }
  }

  lemma StepFacts(ss: seq<Sys>, es: seq<Event>, i: nat)
    requires Run(ss, es) && i < |es|
    ensures Inv(ss[i]) && Enabled(ss[i], es[i]) && ss[i + 1] == Apply(ss[i], es[i])
  {
    hide Inv, Enabled, Apply;
    RunInv(ss, es, i);
  }

  // An eviction is under way only while the store is full.
  lemma {:induction false} EvictsOnlyWhenFull(ss: seq<Sys>, es: seq<Event>, i: nat, t: nat)
    requires Run(ss, es) && i < |ss|
    ensures At(ss[i], t).EvictHold? ==> |ss[i].core.cursors| == 256
  {
    if i > 0 {
      StepFacts(ss, es, i - 1);
      EvictsOnlyWhenFull(ss, es, i - 1, t);
      hide Run;
      FullStep(ss[i - 1], es[i - 1], t);
    }
  }

  lemma FullStep(s: Sys, e: Event, t: nat)
    requires Inv(s) && Enabled(s, e)
    requires At(s, t).EvictHold? ==> |s.core.cursors| == 256
    ensures At(Apply(s, e), t).EvictHold? ==> |Apply(s, e).core.cursors| == 256
  {
    hide Threads, Apart, OpenOk, DropsOk, Forget, Mark, Finish;
    if At(s, t).EvictHold? && e.t != t {
      HolderIs(s, t);
      HolderIs(s, e.t);
      KeepsCursors(s, e);
    }
  }

  // Only a thread that holds the map changes which cursors are stored.
  lemma KeepsCursors(s: Sys, e: Event)
    requires Enabled(s, e) && !HoldsMap(At(s, e.t))
    ensures Apply(s, e).core.cursors == s.core.cursors
  {
    hide Forget, Mark;
  }
}
