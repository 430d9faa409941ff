/**
 * The qBittorrent login single-flight (clients/qbittorrent/client.go).
 *
 * Each region that holds authMu is one atomic function on `Shared`; the system
 * interleaves the calls of any number of goroutines between those regions.  A
 * context may be cancelled at any moment and stays cancelled.
 */
module LoginFlight {
  import opened Common

  datatype Failure = Cancelled | Upstream(status: int)
  type Result = Option<Failure>          // None is Go's nil error

  datatype Credential = Credential(sid: string, generation: nat)

  // The fields that authMu guards; a flight is named by a number.
  datatype Shared = Shared(authenticated: bool, inFlight: Option<nat>, generation: nat, sid: string)

  // What c.authenticate returns: (sid, err, responseComplete).
  datatype Reply = Reply(sid: string, err: Result, complete: bool)

  // The immutable outcome of a finished flight.
  datatype Outcome = Outcome(err: Result, leaderErr: Result, leaderCanceled: bool)

  // usableSIDValue: a value that the Cookie header carries verbatim.
  predicate Usable(sid: string) {
    sid != "" && forall i :: 0 <= i < |sid| ==> '!' <= sid[i] <= '~' && sid[i] !in {'"', ',', ';', '\\'}
  }

  // authenticate reports a nil error only for a complete 200 response with a usable cookie.
  predicate ValidReply(r: Reply) { r.err.None? ==> r.complete && Usable(r.sid) }

  // ------------------------------------------------------- locked regions

  datatype Entry = Already | Lead | Join(flight: nat)

  function Enter(sh: Shared, next: nat): (Shared, Entry) {
    if sh.authenticated then (sh, Already)
    else match sh.inFlight
      case None => (sh.(inFlight := Some(next)), Lead)
      case Some(f) => (sh, Join(f))
  }

  function Finish(sh: Shared, r: Reply, cancelled: bool): (Shared, Outcome) {
    var installed := sh.(authenticated := true, generation := sh.generation + 1, sid := r.sid, inFlight := None);
    var dropped := sh.(inFlight := None);
    if cancelled then
      if r.complete && r.err.None? then (installed, Outcome(None, Some(Cancelled), false))
      else if !r.complete then (dropped, Outcome(Some(Cancelled), Some(Cancelled), true))
      else (dropped, Outcome(r.err, Some(Cancelled), false))
    else if r.err.None? then (installed, Outcome(None, None, false))
    else (dropped, Outcome(r.err, r.err, false))
  }

  function Invalidate(sh: Shared, expected: nat): (Shared, bool) {
    if !sh.authenticated || sh.generation != expected then (sh, false)
    else (sh.(authenticated := false, sid := ""), true)
  }

  function Read(sh: Shared): Option<Credential> {
    if !sh.authenticated || !Usable(sh.sid) then None else Some(Credential(sh.sid, sh.generation))
  }

  // ---------------------------------------------------------------- calls

  // Direct is Client.Login, which enters ensureSession itself.
  datatype Mode = Get | Control(setLocation: bool) | Direct

  // `retry` says whether a rejected request may still log in again.
  datatype Pc =
    | SessionCheck(retry: bool)
    | SessionRead(retry: bool)
    | EnsureCheck(retry: bool)
    | EnsureLock(retry: bool)
    | EnsureOk(retry: bool)
    | Leading(flight: nat, retry: bool)
    | Waiting(flight: nat, retry: bool)
    | Requesting(credential: Credential, retry: bool)
    | Returned(result: Result)

  datatype Call = Call(mode: Mode, pc: Pc, sent: nat)

  datatype Flight = InProgress(leader: nat) | Finished(outcome: Outcome)

  // `installs` and `installedBy` only record history.
  datatype Sys = Sys(sh: Shared, calls: map<nat, Call>, cancelled: set<nat>, flights: map<nat, Flight>,
                     installs: map<nat, string>, installedBy: map<nat, nat>)

  datatype Event =
    | Start(c: nat, mode: Mode)
    | Cancel(c: nat)
    | Check(c: nat)                       // a context check between locked regions
    | ReadSession(c: nat)
    | Lock(c: nat, next: nat)
    | LoginDone(c: nat, reply: Reply)
    | FlightDone(c: nat)                  // <-flight.done
    | WaitCancelled(c: nat)               // <-ctx.Done()
    | Respond(c: nat, status: int, readable: bool)

  predicate Enabled(s: Sys, e: Event) {
    match e
    case Start(c, _) => c !in s.calls
    case Cancel(c) => true
    case Check(c) =>
      c in s.calls && (s.calls[c].pc.SessionCheck? || s.calls[c].pc.EnsureCheck? || s.calls[c].pc.EnsureOk?)
    case ReadSession(c) => c in s.calls && s.calls[c].pc.SessionRead?
    case Lock(c, next) => c in s.calls && s.calls[c].pc.EnsureLock? && next !in s.flights
    case LoginDone(c, reply) => c in s.calls && s.calls[c].pc.Leading? && ValidReply(reply)
    case FlightDone(c) =>
      c in s.calls && s.calls[c].pc.Waiting? && s.calls[c].pc.flight in s.flights &&
      s.flights[s.calls[c].pc.flight].Finished?
    case WaitCancelled(c) => c in s.calls && s.calls[c].pc.Waiting? && c in s.cancelled
    case Respond(c, _, _) => c in s.calls && s.calls[c].pc.Requesting?
  }

  function Goto(s: Sys, c: nat, pc: Pc): Sys
    requires c in s.calls
  {
    s.(calls := s.calls[c := s.calls[c].(pc := pc)])
  }

  // ensureSession returned: an error ends the call, nil goes back to currentSession
  // or, for a direct login, ends it too.
  function AfterEnsure(mode: Mode, r: Result, retry: bool): Pc {
    if r.Some? || mode.Direct? then Returned(r) else SessionCheck(retry)
  }

  function Apply(s: Sys, e: Event): Sys
    requires Enabled(s, e)
  {
    match e
    case Start(c, mode) =>
      s.(calls := s.calls[c := Call(mode, if mode.Direct? then EnsureCheck(false) else SessionCheck(mode.Get?), 0)])
    case Cancel(c) => s.(cancelled := s.cancelled + {c})
    case Check(c) =>
      var pc := s.calls[c].pc;
      Goto(s, c, if c in s.cancelled then Returned(Some(Cancelled))
                 else if pc.SessionCheck? then SessionRead(pc.retry)
                 else if pc.EnsureCheck? then EnsureLock(pc.retry)
                 else AfterEnsure(s.calls[c].mode, None, pc.retry))
    case ReadSession(c) =>
      var retry := s.calls[c].pc.retry;
      Goto(s, c, match Read(s.sh) case Some(cred) => Requesting(cred, retry) case None => EnsureCheck(retry))
    case Lock(c, next) =>
      var retry := s.calls[c].pc.retry;
      var (sh', entry) := Enter(s.sh, next);
      match entry {
        case Already => Goto(s, c, EnsureOk(retry))
        case Join(f) => Goto(s, c, Waiting(f, retry))
        case Lead => Goto(s, c, Leading(next, retry)).(sh := sh', flights := s.flights[next := InProgress(c)])
      }
    case LoginDone(c, reply) =>
      var (f, retry) := (s.calls[c].pc.flight, s.calls[c].pc.retry);
      var (sh', o) := Finish(s.sh, reply, c in s.cancelled);
      var s' := Goto(s, c, if o.leaderErr.Some? then Returned(o.leaderErr) else EnsureOk(retry))
                .(sh := sh', flights := s.flights[f := Finished(o)]);
      if sh'.authenticated then
        s'.(installs := s.installs[sh'.generation := reply.sid], installedBy := s.installedBy[f := sh'.generation])
      else s'
    case FlightDone(c) =>
      var pc := s.calls[c].pc;
      var o := s.flights[pc.flight].outcome;
      Goto(s, c, if c in s.cancelled then Returned(Some(Cancelled))
                 else if o.leaderCanceled then EnsureCheck(pc.retry)
                 else AfterEnsure(s.calls[c].mode, o.err, pc.retry))
    case WaitCancelled(c) => Goto(s, c, Returned(Some(Cancelled)))
    case Respond(c, status, readable) => Receive(s, c, status, readable)
  }

  // getAfterSession and postControl after requestOnce.
  function Receive(s: Sys, c: nat, status: int, readable: bool): Sys
    requires c in s.calls && s.calls[c].pc.Requesting?
  {
    var call := s.calls[c];
    var g := call.pc.credential.generation;
    var sent := s.(calls := s.calls[c := call.(sent := call.sent + 1)]);
    var kicked := sent.(sh := Invalidate(s.sh, g).0);
    var failed := Returned(Some(Upstream(status)));
    if call.mode.Get? && (status == 401 || status == 403) then
      if call.pc.retry then Goto(kicked, c, EnsureCheck(false)) else Goto(sent, c, failed)
    else if call.mode.Control? && (status == 401 || (status == 403 && !call.mode.setLocation)) then
      Goto(kicked, c, failed)
    else Goto(sent, c, if status == 200 && readable then Returned(None) else failed)
  }

  const Init := Sys(Shared(false, None, 0, ""), map[], {}, map[], map[], map[])

  ghost predicate Run(ss: seq<Sys>, es: seq<Event>) {
    && |ss| == |es| + 1 && ss[0] == Init
    && forall i :: 0 <= i < |es| ==> Enabled(ss[i], es[i]) && ss[i + 1] == Apply(ss[i], es[i])
  }

  // ------------------------------------------------------------ invariant

  predicate CallOk(s: Sys, c: nat)
    requires c in s.calls
  {
    var call := s.calls[c];
    match call.pc
    case Leading(f, _) => s.sh.inFlight == Some(f) && f in s.flights && s.flights[f] == InProgress(c)
    case Waiting(f, _) => f in s.flights
    case EnsureOk(_) => s.installs != map[]
    case Requesting(cred, _) =>
      cred.generation in s.installs && s.installs[cred.generation] == cred.sid && Usable(cred.sid)
    case _ => true
  }

  // Requests sent so far against the retry permission left.
  predicate SentOk(call: Call) {
    if call.mode.Direct? then
      call.sent == 0 && !call.pc.SessionCheck? && !call.pc.SessionRead? && !call.pc.Requesting? &&
      (call.pc.Returned? || !call.pc.retry)
    else if call.mode.Get? then
      (if call.pc.Returned? then call.sent <= 2 else if call.pc.retry then call.sent == 0 else call.sent <= 1)
    else
      (if call.pc.Returned? then call.sent <= 1 else call.sent == 0 && !call.pc.retry)
  }

  predicate FlightOk(s: Sys, f: nat)
    requires f in s.flights
  {
    match s.flights[f]
    case InProgress(leader) =>
      f !in s.installedBy && s.sh.inFlight == Some(f) && leader in s.calls &&
      s.calls[leader].pc.Leading? && s.calls[leader].pc.flight == f
    case Finished(o) =>
      && (o.err.None? <==> f in s.installedBy)
      && (f in s.installedBy ==> s.installedBy[f] in s.installs)
      && (o.leaderCanceled ==> o.err == Some(Cancelled) && o.leaderErr == Some(Cancelled))
  }

  ghost predicate Inv(s: Sys) {
    && (forall c :: c in s.calls ==> CallOk(s, c) && SentOk(s.calls[c]))
    && (forall f :: f in s.flights ==> FlightOk(s, f))
    && (s.sh.inFlight.Some? ==> s.sh.inFlight.value in s.flights && s.flights[s.sh.inFlight.value].InProgress?)
    && (s.sh.authenticated ==>
          && s.sh.inFlight.None? && Usable(s.sh.sid)
          && s.sh.generation in s.installs && s.installs[s.sh.generation] == s.sh.sid)
    && (forall g :: g in s.installs ==> 1 <= g <= s.sh.generation)
    && (forall f :: f in s.installedBy ==> f in s.flights)
  }

  lemma CallOfInv(s: Sys, c: nat)
    requires Inv(s) && c in s.calls
    ensures CallOk(s, c) && SentOk(s.calls[c])
  {
  }

  // Moving one call that leads no flight, with the shared fields left alone.
  lemma MoveKeepsInv(s: Sys, c: nat, call: Call)
    requires Inv(s) && (c in s.calls ==> !s.calls[c].pc.Leading?)
    requires !call.pc.Leading? && SentOk(call)
    requires call.pc.Waiting? ==> call.pc.flight in s.flights
    requires call.pc.EnsureOk? ==> s.installs != map[]
    requires call.pc.Requesting? ==> Usable(call.pc.credential.sid)
    requires call.pc.Requesting? ==>
               call.pc.credential.generation in s.installs &&
               s.installs[call.pc.credential.generation] == call.pc.credential.sid
    ensures Inv(s.(calls := s.calls[c := call]))
  {
    hide SentOk, Usable;
    var s' := s.(calls := s.calls[c := call]);
    forall d | d in s'.calls ensures CallOk(s', d) && SentOk(s'.calls[d]) {
      assert d != c ==> CallOk(s, d) && SentOk(s.calls[d]);
    }
    forall f | f in s'.flights ensures FlightOk(s', f) {
      assert FlightOk(s, f);
    }
  }

  // Invalidation touches nothing that a call or a flight relies on.
  lemma KickKeepsInv(s: Sys, g: nat)
    requires Inv(s)
    ensures Inv(s.(sh := Invalidate(s.sh, g).0))
  {
    hide SentOk, Usable;
    var s' := s.(sh := Invalidate(s.sh, g).0);
    forall d | d in s'.calls ensures CallOk(s', d) && SentOk(s'.calls[d]) {
      assert CallOk(s, d) && SentOk(s.calls[d]);
    }
    forall f | f in s'.flights ensures FlightOk(s', f) {
      assert FlightOk(s, f);
    }
  }

  lemma LeadKeepsInv(s: Sys, c: nat, next: nat)
    requires Inv(s) && Enabled(s, Lock(c, next)) && !s.sh.authenticated && s.sh.inFlight.None?
    ensures Inv(Apply(s, Lock(c, next)))
  {
    hide Usable;
    var s' := Apply(s, Lock(c, next));
    assert CallOk(s, c) && SentOk(s.calls[c]);
    forall d | d in s'.calls ensures CallOk(s', d) && SentOk(s'.calls[d]) {
      assert CallOk(s, d) && SentOk(s.calls[d]);
    }
    forall f | f in s'.flights ensures FlightOk(s', f) {
      assert f != next ==> FlightOk(s, f);
    }
  }

  lemma FinishKeepsInv(s: Sys, c: nat, reply: Reply)
    requires Inv(s) && Enabled(s, LoginDone(c, reply))
    ensures Inv(Apply(s, LoginDone(c, reply)))
  {
    hide Usable;
    var s' := Apply(s, LoginDone(c, reply));
    var own := s.calls[c].pc.flight;
    assert CallOk(s, c) && SentOk(s.calls[c]) && FlightOk(s, own);
    assert !s.sh.authenticated;
    forall d | d in s'.calls ensures CallOk(s', d) && SentOk(s'.calls[d]) {
      FinishCallOk(s, c, reply, d);
    }
    forall f | f in s'.flights ensures FlightOk(s', f) {
      FinishFlightOk(s, c, reply, f);
    }
  }

  lemma FinishCallOk(s: Sys, c: nat, reply: Reply, d: nat)
    requires Inv(s) && Enabled(s, LoginDone(c, reply)) && d in s.calls
    ensures CallOk(Apply(s, LoginDone(c, reply)), d) && SentOk(Apply(s, LoginDone(c, reply)).calls[d])
  {
    hide Usable, FlightOk;
    assert CallOk(s, c) && SentOk(s.calls[c]);
    assert CallOk(s, d) && SentOk(s.calls[d]);
    FinishInstalls(s, c, reply);
  }

  lemma FinishInstalls(s: Sys, c: nat, reply: Reply)
    requires Enabled(s, LoginDone(c, reply)) && !s.sh.authenticated
    ensures var s' := Apply(s, LoginDone(c, reply));
      && (s.installs != map[] || reply.err.None? ==> s'.installs != map[])
      && (s'.calls[c].pc.EnsureOk? ==> reply.err.None?)
  {
    hide Usable;
    var s' := Apply(s, LoginDone(c, reply));
    assert reply.err.None? ==> s'.sh.authenticated && s'.sh.generation in s'.installs;
    assert s'.installs == s.installs || s'.sh.generation in s'.installs;
  }

  lemma FinishFlightOk(s: Sys, c: nat, reply: Reply, f: nat)
    requires Inv(s) && Enabled(s, LoginDone(c, reply)) && f in s.flights
    ensures FlightOk(Apply(s, LoginDone(c, reply)), f)
  {
    hide Usable, SentOk;
    assert CallOk(s, c) && FlightOk(s, s.calls[c].pc.flight) && FlightOk(s, f);
  }

  lemma RespondKeepsInv(s: Sys, c: nat, status: int, readable: bool)
    requires Inv(s) && Enabled(s, Respond(c, status, readable))
    ensures Inv(Receive(s, c, status, readable))
  {
    hide Usable, Invalidate, Inv, CallOk, FlightOk;
    var call := s.calls[c];
    var s' := Receive(s, c, status, readable);
    CallOfInv(s, c);
    var moved := s.(calls := s.calls[c := s'.calls[c]]);
    assert moved.calls == s'.calls;
    MoveKeepsInv(s, c, s'.calls[c]);
    if s'.sh != s.sh {
      KickKeepsInv(moved, call.pc.credential.generation);
      assert s' == moved.(sh := Invalidate(s.sh, call.pc.credential.generation).0);
    } else {
      assert s' == moved;
    }
  }

  lemma InvStep(s: Sys, e: Event)
    requires Inv(s) && Enabled(s, e)
    ensures Inv(Apply(s, e))
  {
    hide Usable;
    var s' := Apply(s, e);
    match e
    case Cancel(_) =>
      forall d | d in s'.calls ensures CallOk(s', d) { assert CallOk(s, d); }
      forall f | f in s'.flights ensures FlightOk(s', f) { assert FlightOk(s, f); }
    case LoginDone(c, reply) => FinishKeepsInv(s, c, reply);
    case Respond(c, status, readable) => RespondKeepsInv(s, c, status, readable);
    case Lock(c, next) =>
      if !s.sh.authenticated && s.sh.inFlight.None? {
        LeadKeepsInv(s, c, next);
      } else {
        MoveKeepsInv(s, c, s'.calls[c]);
      }
    case _ => MoveKeepsInv(s, e.c, s'.calls[e.c]);
  }

  lemma {:induction false} RunInv(ss: seq<Sys>, es: seq<Event>, i: nat)
    requires Run(ss, es) && i < |ss|
    ensures Inv(ss[i])
  {
    hide Inv, Enabled, Apply;
    if i == 0 {
      InitInv();
    } else {
      RunInv(ss, es, i - 1);
      InvStep(ss[i - 1], es[i - 1]);
    }
  }

  lemma InitInv()
    ensures Inv(Init)
  {
  }

  // ------------------------------------------------------------- theorems

  // At most one login is in flight, and none while a session is installed.
  lemma SingleFlight(ss: seq<Sys>, es: seq<Event>, i: nat, c: nat, d: nat)
    requires Run(ss, es) && i < |ss| && c in ss[i].calls && ss[i].calls[c].pc.Leading?
    ensures !ss[i].sh.authenticated
    ensures d in ss[i].calls && ss[i].calls[d].pc.Leading? ==> c == d
  {
    hide Run, FlightOk;
    RunInv(ss, es, i);
    assert CallOk(ss[i], c);
    if d in ss[i].calls {
      assert CallOk(ss[i], d);
    }
  }

  // A finished flight has a nil result exactly when it installed a session.
  lemma NilResultIffInstalled(ss: seq<Sys>, es: seq<Event>, i: nat, f: nat)
    requires Run(ss, es) && i < |ss| && f in ss[i].flights && ss[i].flights[f].Finished?
    ensures ss[i].flights[f].outcome.err.None? <==> f in ss[i].installedBy
    ensures f in ss[i].installedBy ==> ss[i].installedBy[f] in ss[i].installs
  {
    hide Run, CallOk;
    RunInv(ss, es, i);
    assert FlightOk(ss[i], f);
  }

  // History never changes: a flight's outcome and an installed pair are final.
  lemma HistoryStep(s: Sys, e: Event)
    requires Inv(s) && Enabled(s, e)
    ensures forall f :: f in s.flights ==> f in Apply(s, e).flights
    ensures forall f :: f in s.flights && s.flights[f].Finished? ==> Apply(s, e).flights[f] == s.flights[f]
    ensures forall g :: g in s.installs ==> g in Apply(s, e).installs && Apply(s, e).installs[g] == s.installs[g]
    ensures forall f :: f in s.installedBy ==>
      f in Apply(s, e).installedBy && Apply(s, e).installedBy[f] == s.installedBy[f]
    ensures s.sh.generation <= Apply(s, e).sh.generation
  {
    hide Usable, SentOk, Inv;
    match e
    case LoginDone(c, reply) => HistoryFinish(s, c, reply);
    case _ =>
  }

  lemma HistoryFinish(s: Sys, c: nat, reply: Reply)
    requires Inv(s) && Enabled(s, LoginDone(c, reply))
    ensures var s' := Apply(s, LoginDone(c, reply));
            && (forall f :: f in s.flights ==> f in s'.flights)
            && (forall f :: f in s.flights && s.flights[f].Finished? ==> s'.flights[f] == s.flights[f])
            && (forall g :: g in s.installs ==> g in s'.installs && s'.installs[g] == s.installs[g])
            && (forall f :: f in s.installedBy ==> f in s'.installedBy && s'.installedBy[f] == s.installedBy[f])
            && s.sh.generation <= s'.sh.generation
  {
    hide Usable, SentOk;
    assert CallOk(s, c) && FlightOk(s, s.calls[c].pc.flight);
  }

  lemma {:induction false} HistoryIsFinal(ss: seq<Sys>, es: seq<Event>, i: nat, j: nat)
    requires Run(ss, es) && i <= j < |ss|
    ensures forall f :: f in ss[i].flights ==> f in ss[j].flights
    ensures forall f :: f in ss[i].flights && ss[i].flights[f].Finished? ==> ss[j].flights[f] == ss[i].flights[f]
    ensures forall g :: g in ss[i].installs ==> g in ss[j].installs && ss[j].installs[g] == ss[i].installs[g]
    ensures ss[i].sh.generation <= ss[j].sh.generation
    decreases j - i
  {
    hide Inv, Enabled, Apply;
    if i < j {
      HistoryIsFinal(ss, es, i, j - 1);
      RunInv(ss, es, j - 1);
      HistoryStep(ss[j - 1], es[j - 1]);
    }
  }

  // Every (SID, generation) pair a caller ever holds is the pair that one login
  // installed, at every later time too.
  lemma CallersHoldInstalledPairs(ss: seq<Sys>, es: seq<Event>, i: nat, j: nat, c: nat)
    requires Run(ss, es) && i <= j < |ss| && c in ss[i].calls && ss[i].calls[c].pc.Requesting?
    ensures var cred := ss[i].calls[c].pc.credential;
            && cred.generation in ss[j].installs && ss[j].installs[cred.generation] == cred.sid
            && cred.sid != "" && forall k :: 0 <= k < |cred.sid| ==>
                 '!' <= cred.sid[k] <= '~' && cred.sid[k] !in {'"', ',', ';', '\\'}
  {
    hide Run;
    RunInv(ss, es, i);
    assert CallOk(ss[i], c);
    HistoryIsFinal(ss, es, i, j);
  }

  // A session ends only through a rejected request that carried that session's
  // own pair; a stale invalidation never clears a later generation.
  lemma OnlyItsOwnHoldersEndASession(ss: seq<Sys>, es: seq<Event>, i: nat)
    requires Run(ss, es) && i < |es| && ss[i].sh.authenticated
    requires ss[i + 1].sh != ss[i].sh
    ensures es[i].Respond? && es[i].status in {401, 403}
    ensures ss[i].calls[es[i].c].pc.credential == Credential(ss[i].sh.sid, ss[i].sh.generation)
    ensures ss[i + 1].sh == ss[i].sh.(authenticated := false, sid := "")
  {
    hide Usable, SentOk;
    RunInv(ss, es, i);
    assert ss[i + 1] == Apply(ss[i], es[i]);
    if es[i].LoginDone? || es[i].Respond? {
      assert CallOk(ss[i], es[i].c);
    }
  }

  // A waiter leaves its flight only with the flight's result, with its own
  // cancellation, or to elect a new leader when the old one was cancelled.
  predicate WaiterLeft(s: Sys, c: nat, f: nat, mode: Mode, retry: bool)
    requires c in s.calls
  {
    var pc := s.calls[c].pc;
    || (pc == Returned(Some(Cancelled)) && c in s.cancelled)
    || (f in s.flights && s.flights[f].Finished? &&
        if s.flights[f].outcome.leaderCanceled then pc == EnsureCheck(retry)
        else match s.flights[f].outcome.err
          case Some(e) => pc == Returned(Some(e))
          case None => pc == if mode.Direct? then Returned(None) else SessionCheck(retry))
  }

  lemma WaiterStep(s: Sys, e: Event, c: nat)
    requires Inv(s) && Enabled(s, e) && c in s.calls && s.calls[c].pc.Waiting?
    ensures c in Apply(s, e).calls
    ensures Apply(s, e).calls[c] == s.calls[c] ||
            WaiterLeft(Apply(s, e), c, s.calls[c].pc.flight, s.calls[c].mode, s.calls[c].pc.retry)
  {
    hide Usable, SentOk, Inv;
  }

  // From the moment it waits, a caller keeps waiting until the state k in which
  // it has left; in between it never leads a login.
  lemma {:induction false} WaitersFollowTheirFlight(ss: seq<Sys>, es: seq<Event>, i: nat, j: nat, c: nat)
    returns (k: nat)
    requires Run(ss, es) && i <= j < |ss| && c in ss[i].calls && ss[i].calls[c].pc.Waiting?
    requires c in ss[j].calls ==> ss[j].calls[c] != ss[i].calls[c]
    ensures i < k <= j && c in ss[k].calls
    ensures forall m :: i <= m < k ==> c in ss[m].calls && ss[m].calls[c] == ss[i].calls[c]
    ensures WaiterLeft(ss[k], c, ss[i].calls[c].pc.flight, ss[i].calls[c].mode, ss[i].calls[c].pc.retry)
    ensures var f, pc := ss[i].calls[c].pc.flight, ss[k].calls[c].pc;
      || (pc == Returned(Some(Cancelled)) && c in ss[k].cancelled)
      || (&& f in ss[k].flights && ss[k].flights[f].Finished?
          && var o := ss[k].flights[f].outcome;
             && (o.leaderCanceled ==> pc == EnsureCheck(ss[i].calls[c].pc.retry))
             && (!o.leaderCanceled && o.err.Some? ==> pc == Returned(Some(o.err.value)))
             && (!o.leaderCanceled && o.err.None? && ss[i].calls[c].mode.Direct? ==> pc == Returned(None))
             && (!o.leaderCanceled && o.err.None? && !ss[i].calls[c].mode.Direct? ==>
                   pc == SessionCheck(ss[i].calls[c].pc.retry)))
    decreases j - i
  {
    hide Inv, Enabled, Apply;
    RunInv(ss, es, i);
    WaiterStep(ss[i], es[i], c);
    if ss[i + 1].calls[c] == ss[i].calls[c] {
      k := WaitersFollowTheirFlight(ss, es, i + 1, j, c);
    } else {
      k := i + 1;
    }
  }

  // A flight its leader did not cancel answers every waiter with its final
  // result or with the waiter's own cancellation.
  lemma UncancelledFlightAnswersItsWaiters(ss: seq<Sys>, es: seq<Event>, i: nat, j: nat, c: nat, f: nat)
    returns (k: nat)
    requires Run(ss, es) && i <= j < |ss| && c in ss[i].calls && ss[i].calls[c].pc.Waiting?
    requires ss[i].calls[c].pc.flight == f
    requires c in ss[j].calls ==> ss[j].calls[c] != ss[i].calls[c]
    requires f in ss[j].flights && ss[j].flights[f].Finished? && !ss[j].flights[f].outcome.leaderCanceled
    ensures i < k <= j && c in ss[k].calls
    ensures forall m :: i <= m < k ==> c in ss[m].calls && ss[m].calls[c].pc.Waiting?
    ensures var err, pc := ss[j].flights[f].outcome.err, ss[k].calls[c].pc;
      || (pc == Returned(Some(Cancelled)) && c in ss[k].cancelled)
      || (&& (err.Some? ==> pc == Returned(Some(err.value)))
          && (err.None? && ss[i].calls[c].mode.Direct? ==> pc == Returned(None))
          && (err.None? && !ss[i].calls[c].mode.Direct? ==> pc == SessionCheck(ss[i].calls[c].pc.retry)))
  {
    hide Run;
    k := WaitersFollowTheirFlight(ss, es, i, j, c);
    HistoryIsFinal(ss, es, k, j);
  }

  // A read makes at most two requests, a control action at most one, and a
  // direct login none beside the login itself.
  lemma RequestsAreBounded(ss: seq<Sys>, es: seq<Event>, i: nat, c: nat)
    requires Run(ss, es) && i < |ss| && c in ss[i].calls
    ensures ss[i].calls[c].sent <= match ss[i].calls[c].mode case Get => 2 case Control(_) => 1 case Direct => 0
  {
    hide Run, FlightOk, CallOk;
    RunInv(ss, es, i);
    assert SentOk(ss[i].calls[c]);
  }

  // ------------------------------------------------------ what each step does

  // A read may retry once, a direct login goes straight to the session.
  lemma CallsStart(ss: seq<Sys>, es: seq<Event>, i: nat)
    requires Run(ss, es) && i < |es| && es[i].Start?
    ensures ss[i + 1].calls.Keys == ss[i].calls.Keys + {es[i].c}
    ensures ss[i + 1].calls[es[i].c] ==
      match es[i].mode
      case Get => Call(Get, SessionCheck(true), 0)
      case Control(moves) => Call(Control(moves), SessionCheck(false), 0)
      case Direct => Call(Direct, EnsureCheck(false), 0)
    ensures ss[i + 1].sh == ss[i].sh
  {
    assert Enabled(ss[i], es[i]) && ss[i + 1] == Apply(ss[i], es[i]);
  }

  // A login that ends well installs its SID under the next generation, whether
  // or not its leader still waits; any other login installs nothing. The flight
  // keeps the reply, or the leader's cancellation when that cut it short.
  lemma LoginInstallsItsReply(ss: seq<Sys>, es: seq<Event>, i: nat)
    requires Run(ss, es) && i < |es| && es[i].LoginDone?
    ensures var (s, s', c, reply) := (ss[i], ss[i + 1], es[i].c, es[i].reply);
      && s'.sh == (if reply.err.None? then Shared(true, None, s.sh.generation + 1, reply.sid)
                   else Shared(s.sh.authenticated, None, s.sh.generation, s.sh.sid))
      && s'.calls[c].pc == (if c in s.cancelled then Returned(Some(Cancelled))
                            else if reply.err.Some? then Returned(Some(reply.err.value))
                            else EnsureOk(s.calls[c].pc.retry))
      && var f := s'.flights[s.calls[c].pc.flight];
         && f.Finished?
         && (f.outcome.leaderCanceled <==> c in s.cancelled && !reply.complete)
         && f.outcome.err == (if f.outcome.leaderCanceled then Some(Cancelled) else reply.err)
         && f.outcome.leaderErr == (if c in s.cancelled then Some(Cancelled) else reply.err)
  {
    hide Usable;
    assert Enabled(ss[i], es[i]) && ss[i + 1] == Apply(ss[i], es[i]);
  }

  // Entering the session: a session at hand is used, a flight under way is
  // joined, and otherwise the caller leads a new one.
  lemma EnteringJoinsOrLeads(ss: seq<Sys>, es: seq<Event>, i: nat)
    requires Run(ss, es) && i < |es| && es[i].Lock?
    ensures var (s, s', c, retry) := (ss[i], ss[i + 1], es[i].c, ss[i].calls[es[i].c].pc.retry);
      if s.sh.authenticated then s'.sh == s.sh && s'.calls[c].pc == EnsureOk(retry)
      else if s.sh.inFlight.Some? then s'.sh == s.sh && s'.calls[c].pc == Waiting(s.sh.inFlight.value, retry)
      else
        && s'.calls[c].pc == Leading(es[i].next, retry)
        && s'.sh == Shared(false, Some(es[i].next), s.sh.generation, s.sh.sid)
        && s'.flights == s.flights[es[i].next := InProgress(c)]
  {
    assert Enabled(ss[i], es[i]) && ss[i + 1] == Apply(ss[i], es[i]);
  }

  // Reading the session: an installed usable pair is carried into the request.
  lemma ReadingTakesThePair(ss: seq<Sys>, es: seq<Event>, i: nat)
    requires Run(ss, es) && i < |es| && es[i].ReadSession?
    ensures var (s, s', c, retry) := (ss[i], ss[i + 1], es[i].c, ss[i].calls[es[i].c].pc.retry);
      && s'.sh == s.sh
      && s'.calls[c].pc == (if s.sh.authenticated then Requesting(Credential(s.sh.sid, s.sh.generation), retry)
                            else EnsureCheck(retry))
  {
    RunInv(ss, es, i);
    assert Enabled(ss[i], es[i]) && ss[i + 1] == Apply(ss[i], es[i]);
  }

  // A response: only a readable 200 is success. A rejected read that may still
  // log in does so once, every other rejection is reported, and a rejection that
  // counts clears exactly the session it was made with.
  lemma ResponsesAreReported(ss: seq<Sys>, es: seq<Event>, i: nat)
    requires Run(ss, es) && i < |es| && es[i].Respond?
    ensures var (s, s', c, status) := (ss[i], ss[i + 1], es[i].c, es[i].status);
      var (mode, pc) := (s.calls[c].mode, s.calls[c].pc);
      var again := mode.Get? && status in {401, 403} && pc.retry;
      var kicks := again || (mode.Control? && (status == 401 || (status == 403 && !mode.setLocation)));
      && s'.calls[c].sent == s.calls[c].sent + 1 && s'.calls[c].mode == mode
      && s'.calls[c].pc == (if again then EnsureCheck(false)
                            else if status == 200 && es[i].readable then Returned(None)
                            else Returned(Some(Upstream(status))))
      && s'.sh == (if kicks && s.sh.authenticated && s.sh.generation == pc.credential.generation
                   then Shared(false, s.sh.inFlight, s.sh.generation, "") else s.sh)
  {
    RunInv(ss, es, i);
    assert SentOk(ss[i].calls[es[i].c]);
    assert Enabled(ss[i], es[i]) && ss[i + 1] == Apply(ss[i], es[i]);
  }

  // A cancelled caller stops at its next check; any other goes on.
  lemma ChecksStopCancelledCallers(ss: seq<Sys>, es: seq<Event>, i: nat)
    requires Run(ss, es) && i < |es| && (es[i].Check? || es[i].WaitCancelled?)
    ensures var (s, s', c) := (ss[i], ss[i + 1], es[i].c);
      var (mode, pc) := (s.calls[c].mode, s.calls[c].pc);
      && s'.sh == s.sh
      && s'.calls[c].pc == (if c in s.cancelled then Returned(Some(Cancelled))
                            else if pc.SessionCheck? then SessionRead(pc.retry)
                            else if pc.EnsureCheck? then EnsureLock(pc.retry)
                            else if mode.Direct? then Returned(None)
                            else SessionCheck(pc.retry))
  {
    assert Enabled(ss[i], es[i]) && ss[i + 1] == Apply(ss[i], es[i]);
  }

  // A read or control action returns nil only for a readable 200 response of
  // its own, and a direct login only once some login has installed a session.
  lemma {:induction false} NilMeansSuccess(ss: seq<Sys>, es: seq<Event>, i: nat, c: nat)
    requires Run(ss, es) && i < |ss| && c in ss[i].calls && ss[i].calls[c].pc == Returned(None)
    ensures if ss[i].calls[c].mode.Direct? then ss[i].installs != map[]
            else exists k :: 0 <= k < i && es[k] == Respond(c, 200, true)
  {
    hide Inv, Enabled, Apply;
    assert i > 0;
    RunInv(ss, es, i - 1);
    var s, e := ss[i - 1], es[i - 1];
    assert Enabled(s, e) && ss[i] == Apply(s, e);
    hide Run;
    if c in s.calls && s.calls[c].pc == Returned(None) {
      CallKeepsMode(s, e, c);
      NilMeansSuccess(ss, es, i - 1, c);
    } else {
      NilStep(s, e, c);
    }
  }

  lemma CallKeepsMode(s: Sys, e: Event, c: nat)
    requires Inv(s) && Enabled(s, e) && c in s.calls
    ensures c in Apply(s, e).calls && Apply(s, e).calls[c].mode == s.calls[c].mode
    ensures s.installs != map[] ==> Apply(s, e).installs != map[]
  {
    hide Usable, SentOk, CallOk, FlightOk;
  }

  lemma NilStep(s: Sys, e: Event, c: nat)
    requires Inv(s) && Enabled(s, e) && !(c in s.calls && s.calls[c].pc == Returned(None))
    requires c in Apply(s, e).calls && Apply(s, e).calls[c].pc == Returned(None)
    ensures if Apply(s, e).calls[c].mode.Direct? then Apply(s, e).installs != map[] else e == Respond(c, 200, true)
  {
    hide Usable, Finish, Invalidate, Inv;
    assert c in s.calls ==> CallOk(s, c) && SentOk(s.calls[c]) by { CallsOfInv(s); }
    if e.FlightDone? {
      AnsweredFlight(s, s.calls[e.c].pc.flight);
    }
  }

  lemma CallsOfInv(s: Sys)
    requires Inv(s)
    ensures forall c :: c in s.calls ==> CallOk(s, c) && SentOk(s.calls[c])
  {
  }

  lemma AnsweredFlight(s: Sys, f: nat)
    requires Inv(s) && f in s.flights && s.flights[f].Finished?
    ensures s.flights[f].outcome.err.None? ==> s.installs != map[]
  {
    hide CallOk, SentOk;
    assert FlightOk(s, f);
  }

  // A caller counts as cancelled exactly from its cancellation on.
  lemma {:induction false} CancellationsStay(ss: seq<Sys>, es: seq<Event>, i: nat, j: nat, c: nat)
    requires Run(ss, es) && i <= j < |ss|
    ensures c in ss[j].cancelled <==> c in ss[i].cancelled || exists k :: i <= k < j && es[k] == Cancel(c)
    decreases j - i
  {
    if i < j {
      CancellationsStay(ss, es, i, j - 1, c);
      assert Enabled(ss[j - 1], es[j - 1]) && ss[j] == Apply(ss[j - 1], es[j - 1]);
      hide Run;
      CancelStep(ss[j - 1], es[j - 1], c);
    }
  }

  lemma CancelStep(s: Sys, e: Event, c: nat)
    requires Enabled(s, e)
    ensures c in Apply(s, e).cancelled <==> c in s.cancelled || e == Cancel(c)
  {
    hide Finish, Enter, Invalidate;
  }

  // ------------------------------------------------------------- no deadlock

  // No caller is stuck: until it returns it has a step of its own, unless it
  // waits for a flight in progress, whose leader has one.
  lemma NoCallerIsStuck(ss: seq<Sys>, es: seq<Event>, i: nat, c: nat, reply: Reply) returns (e: Event)
    requires Run(ss, es) && i < |ss| && c in ss[i].calls && !ss[i].calls[c].pc.Returned? && ValidReply(reply)
    ensures Enabled(ss[i], e) && Enabled(ss[i], Cancel(c))
    ensures match ss[i].calls[c].pc
            case Waiting(f, _) =>
              && f in ss[i].flights
              && (ss[i].flights[f].Finished? ==> e == FlightDone(c))
              && (ss[i].flights[f].InProgress? ==> e == LoginDone(ss[i].flights[f].leader, reply))
            case Leading(_, _) => e == LoginDone(c, reply)
            case SessionRead(_) => e == ReadSession(c)
            case EnsureLock(_) => e.Lock? && e.c == c
            case Requesting(_, _) => e == Respond(c, 200, true)
            case _ => e == Check(c)
  {
    hide Run;
    RunInv(ss, es, i);
    var s := ss[i];
    match s.calls[c].pc
    case Waiting(f, _) =>
      CallOfInv(s, c);
      assert FlightOk(s, f);
      e := if s.flights[f].Finished? then FlightDone(c) else LoginDone(s.flights[f].leader, reply);
    case Leading(_, _) => e := LoginDone(c, reply);
    case SessionRead(_) => e := ReadSession(c);
    case EnsureLock(_) =>
      var next := Unused(s.flights.Keys);
      e := Lock(c, next);
    case Requesting(_, _) => e := Respond(c, 200, true);
    case SessionCheck(_) => e := Check(c);
    case EnsureCheck(_) => e := Check(c);
    case EnsureOk(_) => e := Check(c);
  }

  // Flight numbers never run out.
  lemma {:induction false} Unused(taken: set<nat>) returns (n: nat)
    ensures forall m :: m in taken ==> m < n
    decreases |taken|
  {
    if taken == {} {
      n := 0;
    } else {
      var m :| m in taken;
      var k := Unused(taken - {m});
      n := if m < k then k else m + 1;
      assert forall x :: x in taken ==> x == m || x in taken - {m};
    }
  }
}
