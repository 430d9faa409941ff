/**
 * The client object of clients/qbittorrent/client.go: each method is the code
 * between one authMu.Lock and its Unlock, proved against the region functions
 * that LoginFlight interleaves.
 */
module LoginClient {
  import opened Common
  import opened LoginFlight

  class AuthFlight {
    const id: nat
    var done: bool
    var err: Result
    var leaderErr: Result
    var leaderCanceled: bool

    constructor (id: nat)
      ensures this.id == id && !done && !leaderCanceled
    {
      this.id := id;
      done := false;
      err := None;
      leaderErr := None;
      leaderCanceled := false;
    }
  }

  class Client {
    var authenticated: bool
    var authInFlight: AuthFlight?
    var authGeneration: nat
    var sessionSID: string

    ghost function View(): Shared
      reads this
    {
      Shared(authenticated, if authInFlight == null then None else Some(authInFlight.id), authGeneration, sessionSID)
    }

    constructor ()
      ensures View() == Init.sh
    {
      authenticated := false;
      authInFlight := null;
      authGeneration := 0;
      sessionSID := "";
    }

    // The head of ensureSession's loop: a nil flight means a session is installed.
    method EnterSession(next: nat) returns (flight: AuthFlight?, leads: bool)
      modifies this
      ensures authenticated == old(authenticated) && authGeneration == old(authGeneration)
      ensures sessionSID == old(sessionSID)
      ensures authenticated ==> flight == null && !leads && authInFlight == old(authInFlight)
      ensures !authenticated && old(authInFlight) != null ==>
                flight == authInFlight == old(authInFlight) && !leads
      ensures !authenticated && old(authInFlight) == null ==>
                leads && flight != null && fresh(flight) && authInFlight == flight && flight.id == next && !flight.done
      ensures View() == Enter(old(View()), next).0
      ensures match Enter(old(View()), next).1
              case Already => flight == null && !leads
              case Lead =>
                flight != null && leads && fresh(flight) && flight == authInFlight && flight.id == next && !flight.done
              case Join(f) => flight != null && !leads && flight == old(authInFlight) && flight.id == f
    {
      if authenticated {
        return null, false;
      }
      if authInFlight == null {
        flight := new AuthFlight(next);
        authInFlight := flight;
        return flight, true;
      }
      return authInFlight, false;
    }

    // The leader's second region, after authenticate returned.
    method FinishLogin(flight: AuthFlight, reply: Reply, ctxErr: bool) returns (leaderResult: Result)
      requires flight == authInFlight
      modifies this, flight
      ensures authInFlight == null && flight.done
      ensures if reply.err.None? && (ctxErr ==> reply.complete)
              then authenticated && authGeneration == old(authGeneration) + 1 && sessionSID == reply.sid
              else && authenticated == old(authenticated) && authGeneration == old(authGeneration)
                   && sessionSID == old(sessionSID)
      ensures flight.err == if ctxErr && !reply.complete then Some(Cancelled) else reply.err
      ensures leaderResult == if ctxErr then Some(Cancelled) else reply.err
      ensures View() == Finish(old(View()), reply, ctxErr).0
      ensures var o := Finish(old(View()), reply, ctxErr).1;
              && flight.done && flight.err == o.err && flight.leaderErr == o.leaderErr
              && (flight.leaderCanceled <==> o.leaderCanceled || old(flight.leaderCanceled))
              && leaderResult == o.leaderErr
    {
      var err := reply.err;
      var leaderErr := reply.err;
      if ctxErr {
        leaderErr := Some(Cancelled);
        if reply.complete && err.None? {
          authenticated := true;
          authGeneration := authGeneration + 1;
          sessionSID := reply.sid;
        } else if !reply.complete {
          err := Some(Cancelled);
          flight.leaderCanceled := true;
        }
      } else if err.None? {
        authenticated := true;
        authGeneration := authGeneration + 1;
        sessionSID := reply.sid;
      }
      flight.err := err;
      flight.leaderErr := leaderErr;
      leaderResult := flight.leaderErr;
      authInFlight := null;
      flight.done := true;
    }

    method InvalidateSession(expectedGeneration: nat) returns (cleared: bool)
      modifies this
      ensures cleared <==> old(authenticated) && authGeneration == expectedGeneration
      ensures authGeneration == old(authGeneration) && authInFlight == old(authInFlight)
      ensures cleared ==> !authenticated && sessionSID == ""
      ensures !cleared ==> authenticated == old(authenticated) && sessionSID == old(sessionSID)
      ensures (View(), cleared) == Invalidate(old(View()), expectedGeneration)
      ensures authGeneration > expectedGeneration ==> View() == old(View())
    {
      if !authenticated || authGeneration != expectedGeneration {
        return false;
      }
      authenticated := false;
      sessionSID := "";
      return true;
    }

    method SessionCredential() returns (credential: Option<Credential>)
      ensures credential.Some? <==>
        && authenticated && sessionSID != ""
        && forall i :: 0 <= i < |sessionSID| ==> '!' <= sessionSID[i] <= '~' && sessionSID[i] !in {'"', ',', ';', '\\'}
      ensures credential.Some? ==> credential.value.sid == sessionSID && credential.value.generation == authGeneration
      ensures credential == Read(View())
    {
      if !authenticated || !Usable(sessionSID) {
        return None;
      }
      return Some(Credential(sessionSID, authGeneration));
    }
  }
}
