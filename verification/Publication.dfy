/**
 * Publication of a staged directory and its rollback
 * (internal/backup/backup.go, internal/backup/publish_linux.go).
 *
 * Before every system call an adversary may exchange, create or remove names in
 * the parent directory and change any object's children. The adversary is a
 * fixed but arbitrary function of the history, and so is the failure of system
 * calls; the ghost trace records every change of the world and every check that
 * passed, as one unbroken chain from the initial world to the current one.
 */
module Publication {

  // One parent directory: names to objects, which objects are real directories,
  // and what each object contains.
  datatype World = World(names: map<string, nat>, directories: set<nat>, content: map<nat, string>)

  datatype Entry =
    | Env(before: World, after: World)
    | Own(from: string, to: string, before: World, after: World)
    | SawIdentity(name: string, id: nat, at: World)
    | SawContent(name: string, published: bool, at: World)
    | SawAbsent(name: string, at: World)

  // What surrounds one publication: the adversary, the system calls that work,
  // and the contents that the checks before and after publication accept.
  datatype Setting = Setting(adversary: (seq<Entry>, World) -> World, works: seq<Entry> -> bool,
                             finalCheck: string -> bool, postCheck: string -> bool)

  ghost predicate Reliable(x: Setting) { forall h :: x.works(h) }

  predicate Holds(w: World, name: string, id: nat) {
    name in w.names && w.names[name] == id && id in w.directories
  }

  // renameat2(RENAME_NOREPLACE) inside the parent.
  predicate Relocates(before: World, after: World, from: string, to: string) {
    && from in before.names && to !in before.names
    && after == before.(names := (before.names - {from})[to := before.names[from]])
  }

  predicate Accepted(x: Setting, published: bool, w: World, name: string) {
    && name in w.names && w.names[name] in w.content
    && (if published then x.postCheck else x.finalCheck)(w.content[w.names[name]])
  }

  // ------------------------------------------------------------ the chain

  function Before(e: Entry): World { if e.Env? || e.Own? then e.before else e.at }

  function After(e: Entry): World { if e.Env? || e.Own? then e.after else e.at }

  // What an entry asserts: an adversary's move is the adversary's own, a move
  // of the protocol is a relocation, and a check that passed was right.
  predicate Truthful(x: Setting, history: seq<Entry>, e: Entry) {
    match e
    case Env(before, after) => after == x.adversary(history, before)
    case Own(from, to, before, after) => Relocates(before, after, from, to)
    case SawIdentity(name, id, at) => Holds(at, name, id)
    case SawContent(name, published, at) => Accepted(x, published, at, name)
    case SawAbsent(name, at) => name !in at.names
  }

  // The trace leads from the initial world to w, each entry starting where the
  // one before it ended.
  predicate Chain(x: Setting, start: World, trace: seq<Entry>, w: World) {
    if trace == [] then w == start
    else
      var n := |trace| - 1;
      After(trace[n]) == w && Truthful(x, trace[..n], trace[n]) && Chain(x, start, trace[..n], Before(trace[n]))
  }

  lemma Push(x: Setting, start: World, trace: seq<Entry>, w: World, e: Entry)
    requires Chain(x, start, trace, w) && Before(e) == w && Truthful(x, trace, e)
    ensures Chain(x, start, trace + [e], After(e))
    ensures Marks(trace + [e]) == Marks(trace) + if e.Env? then [] else [MarkOf(e)]
  {
    assert (trace + [e])[..|trace|] == trace;
  }

  // The worlds of a chain join up.
  lemma {:induction false} ChainJoins(x: Setting, start: World, trace: seq<Entry>, w: World, i: nat)
    requires Chain(x, start, trace, w) && i < |trace|
    ensures Truthful(x, trace[..i], trace[i])
    ensures Before(trace[i]) == if i == 0 then start else After(trace[i - 1])
    ensures After(trace[i]) == if i == |trace| - 1 then w else Before(trace[i + 1])
  {
    var n := |trace| - 1;
    if i < n {
      ChainJoins(x, start, trace[..n], Before(trace[n]), i);
      assert trace[..n][..i] == trace[..i];
    } else if n > 0 {
      ChainJoins(x, start, trace[..n], Before(trace[n]), n - 1);
    }
  }

  // Nothing is overwritten, removed or altered: the same objects under as many
  // names, with the same contents.
  predicate KeepsObjects(before: World, after: World) {
    && before.names.Values == after.names.Values && |before.names| == |after.names|
    && before.content == after.content && before.directories == after.directories
  }

  // A relocation keeps every named object, under exactly one changed name, keeps
  // all contents, and is undone by the opposite relocation.
  lemma RelocationKeepsObjects(before: World, after: World, from: string, to: string)
    requires Relocates(before, after, from, to)
    ensures KeepsObjects(before, after)
    ensures forall n :: n in before.names && n != from ==> n in after.names && after.names[n] == before.names[n]
    ensures from !in after.names && after.names[to] == before.names[from]
    ensures Relocates(after, before, to, from)
  {
    forall o | o in before.names.Values ensures o in after.names.Values {
      var n :| n in before.names && before.names[n] == o;
      var m := if n == from then to else n;
      assert m in after.names && after.names[m] == o;
    }
    assert (after.names - {to})[from := after.names[to]] == before.names;
    assert after.names.Keys == before.names.Keys - {from} + {to};
  }

  // What every step that is not the adversary's does to the world.
  predicate Harmless(e: Entry) {
    e.Env? || (KeepsObjects(Before(e), After(e)) && (e.Own? ==> e.to !in e.before.names))
  }

  // Main result: whatever the adversary does, the world goes from its first to
  // its last value through the adversary's own moves and harmless steps only.
  lemma NoOwnStepDestroys(x: Setting, start: World, trace: seq<Entry>, w: World, i: nat)
    requires Chain(x, start, trace, w) && i < |trace|
    ensures Harmless(trace[i])
    ensures !trace[i].Env? ==>
      var (before, after) := (Before(trace[i]), After(trace[i]));
      && after.names.Values == before.names.Values && |after.names| == |before.names|
      && after.content == before.content && after.directories == before.directories
      && (trace[i].Own? ==> trace[i].to !in before.names) && (!trace[i].Own? ==> after == before)
    ensures Before(trace[i]) == if i == 0 then start else After(trace[i - 1])
    ensures After(trace[i]) == if i == |trace| - 1 then w else Before(trace[i + 1])
  {
    ChainJoins(x, start, trace, w, i);
    var e := trace[i];
    if e.Own? {
      RelocationKeepsObjects(e.before, e.after, e.from, e.to);
    }
  }

  // ------------------------------------------------------------ marks

  // An entry without its world.
  datatype Mark = Rename(from: string, to: string) | Identity(name: string, id: nat)
    | Content(name: string, published: bool)
                | Gone(name: string)

  function MarkOf(e: Entry): Mark
    requires !e.Env?
  {
    match e
    case Own(from, to, _, _) => Rename(from, to)
    case SawIdentity(name, id, _) => Identity(name, id)
    case SawContent(name, published, _) => Content(name, published)
    case SawAbsent(name, _) => Gone(name)
  }

  // The protocol's own entries, in order.
  function Marks(trace: seq<Entry>): seq<Mark> {
    if trace == [] then []
    else
      var n := |trace| - 1;
      Marks(trace[..n]) + if trace[n].Env? then [] else [MarkOf(trace[n])]
  }

  lemma {:induction false} MarksGrow(trace: seq<Entry>, p: nat)
    requires p <= |trace|
    ensures Marks(trace[..p]) <= Marks(trace)
  {
    if p < |trace| {
      var n := |trace| - 1;
      MarksGrow(trace[..n], p);
      assert trace[..n][..p] == trace[..p];
    } else {
      assert trace[..p] == trace;
    }
  }

  // Where in the trace the k-th own entry is.
  lemma {:induction false} MarkPosition(trace: seq<Entry>, k: nat) returns (p: nat)
    requires k < |Marks(trace)|
    ensures p < |trace| && !trace[p].Env? && MarkOf(trace[p]) == Marks(trace)[k] && |Marks(trace[..p])| == k
  {
    var n := |trace| - 1;
    if k < |Marks(trace[..n])| {
      p := MarkPosition(trace[..n], k);
      assert trace[..n][..p] == trace[..p];
    } else {
      p := n;
    }
  }

  lemma MarksOrder(trace: seq<Entry>, p: nat, q: nat)
    requires p <= |trace| && q <= |trace| && |Marks(trace[..p])| < |Marks(trace[..q])|
    ensures p < q
  {
    if q <= p {
      assert trace[..p][..q] == trace[..q];
      MarksGrow(trace[..p], q);
    }
  }

  // The adversary changed nothing since entry n.
  predicate CalmSince(trace: seq<Entry>, n: nat) {
    forall i :: n <= i < |trace| && trace[i].Env? ==> trace[i].before == trace[i].after
  }

  // What the renames among the marks make of a world.
  function Play(w: World, marks: seq<Mark>): World {
    if marks == [] then w
    else
      var v := Play(w, marks[..|marks| - 1]);
      match marks[|marks| - 1]
      case Rename(from, to) => if from in v.names && to !in v.names then Moved(v, from, to) else v
      case _ => v
  }

  function Moved(w: World, from: string, to: string): World
    requires from in w.names
  {
    w.(names := (w.names - {from})[to := w.names[from]])
  }

  // The history and the world it has led to.
  datatype Run = Run(trace: seq<Entry>, w: World)

  ghost predicate Genuine(x: Setting, start: World, r: Run) { Chain(x, start, r.trace, r.w) }

  // From run r to run q: the chain goes on, with these marks, and beside a calm
  // adversary the world changes by these renames alone.
  ghost predicate Leads(x: Setting, start: World, r: Run, q: Run, marks: seq<Mark>) {
    && Genuine(x, start, q) && r.trace <= q.trace && Marks(q.trace) == Marks(r.trace) + marks
    && (Calm(r, q) ==> q.w == Play(r.w, marks))
  }

  ghost predicate Earlier(r: Run, q: Run) { r.trace <= q.trace }

  // The adversary changed nothing between r and q.
  ghost predicate Calm(r: Run, q: Run) { CalmSince(q.trace, |r.trace|) }

  lemma LeadsNowhere(x: Setting, start: World, r: Run)
    requires Genuine(x, start, r)
    ensures Leads(x, start, r, r, [])
  {
  }

  function Then(r: Run, e: Entry): Run { Run(r.trace + [e], After(e)) }

  function MarksOf(e: Entry): seq<Mark> { if e.Env? then [] else [MarkOf(e)] }

  // One entry more.
  lemma LeadsOn(x: Setting, start: World, r: Run, q: Run, marks: seq<Mark>, e: Entry)
    requires Leads(x, start, r, q, marks) && Before(e) == q.w && Truthful(x, q.trace, e)
    ensures Leads(x, start, r, Then(q, e), marks + MarksOf(e))
    ensures Calm(r, Then(q, e)) ==> Calm(r, q) && (e.Env? ==> After(e) == q.w)
  {
    hide Truthful, Chain, Play;
    Push(x, start, q.trace, q.w, e);
    PlayOne(x, q.trace, r.w, marks, e);
    CalmSplits(r, q, e);
    assert Marks(r.trace) + (marks + MarksOf(e)) == Marks(r.trace) + marks + MarksOf(e);
  }

  lemma CalmSplits(r: Run, q: Run, e: Entry)
    requires r.trace <= q.trace
    ensures Calm(r, Then(q, e)) ==> Calm(r, q) && (e.Env? ==> e.after == e.before)
  {
    var t := q.trace + [e];
    assert t[|q.trace|] == e && forall i :: 0 <= i < |q.trace| ==> t[i] == q.trace[i];
  }

  lemma PlayOne(x: Setting, history: seq<Entry>, w: World, marks: seq<Mark>, e: Entry)
    requires Truthful(x, history, e)
    ensures Before(e) == Play(w, marks) && (e.Env? ==> e.after == e.before) ==> After(e) == Play(w, marks + MarksOf(e))
  {
    assert e.Env? ==> marks + MarksOf(e) == marks;
    assert !e.Env? ==> (marks + MarksOf(e))[..|marks|] == marks;
  }

  // ------------------------------------------------------------ the protocol

  datatype Result =
    | Published            // a nil error
    | Refused              // nothing was renamed
    | DestinationExists    // nothing was renamed
    | RolledBack           // rejected content was moved back to the stage name
    | Uncertain            // a visible effect is left for reconciliation

  datatype RenameResult = Renamed | Exists | RenameFailed

  // The checks that precede every publication rename.
  function Preflight(stage: string, id: nat): seq<Mark> {
    [Identity(stage, id), Identity(stage, id), Content(stage, false), Identity(stage, id), Identity(stage, id)]
  }

  function FullRollback(stage: string, id: nat, destination: string): seq<Mark> {
    [Identity(destination, id), Gone(stage), Rename(destination, stage), Identity(stage, id), Gone(destination)]
  }

  function PublishedMarks(stage: string, id: nat, destination: string): seq<Mark> {
    Preflight(stage, id) + [Rename(stage, destination), Identity(destination, id), Content(destination, true)]
  }

  function RolledBackMarks(stage: string, id: nat, destination: string): seq<Mark> {
    Preflight(stage, id) + [Rename(stage, destination), Identity(destination, id)]
    + FullRollback(stage, id, destination)
  }

  class Disk {
    const x: Setting
    const start: World
    var run: Run

    constructor (w: World, x: Setting)
      ensures this.x == x && start == w && run == Run([], w) && Genuine(x, start, run)
    {
      this.x, start, run := x, w, Run([], w);
    }

    // The adversary moves. Here and below, `since` is where the caller started
    // and `marks` what it has added so far.
    method Interfere(ghost since: Run, ghost marks: seq<Mark>)
      requires Leads(x, start, since, run, marks)
      modifies this
      ensures Earlier(old(run), run)
      ensures Leads(x, start, since, run, marks)
    {
      var e := Env(run.w, x.adversary(run.trace, run.w));
      LeadsOn(x, start, since, run, marks, e);
      assert marks + [] == marks;
      run := Then(run, e);
    }

    // An entry of the protocol's own: a check that passed, or a rename.
    method Record(e: Entry, ghost since: Run, ghost marks: seq<Mark>)
      requires Leads(x, start, since, run, marks)
      requires !e.Env? && Before(e) == run.w && Truthful(x, run.trace, e)
      modifies this
      ensures Earlier(old(run), run)
      ensures Leads(x, start, since, run, marks + [MarkOf(e)]) && run.w == After(e)
      ensures Calm(since, run) ==> Before(e) == Play(since.w, marks)
    {
      LeadsOn(x, start, since, run, marks, e);
      run := Then(run, e);
    }

    // verifyPathIdentity and verifyPublishedIdentity
    method SameObject(name: string, id: nat, ghost since: Run, ghost marks: seq<Mark>) returns (ok: bool)
      requires Leads(x, start, since, run, marks)
      modifies this
      ensures Earlier(old(run), run)
      ensures Leads(x, start, since, run, if ok then marks + [Identity(name, id)] else marks)
      ensures ok ==> name in run.w.names && run.w.names[name] == id && id in run.w.directories
      ensures (ok ==> Holds(run.w, name, id)) && (Reliable(x) && Holds(run.w, name, id) ==> ok)
    {
      hide Leads;
      Interfere(since, marks);
      ok := Holds(run.w, name, id) && x.works(run.trace);
      if ok {
        Record(SawIdentity(name, id, run.w), since, marks);
      }
    }

    method IsAbsent(name: string, ghost since: Run, ghost marks: seq<Mark>) returns (ok: bool)
      requires Leads(x, start, since, run, marks)
      modifies this
      ensures Earlier(old(run), run)
      ensures Leads(x, start, since, run, if ok then marks + [Gone(name)] else marks)
      ensures (ok ==> name !in run.w.names) && (Reliable(x) && name !in run.w.names ==> ok)
    {
      hide Leads;
      Interfere(since, marks);
      ok := name !in run.w.names && x.works(run.trace);
      if ok {
        Record(SawAbsent(name, run.w), since, marks);
      }
    }

    // finalCheck and postCheck
    method CheckContent(name: string, published: bool, ghost since: Run, ghost marks: seq<Mark>) returns (ok: bool)
      requires Leads(x, start, since, run, marks)
      modifies this
      ensures Earlier(old(run), run)
      ensures Leads(x, start, since, run, if ok then marks + [Content(name, published)] else marks)
      ensures ok ==> name in run.w.names && run.w.names[name] in run.w.content
      ensures ok && published ==> x.postCheck(run.w.content[run.w.names[name]])
      ensures ok && !published ==> x.finalCheck(run.w.content[run.w.names[name]])
      ensures (ok ==> Accepted(x, published, run.w, name)) && (Reliable(x) && Accepted(x, published, run.w, name) ==>
        ok)
    {
      hide Leads;
      Interfere(since, marks);
      ok := Accepted(x, published, run.w, name) && x.works(run.trace);
      if ok {
        Record(SawContent(name, published, run.w), since, marks);
      }
    }

    // Inspecting, opening and syncing the parent may fail.
    method ParentStep(ghost since: Run, ghost marks: seq<Mark>) returns (ok: bool)
      requires Leads(x, start, since, run, marks)
      modifies this
      ensures Earlier(old(run), run)
      ensures Leads(x, start, since, run, marks)
      ensures Reliable(x) ==> ok
    {
      hide Leads;
      Interfere(since, marks);
      ok := x.works(run.trace);
    }

    method RenameNoReplace(from: string, to: string, ghost since: Run, ghost marks: seq<Mark>) returns (r: RenameResult)
      requires Leads(x, start, since, run, marks)
      modifies this
      ensures Earlier(old(run), run)
      ensures Leads(x, start, since, run, if r.Renamed? then marks + [Rename(from, to)] else marks)
      ensures Calm(since, run) ==>
        var was := Play(since.w, marks);
        && (r.Renamed? ==> Relocates(was, run.w, from, to))
        && (r.Exists? ==> to in was.names)
        && (Reliable(x) && from in was.names ==> if to in was.names then r.Exists? else r.Renamed?)
    {
      Interfere(since, marks);
      hide Leads;
      if from !in run.w.names || !x.works(run.trace) {
        return RenameFailed;
      }
      if to in run.w.names {
        return Exists;
      }
      Record(Own(from, to, run.w, Moved(run.w, from, to)), since, marks);
      return Renamed;
    }

    // atomicPublishDirectoryBound
    method AtomicPublish(stage: string, id: nat, destination: string, ghost since: Run, ghost marks: seq<Mark>)
      returns (r: RenameResult, ghost added: seq<Mark>)
      requires Leads(x, start, since, run, marks)
      modifies this
      ensures Earlier(old(run), run)
      ensures Leads(x, start, since, run, marks + added)
      ensures if r.Renamed? then added == [Identity(stage, id), Rename(stage, destination)]
              else added <= [Identity(stage, id)]
      ensures Calm(since, run) ==>
        var was := Play(since.w, marks);
        && (r.Renamed? ==> Relocates(was, run.w, stage, destination))
        && (r.Exists? ==> destination in was.names)
        && (Reliable(x) && Holds(was, stage, id) ==> if destination in was.names then r.Exists? else r.Renamed?)
    {
      added := [];
      var same := SameObject(stage, id, since, marks);
      if !same {
        PlayedOut(x, start, since, run, marks);
        return RenameFailed, added;
      }
      added := [Identity(stage, id)];
      PlayMore(since.w, marks, added);
      var parent := ParentStep(since, marks + added);
      if !parent {
        return RenameFailed, added;
      }
      r := RenameNoReplace(stage, destination, since, marks + added);
      if r.Renamed? {
        assert marks + added + [Rename(stage, destination)]
               == marks + [Identity(stage, id), Rename(stage, destination)];
        added := [Identity(stage, id), Rename(stage, destination)];
      }
    }

    // rollbackPublishedDirectory
    method Rollback(stage: string, id: nat, destination: string, ghost since: Run, ghost marks: seq<Mark>)
      returns (ok: bool, ghost added: seq<Mark>)
      requires Leads(x, start, since, run, marks)
      modifies this
      ensures Earlier(old(run), run)
      ensures Leads(x, start, since, run, marks + added)
      ensures added <= FullRollback(stage, id, destination) && (ok ==> added == FullRollback(stage, id, destination))
      ensures Calm(since, run) ==>
        var was := Play(since.w, marks);
        && (if |added| >= 3 then Relocates(was, run.w, destination, stage) else run.w == was)
        && (Reliable(x) && Holds(was, destination, id) && stage !in was.names ==> ok)
    {
      added := [];
      ok := SameObject(destination, id, since, marks);
      if !ok {
        PlayedOut(x, start, since, run, marks);
        return;
      }
      added := [Identity(destination, id)];
      PlayMore(since.w, marks, added);
      ok := IsAbsent(stage, since, marks + added);
      if !ok {
        return;
      }
      assert marks + added + [Gone(stage)] == marks + [Identity(destination, id), Gone(stage)];
      added := [Identity(destination, id), Gone(stage)];
      PlayMore(since.w, marks, added);
      ok := ParentStep(since, marks + added);
      if !ok {
        return;
      }
      ok, added := MoveBack(stage, id, destination, since, marks, added);
    }

    // The rename of a rollback and the checks behind it.
    method MoveBack(stage: string, id: nat, destination: string, ghost since: Run, ghost marks: seq<Mark>,
      ghost before: seq<Mark>)
      returns (ok: bool, ghost added: seq<Mark>)
      requires before == [Identity(destination, id), Gone(stage)] && Leads(x, start, since, run, marks + before)
      modifies this
      ensures Earlier(old(run), run)
      ensures Leads(x, start, since, run, marks + added)
      ensures before <= added <= FullRollback(stage, id, destination)
      ensures (ok ==> added == FullRollback(stage, id, destination))
      ensures Calm(since, run) ==>
        var was := Play(since.w, marks);
        && (if |added| >= 3 then Relocates(was, run.w, destination, stage) else run.w == was)
        && (Reliable(x) && Holds(was, destination, id) && stage !in was.names ==> ok)
    {
      hide Leads, Play, Calm;
      added := before;
      PlayMore(since.w, marks, before);
      var r := RenameNoReplace(destination, stage, since, marks + before);
      if !r.Renamed? {
        PlayedOut(x, start, since, run, marks + before);
        return false, added;
      }
      ghost var moved, so := run, marks + before + [Rename(destination, stage)];
      ghost var more;
      ok, more := ConfirmBack(stage, id, destination, since, so);
      PlayedOut(x, start, since, moved, so);
      CalmEarlier(since, moved, run);
      added := before + [Rename(destination, stage)] + more;
      assert so + more == marks + added;
    }

    method ConfirmBack(stage: string, id: nat, destination: string, ghost since: Run, ghost marks: seq<Mark>)
      returns (ok: bool, ghost added: seq<Mark>)
      requires Leads(x, start, since, run, marks)
      modifies this
      ensures Earlier(old(run), run)
      ensures Leads(x, start, since, run, marks + added)
      ensures added <= [Identity(stage, id), Gone(destination)] && (ok ==> |added| == 2)
      ensures Calm(since, run) ==>
        var was := Play(since.w, marks);
        && run.w == was && (Reliable(x) && Holds(was, stage, id) && destination !in was.names ==> ok)
    {
      added := [];
      ok := SameObject(stage, id, since, marks);
      if !ok {
        PlayedOut(x, start, since, run, marks);
        return;
      }
      added := [Identity(stage, id)];
      PlayMore(since.w, marks, added);
      ok := IsAbsent(destination, since, marks + added);
      if !ok {
        return;
      }
      assert marks + added + [Gone(destination)] == marks + [Identity(stage, id), Gone(destination)];
      added := [Identity(stage, id), Gone(destination)];
      PlayMore(since.w, marks, added);
      ok := ParentStep(since, marks + added);
    }

    method PreflightChecks(stage: string, id: nat, ghost since: Run) returns (ok: bool, ghost added: seq<Mark>)
      requires Leads(x, start, since, run, [])
      modifies this
      ensures Earlier(old(run), run)
      ensures Leads(x, start, since, run, added)
      ensures if ok then added == Preflight(stage, id)[..4] else added <= Preflight(stage, id)[..4]
      ensures Calm(since, run) ==>
        && run.w == since.w && (ok ==> Accepted(x, false, since.w, stage) && Holds(since.w, stage, id))
        && (Reliable(x) && Holds(since.w, stage, id) && Accepted(x, false, since.w, stage) ==> ok)
    {
      hide Preflight, Leads, Calm, Play, Accepted, Holds;
      var all := Preflight(stage, id);
      PreflightIsStill(stage, id, since.w);
      ok := SameObject(stage, id, since, all[..0]);
      added := if ok then all[..1] else all[..0];
      if ok {
        ok := SameObject(stage, id, since, all[..1]);
        added := if ok then all[..2] else all[..1];
      }
      if ok {
        ok := CheckContent(stage, false, since, all[..2]);
        added := if ok then all[..3] else all[..2];
      }
      PlayedOut(x, start, since, run, added);
      ghost var looked := run;
      if ok {
        ok := SameObject(stage, id, since, all[..3]);
        added := if ok then all[..4] else all[..3];
      }
      PlayedOut(x, start, since, run, added);
      CalmEarlier(since, looked, run);
    }

    // The part of publishDirectoryBoundContext after the rename.
    method CheckPublished(stage: string, id: nat, destination: string, ghost since: Run, ghost marks: seq<Mark>)
      returns (r: Result, ghost added: seq<Mark>)
      requires Leads(x, start, since, run, marks)
      modifies this
      ensures Earlier(old(run), run)
      ensures Leads(x, start, since, run, marks + added)
      ensures match r
              case Published => added == [Identity(destination, id), Content(destination, true)]
              case RolledBack => added == [Identity(destination, id)] + FullRollback(stage, id, destination)
              case Uncertain => CheckPrefix(stage, id, destination, added)
              case _ => false
      ensures Calm(since, run) ==>
        var was := Play(since.w, marks);
        && (if |added| >= 4 then Relocates(was, run.w, destination, stage) else run.w == was)
        && (r.Published? ==> Accepted(x, true, was, destination))
        && (Reliable(x) && Holds(was, destination, id) && stage !in was.names ==>
              r == if Accepted(x, true, was, destination) then Published else RolledBack)
    {
      hide Leads, Play, Calm, Relocates, Accepted, Holds, FullRollback;
      added := [];
      var visible := SameObject(destination, id, since, marks);
      PlayedOut(x, start, since, run, if visible then marks + [Identity(destination, id)] else marks);
      PlayMore(since.w, marks, [Identity(destination, id)]);
      if !visible {
        assert marks + [] == marks;
        return Uncertain, added;
      }
      added := [Identity(destination, id)];
      ghost var so := marks + added;
      var accepted := CheckContent(destination, true, since, so);
      if accepted {
        assert so + [Content(destination, true)] == marks + [Identity(destination, id), Content(destination, true)];
        added := [Identity(destination, id), Content(destination, true)];
        PlayMore(since.w, marks, added);
        ghost var looked := run;
        PlayedOut(x, start, since, run, marks + added);
        var synced := ParentStep(since, marks + added);
        PlayedOut(x, start, since, run, marks + added);
        CalmEarlier(since, looked, run);
        return if synced then Published else Uncertain, added;
      }
      ghost var rejected := run;
      PlayedOut(x, start, since, rejected, so);
      ghost var back;
      var undone;
      undone, back := Rollback(stage, id, destination, since, so);
      CalmEarlier(since, rejected, run);
      assert so + back == marks + ([Identity(destination, id)] + back);
      added := [Identity(destination, id)] + back;
      return if undone then RolledBack else Uncertain, added;
    }

    // publishDirectoryBoundContext
    method Publish(stage: string, id: nat, destination: string) returns (r: Result, ghost added: seq<Mark>)
      requires Genuine(x, start, run)
      modifies this
      ensures Leads(x, start, old(run), run, added)
      ensures forall i :: 0 <= i < |run.trace| ==> Harmless(run.trace[i])
      ensures MarksFit(r, stage, id, destination, added)
      ensures r.Published? ==> PublishedIn(x, old(run), run, stage, id, destination)
      ensures Calm(old(run), run) ==> CalmlyDone(x, old(run).w, run.w, r, added, stage, destination)
      ensures Calm(old(run), run) && Reliable(x) ==> r == Undisturbed(x, old(run).w, stage, id, destination)
      ensures Calm(old(run), run) && Reliable(x) ==>
        var w := old(run).w;
        var staged := && stage in w.names && w.names[stage] == id && id in w.directories
                      && id in w.content && x.finalCheck(w.content[id]);
        && (!staged ==> r.Refused?)
        && (staged && destination in w.names ==> r.DestinationExists?)
        && (staged && destination !in w.names ==> if x.postCheck(w.content[id]) then r.Published? else r.RolledBack?)
      ensures Calm(old(run), run) && r.Published? ==>
        var (w, v) := (old(run).w, run.w);
        && stage in w.names && destination !in w.names
        && v.names == (w.names - {stage})[destination := w.names[stage]]
        && v.content == w.content && v.directories == w.directories
      ensures Calm(old(run), run) && (r.Refused? || r.DestinationExists? || r.RolledBack?) ==> run.w == old(run).w
    {
      r, added := RunPublish(stage, id, destination);
      AllHarmless(x, start, run);
      if r.Published? {
        PublishedMeaning(x, start, old(run), run, stage, id, destination);
      }
    }

    method RunPublish(stage: string, id: nat, destination: string) returns (r: Result, ghost added: seq<Mark>)
      requires Genuine(x, start, run)
      modifies this
      ensures Leads(x, start, old(run), run, added) && MarksFit(r, stage, id, destination, added)
      ensures Calm(old(run), run) ==> CalmlyDone(x, old(run).w, run.w, r, added, stage, destination)
      ensures Calm(old(run), run) && Reliable(x) ==> r == Undisturbed(x, old(run).w, stage, id, destination)
    {
      hide Leads, Play, Calm, Relocates, Accepted, Holds, Genuine;
      ghost var since := run;
      LeadsNowhere(x, start, run);
      var ready;
      ready, added := PreflightChecks(stage, id, since);
      PreflightIsStill(stage, id, since.w);
      if !ready {
        return Refused, added;
      }
      ghost var checked, first := run, Preflight(stage, id)[..4];
      var renamed;
      ghost var more;
      renamed, more := AtomicPublish(stage, id, destination, since, first);
      CalmEarlier(since, checked, run);
      added := first + more;
      if !renamed.Renamed? {
        PlayedOut(x, start, since, run, added);
        ShortMarks(stage, id, more, since.w);
        return if renamed.Exists? then DestinationExists else Refused, added;
      }
      ghost var moved, before := run, added;
      PlayedOut(x, start, since, moved, before);
      r, more := CheckPublished(stage, id, destination, since, before);
      CalmEarlier(since, moved, run);
      added := before + more;
      LongMarks(r, stage, id, destination, first, before, more);
      if Calm(since, run) {
        MovedAndBack(since.w, moved.w, run.w, stage, id, destination);
        BackMark(r, stage, id, destination, before, more);
      }
    }
  }

  // What a calm run leaves: a refusal and a complete rollback nothing, success
  // one relocation, and an uncertain outcome one or the other.
  ghost predicate CalmlyDone(x: Setting, was: World, now: World, r: Result, added: seq<Mark>, stage: string,
    destination: string) {
    match r
    case Published => Relocates(was, now, stage, destination) && Accepted(x, true, now, destination)
    case Uncertain =>
      if Rename(destination, stage) in added then now == was else Relocates(was, now, stage, destination)
    case _ => now == was
  }

  // The outcome when nobody interferes and every system call works.
  function Undisturbed(x: Setting, w: World, stage: string, id: nat, destination: string): Result {
    if !Holds(w, stage, id) || !Accepted(x, false, w, stage) then Refused
    else if destination in w.names then DestinationExists
    else if Accepted(x, true, Moved(w, stage, destination), destination) then Published
    else RolledBack
  }

  predicate MarksFit(r: Result, stage: string, id: nat, destination: string, added: seq<Mark>) {
    match r
    case Published => added == PublishedMarks(stage, id, destination)
    case RolledBack => added == RolledBackMarks(stage, id, destination)
    case Uncertain =>
      && Preflight(stage, id) + [Rename(stage, destination)] <= added
      && (added <= PublishedMarks(stage, id, destination) || added <= RolledBackMarks(stage, id, destination))
    case _ => added <= Preflight(stage, id)
  }

  lemma ShortMarks(stage: string, id: nat, more: seq<Mark>, w: World)
    requires more <= [Identity(stage, id)]
    ensures Preflight(stage, id)[..4] + more <= Preflight(stage, id)
    ensures Play(w, Preflight(stage, id)[..4] + more) == w
  {
    PreflightIsStill(stage, id, w);
    PlayMore(w, Preflight(stage, id)[..4], more);
  }

  lemma LongMarks(r: Result, stage: string, id: nat, destination: string, first: seq<Mark>, before: seq<Mark>,
    more: seq<Mark>)
    requires first == Preflight(stage, id)[..4] && before == first + [Identity(stage, id), Rename(stage, destination)]
    requires match r
             case Published => more == [Identity(destination, id), Content(destination, true)]
             case RolledBack => more == [Identity(destination, id)] + FullRollback(stage, id, destination)
             case Uncertain => CheckPrefix(stage, id, destination, more)
             case _ => false
    ensures before == Preflight(stage, id) + [Rename(stage, destination)]
    ensures MarksFit(r, stage, id, destination, before + more)
  {
    var start := Preflight(stage, id) + [Rename(stage, destination)];
    assert before == start;
    hide Preflight, FullRollback;
    assert start + [Identity(destination, id), Content(destination, true)]
           == Preflight(stage, id)
              + [Rename(stage, destination), Identity(destination, id), Content(destination, true)];
    assert start + ([Identity(destination, id)] + FullRollback(stage, id, destination))
           == Preflight(stage, id) + [Rename(stage, destination), Identity(destination, id)]
              + FullRollback(stage, id, destination);
  }

  // A rollback got as far as its rename exactly when four marks were added.
  lemma BackMark(r: Result, stage: string, id: nat, destination: string, before: seq<Mark>, more: seq<Mark>)
    requires before == Preflight(stage, id) + [Rename(stage, destination)] && stage != destination
    requires more == [Identity(destination, id), Content(destination, true)]
             || CheckPrefix(stage, id, destination, more)
    ensures Rename(destination, stage) in before + more <==> |more| >= 4
  {
    assert Rename(destination, stage) !in before;
    var back := [Identity(destination, id)] + FullRollback(stage, id, destination);
    if |more| >= 4 {
      assert more[3] == back[3] == Rename(destination, stage);
    }
  }

  // There and back again.
  lemma MovedAndBack(was: World, mid: World, now: World, stage: string, id: nat, destination: string)
    requires Relocates(was, mid, stage, destination)
    ensures stage != destination && mid == Moved(was, stage, destination) && stage !in mid.names
    ensures (Holds(was, stage, id) ==> Holds(mid, destination, id))
    ensures Relocates(mid, now, destination, stage) ==> now == was
  {
    RelocationKeepsObjects(was, mid, stage, destination);
  }

  lemma AllHarmless(x: Setting, start: World, r: Run)
    requires Genuine(x, start, r)
    ensures forall i :: 0 <= i < |r.trace| ==> Harmless(r.trace[i])
  {
    forall i | 0 <= i < |r.trace| ensures Harmless(r.trace[i]) {
      NoOwnStepDestroys(x, start, r.trace, r.w, i);
    }
  }

  // Between entries a and b only the adversary moved.
  predicate Alone(trace: seq<Entry>, a: int, b: int) {
    forall p :: 0 <= p < |trace| && a < p < b ==> trace[p].Env?
  }

  ghost predicate PublishedAt(x: Setting, r: Run, q: Run, stage: string, id: nat, destination: string,
    h: int, i: int, j: int, k: int, l: int) {
    && |r.trace| <= h < i < j < k < l < |q.trace|
    && Alone(q.trace, i, j) && Alone(q.trace, j, k) && Alone(q.trace, k, l) && Alone(q.trace, l, |q.trace|)
    && (q.trace[h].SawContent? && var w := q.trace[h].at;
        stage in w.names && w.names[stage] in w.content && x.finalCheck(w.content[w.names[stage]]))
    && (q.trace[i].SawIdentity? && var w := q.trace[i].at;
        stage in w.names && w.names[stage] == id && id in w.directories)
    && (q.trace[j].Own? && var (w, v) := (q.trace[j].before, q.trace[j].after);
        && stage in w.names && destination !in w.names
        && v.names == (w.names - {stage})[destination := w.names[stage]]
        && v.content == w.content && v.directories == w.directories)
    && (q.trace[k].SawIdentity? && var w := q.trace[k].at;
        destination in w.names && w.names[destination] == id && id in w.directories)
    && (q.trace[l].SawContent? && var w := q.trace[l].at;
        destination in w.names && w.names[destination] in w.content && x.postCheck(w.content[w.names[destination]]))
  }

  ghost predicate PublishedIn(x: Setting, r: Run, q: Run, stage: string, id: nat, destination: string) {
    exists h, i, j, k, l :: PublishedAt(x, r, q, stage, id, destination, h, i, j, k, l)
  }

  // A nil error: the staged object's identity was checked, then the rename ran,
  // then the destination was that object, then its content passed the check, and
  // in between only the adversary moved.
  lemma PublishedMeaning(x: Setting, start: World, r: Run, q: Run, stage: string, id: nat, destination: string)
    requires Leads(x, start, r, q, PublishedMarks(stage, id, destination))
    ensures PublishedIn(x, r, q, stage, id, destination)
  {
    hide Chain, Marks, Alone, PublishedMarks;
    var n := |Marks(r.trace)|;
    LastMarks(Marks(r.trace), Marks(q.trace), stage, id, destination);
    var h := TrueMark(x, start, q, n + 2);
    var i := TrueMark(x, start, q, n + 4);
    var j := TrueMark(x, start, q, n + 5);
    var k := TrueMark(x, start, q, n + 6);
    var l := TrueMark(x, start, q, n + 7);
    hide Leads;
    MarksOrder(q.trace, h, i);
    NextMark(q.trace, i, j);
    NextMark(q.trace, j, k);
    NextMark(q.trace, k, l);
    LastMark(q.trace, l);
    assert q.trace[..|r.trace|] == r.trace;
    AfterPrefix(q.trace, |r.trace|, h);
    assert PublishedAt(x, r, q, stage, id, destination, h, i, j, k, l);
  }

  lemma LastMarks(before: seq<Mark>, all: seq<Mark>, stage: string, id: nat, destination: string)
    requires all == before + PublishedMarks(stage, id, destination)
    ensures var n := |before|;
      && |all| == n + 8 && all[n + 2] == Content(stage, false) && all[n + 4] == Identity(stage, id)
      && all[n + 5] == Rename(stage, destination)
      && all[n + 6] == Identity(destination, id) && all[n + 7] == Content(destination, true)
  {
  }

  lemma TrueMark(x: Setting, start: World, q: Run, k: nat) returns (p: nat)
    requires Genuine(x, start, q) && k < |Marks(q.trace)|
    ensures p < |q.trace| && !q.trace[p].Env? && MarkOf(q.trace[p]) == Marks(q.trace)[k] && |Marks(q.trace[..p])| == k
    ensures Truthful(x, q.trace[..p], q.trace[p])
  {
    p := MarkPosition(q.trace, k);
    ChainJoins(x, start, q.trace, q.w, p);
  }

  lemma StepMarks(trace: seq<Entry>, p: nat)
    requires p < |trace| && !trace[p].Env?
    ensures |Marks(trace[..p + 1])| == |Marks(trace[..p])| + 1
  {
    assert trace[..p + 1][..p] == trace[..p];
  }

  lemma NextMark(trace: seq<Entry>, i: nat, j: nat)
    requires i < |trace| && j < |trace| && !trace[i].Env? && |Marks(trace[..j])| == |Marks(trace[..i])| + 1
    ensures i < j && Alone(trace, i, j)
  {
    MarksOrder(trace, i, j);
    StepMarks(trace, i);
    forall p | i < p < j ensures trace[p].Env? {
      if !trace[p].Env? {
        StepMarks(trace, p);
        MarksMonotone(trace, i + 1, p);
        MarksMonotone(trace, p + 1, j);
      }
    }
  }

  lemma LastMark(trace: seq<Entry>, l: nat)
    requires l < |trace| && !trace[l].Env? && |Marks(trace)| == |Marks(trace[..l])| + 1
    ensures Alone(trace, l, |trace|)
  {
    StepMarks(trace, l);
    assert trace[..|trace|] == trace;
    forall p | l < p < |trace| ensures trace[p].Env? {
      if !trace[p].Env? {
        StepMarks(trace, p);
        MarksMonotone(trace, l + 1, p);
        MarksMonotone(trace, p + 1, |trace|);
      }
    }
  }

  lemma MarksMonotone(trace: seq<Entry>, a: nat, b: nat)
    requires a <= b <= |trace|
    ensures |Marks(trace[..a])| <= |Marks(trace[..b])|
  {
    assert trace[..b][..a] == trace[..a];
    MarksGrow(trace[..b], a);
  }

  lemma AfterPrefix(trace: seq<Entry>, n: nat, i: nat)
    requires n <= |trace| && i < |trace| && !trace[i].Env? && |Marks(trace[..n])| <= |Marks(trace[..i])|
    ensures n <= i
  {
    if i < n {
      StepMarks(trace, i);
      MarksMonotone(trace, i + 1, n);
    }
  }

  // Steps of the check after the rename, up to some point.
  predicate CheckPrefix(stage: string, id: nat, destination: string, added: seq<Mark>) {
    || added <= [Identity(destination, id), Content(destination, true)]
    || added <= [Identity(destination, id)] + FullRollback(stage, id, destination)
  }

  lemma PreflightIsStill(stage: string, id: nat, w: World)
    ensures var all := Preflight(stage, id);
      && |all| == 5 && all[..0] == [] && all[..0] + [Identity(stage, id)] == all[..1]
      && all[..1] + [Identity(stage, id)] == all[..2]
      && all[..2] + [Content(stage, false)] == all[..3] && all[..3] + [Identity(stage, id)] == all[..4]
    ensures forall n :: 0 <= n <= 4 ==> Play(w, Preflight(stage, id)[..n]) == w
  {
    PlayStill(w, Preflight(stage, id));
    hide Play;
    PreflightParts(stage, id);
  }

  lemma PreflightParts(stage: string, id: nat)
    ensures var all := Preflight(stage, id);
      && |all| == 5 && all[..0] == [] && all[..0] + [Identity(stage, id)] == all[..1]
      && all[..1] + [Identity(stage, id)] == all[..2]
      && all[..2] + [Content(stage, false)] == all[..3] && all[..3] + [Identity(stage, id)] == all[..4]
  {
    var all := Preflight(stage, id);
    NextSlice(all, 0);
    NextSlice(all, 1);
    NextSlice(all, 2);
    NextSlice(all, 3);
  }

  lemma NextSlice(marks: seq<Mark>, n: nat)
    requires n < |marks|
    ensures marks[..n] + [marks[n]] == marks[..n + 1]
  {
  }

  // Checks alone leave a calm world as it was, however many of them were made.
  lemma PlayStill(w: World, marks: seq<Mark>)
    requires forall i :: 0 <= i < |marks| ==> !marks[i].Rename?
    ensures forall n :: 0 <= n <= |marks| ==> Play(w, marks[..n]) == w
  {
    hide Play;
    forall n | 0 <= n <= |marks| ensures Play(w, marks[..n]) == w {
      PlayMore(w, [], marks[..n]);
      PlayNone(w);
      assert [] + marks[..n] == marks[..n];
    }
  }

  lemma PlayNone(w: World)
    ensures Play(w, []) == w
  {
  }

  lemma CalmEarlier(r: Run, mid: Run, q: Run)
    requires Earlier(mid, q)
    ensures Calm(r, q) ==> Calm(r, mid)
  {
    assert forall i :: 0 <= i < |mid.trace| ==> mid.trace[i] == q.trace[i];
  }

  lemma PlayedOut(x: Setting, start: World, r: Run, q: Run, marks: seq<Mark>)
    requires Leads(x, start, r, q, marks)
    ensures Calm(r, q) ==> q.w == Play(r.w, marks)
    ensures marks + [] == marks
  {
  }

  // Checks play no part in what the renames do.
  lemma {:induction false} PlayMore(w: World, marks: seq<Mark>, more: seq<Mark>)
    requires forall i :: 0 <= i < |more| ==> !more[i].Rename?
    ensures Play(w, marks + more) == Play(w, marks)
  {
    if more == [] {
      assert marks + more == marks;
    } else {
      var n := |more| - 1;
      PlayMore(w, marks, more[..n]);
      assert (marks + more)[..|marks| + n] == marks + more[..n];
    }
  }
}
