/**
 * Observation and reconciliation of filesystem actions
 * (internal/actions/filesystem.go, internal/actions/actions.go), reading through
 * internal/filesystem/observe/observe.go.
 */
module FilesystemReconcile {
  import opened Common

  datatype Target = Target(root: string, path: string)

  datatype EntryType = RegularFile | Directory | Subtitle | Companion

  // An object on disk. A directory is observed as one; any other object's type
  // follows from the name it is read under. The digest is the reported one or
  // the hash, None when hashing fails.
  datatype Info = Info(directory: bool, size: int, identity: string, digest: Option<string>)

  // Targets outside `entries` are missing; reading one in `unreadable` fails.
  datatype Disk = Disk(entries: map<Target, Info>, unreadable: set<Target>)

  // An approved concrete mapping: the manifest of the source and a destination.
  datatype Approved = Approved(source: Target, kind: EntryType, size: int, digest: string, identity: string,
                               destination: Target)

  datatype Action = Copy | Hardlink | Move | Rename | Restore

  predicate CopyLike(a: Action) { a.Copy? || a.Hardlink? }

  datatype EffectState = Pending | AlreadySatisfied

  datatype Observation = Failure | Satisfied(effects: seq<EffectState>) | NeedsAction(effects: seq<EffectState>)
    | Unknown

  datatype Reconciled = Error | Applied | SafeToRetry | Unresolved

  // ------------------------------------------------------- texts and types

  function Lower(c: char): char { if 'A' <= c <= 'Z' then c - 'A' + 'a' else c }

  function LowerText(s: string): (r: string)
    ensures |r| == |s|
  {
    seq(|s|, i requires 0 <= i < |s| => Lower(s[i]))
  }

  const SHA_PREFIX := "sha256:"

  // strings.TrimPrefix(d, "sha256:") compared with strings.EqualFold
  function Bare(d: string): string { LowerText(if SHA_PREFIX <= d then d[|SHA_PREFIX|..] else d) }

  predicate SameDigest(a: string, b: string) { Bare(a) == Bare(b) }

  const UPPER := "ABCDEFGHIJKLMNOPQRSTUVWXYZ"
  const LOWER := "abcdefghijklmnopqrstuvwxyz"

  predicate TwoCases(x: char, y: char, n: nat) {
    n < 26 && ((x == UPPER[n] && y == LOWER[n]) || (x == LOWER[n] && y == UPPER[n]))
  }

  // The same character, or the two cases of one letter.
  ghost predicate SameLetter(x: char, y: char) { x == y || exists n :: TwoCases(x, y, n) }

  lemma LettersFold(x: char, y: char)
    ensures Lower(x) == Lower(y) <==> SameLetter(x, y)
  {
    LettersInOrder();
    hide LOWER, UPPER, TwoCases;
    if Lower(x) == Lower(y) && x != y {
      TwoCasesFound(x, y);
    }
    if x != y && SameLetter(x, y) {
      var n :| TwoCases(x, y, n);
      TwoCasesFold(x, y, n);
    }
  }

  lemma TwoCasesFound(x: char, y: char)
    requires Lower(x) == Lower(y) && x != y
    ensures TwoCases(x, y, (Lower(x) - 'a') as nat)
  {
    LettersInOrder();
  }

  lemma TwoCasesFold(x: char, y: char, n: nat)
    requires TwoCases(x, y, n)
    ensures Lower(x) == Lower(y)
  {
    LettersInOrder();
  }

  lemma LettersInOrder()
    ensures forall n :: 0 <= n < 26 ==> UPPER[n] as int == 'A' as int + n && LOWER[n] as int == 'a' as int + n
  {
  }

  // Digests are compared without one prefix and letter by letter without case.
  lemma DigestsCompare(a: string, b: string)
    requires !("sha256:" <= a) && !("sha256:" <= b)
    ensures SameDigest(a, b) <==> |a| == |b| && forall i :: 0 <= i < |a| ==> SameLetter(a[i], b[i])
    ensures SameDigest("sha256:" + a, b) <==> SameDigest(a, b)
  {
    hide SameLetter, Lower;
    forall i | 0 <= i < |a| && i < |b| ensures Lower(a[i]) == Lower(b[i]) <==> SameLetter(a[i], b[i]) {
      LettersFold(a[i], b[i]);
    }
    LowerEqual(a, b);
    assert ("sha256:" + a)[|SHA_PREFIX|..] == a;
  }

  lemma LowerEqual(a: string, b: string)
    ensures LowerText(a) == LowerText(b) <==> |a| == |b| && forall i :: 0 <= i < |a| ==> Lower(a[i]) == Lower(b[i])
  {
    hide Lower;
    if LowerText(a) == LowerText(b) {
      forall i | 0 <= i < |a| ensures Lower(a[i]) == Lower(b[i]) {
        assert LowerText(a)[i] == LowerText(b)[i];
      }
    }
  }

  // path.Ext
  function Ext(path: string): string {
    if path == "" then ""
    else
      var n := |path| - 1;
      if path[n] == '/' then "" else if path[n] == '.' then "." else
        var e := Ext(path[..n]);
        if e == "" then "" else e + [path[n]]
  }

  const SUBTITLES := {".srt", ".ass", ".ssa", ".vtt", ".idx", ".sub", ".sup"}

  // What follows the last dot of the last component.
  lemma {:induction false} ExtOf(stem: string, name: string)
    requires '.' !in name && '/' !in name
    ensures Ext(stem + "." + name) == "." + name
  {
    var path := stem + "." + name;
    var n := |path| - 1;
    if name == "" {
      assert path[n] == '.' && path == stem + ".";
    } else {
      var m := |name| - 1;
      assert path[..n] == stem + "." + name[..m] && path[n] == name[m];
      ExtOf(stem, name[..m]);
      assert "." + name[..m] + [name[m]] == "." + name;
    }
  }

  // isSubtitle
  predicate IsSubtitle(path: string) { LowerText(Ext(path)) in SUBTITLES }

  // The type under which a read reports an object.
  function KindAt(o: Info, t: Target): EntryType {
    if o.directory then Directory else if IsSubtitle(t.path) then Subtitle else RegularFile
  }

  // ---------------------------------------------------- one mapping, by meaning

  // verifySourceDigest, which trims both digests.
  predicate SourceDigestOk(o: Info, m: Approved) {
    || Blank(m.digest) || m.kind.Directory?
    || (o.digest.Some? && SameDigest(TrimSpace(o.digest.value), TrimSpace(m.digest)))
  }

  // The source is the approved object with approved content.
  predicate SourceExact(d: Disk, m: Approved) {
    && m.source in d.entries
    && var s := d.entries[m.source];
    && KindAt(s, m.source) == m.kind && s.size == m.size && s.identity != "" && s.identity == m.identity
    && SourceDigestOk(s, m)
  }

  // The destination is what the action would have produced; a copy's digest is
  // compared untrimmed.
  predicate ProducedBy(a: Action, m: Approved, t: Info) {
    && KindAt(t, m.destination) == m.kind && t.identity != ""
    && match a
       case Copy => m.kind != Directory && t.size == m.size && t.digest.Some? && SameDigest(t.digest.value, m.digest)
       case Hardlink => t.identity == m.identity
       case _ => t.identity == m.identity && t.size == m.size
  }

  predicate DestinationSame(d: Disk, a: Action, m: Approved) {
    m.destination in d.entries && ProducedBy(a, m, d.entries[m.destination])
  }

  predicate Readable(d: Disk, m: Approved) { m.source !in d.unreadable && m.destination !in d.unreadable }

  predicate IsPending(d: Disk, m: Approved) {
    Readable(d, m) && SourceExact(d, m) && m.destination !in d.entries
  }

  predicate IsSatisfied(d: Disk, a: Action, m: Approved) {
    && Readable(d, m) && DestinationSame(d, a, m)
    && (m.source !in d.entries || (CopyLike(a) && SourceExact(d, m)))
  }

  // ----------------------------------------------------------- the observe loops

  datatype Match = MatchError | Matched | Different

  // destinationMatches
  method DestinationMatches(a: Action, m: Approved, t: Info) returns (r: Match)
    ensures r.Matched? <==> ProducedBy(a, m, t)
  {
    if t.identity == "" {
      return MatchError;
    }
    if KindAt(t, m.destination) != m.kind {
      return Different;
    }
    if a.Copy? {
      if m.kind.Directory? || t.digest.None? {
        return MatchError;
      }
      return if SameDigest(t.digest.value, m.digest) && t.size == m.size then Matched else Different;
    }
    if a.Hardlink? {
      return if m.identity != "" && m.identity == t.identity then Matched else Different;
    }
    if m.identity == "" || t.identity != m.identity || t.size != m.size {
      return Different;
    }
    return Matched;
  }

  // The body of observeMappings' loop; None stands for an error return.
  method ObserveMapping(d: Disk, a: Action, m: Approved) returns (r: Option<EffectState>)
    ensures r == Some(Pending) <==> IsPending(d, m)
    ensures r == Some(AlreadySatisfied) <==> IsSatisfied(d, a, m)
  {
    if m.source in d.unreadable {
      return None;
    }
    var sourcePresent := m.source in d.entries;
    if sourcePresent {
      var s := d.entries[m.source];
      if KindAt(s, m.source) != m.kind || s.size != m.size || s.identity == "" || s.identity != m.identity {
        return None;
      }
      if !Blank(m.digest) && !m.kind.Directory? {
        if s.digest.None? || !SameDigest(TrimSpace(s.digest.value), TrimSpace(m.digest)) {
          return None;
        }
      }
    }
    if m.destination in d.unreadable {
      return None;
    }
    if m.destination in d.entries {
      var matched := DestinationMatches(a, m, d.entries[m.destination]);
      if matched.Matched? && ((sourcePresent && CopyLike(a)) || !sourcePresent) {
        return Some(AlreadySatisfied);
      }
      return None;
    }
    return if sourcePresent then Some(Pending) else None;
  }

  method ObserveMappings(d: Disk, a: Action, ms: seq<Approved>) returns (o: Observation)
    ensures o.Failure? <==> exists i :: 0 <= i < |ms| && !IsPending(d, ms[i]) && !IsSatisfied(d, a, ms[i])
    ensures o.Satisfied? <==> forall i :: 0 <= i < |ms| ==> IsSatisfied(d, a, ms[i])
    ensures o.Satisfied? || o.NeedsAction? ==>
              && |o.effects| == |ms|
              && forall i :: 0 <= i < |ms| ==>
                if o.effects[i].Pending? then IsPending(d, ms[i]) else IsSatisfied(d, a, ms[i])
    ensures !o.Unknown?
  {
    hide IsPending, IsSatisfied;
    var effects: seq<EffectState> := [];
    var allSatisfied := true;
    for i := 0 to |ms|
      invariant |effects| == i
      invariant forall j :: 0 <= j < i ==> if effects[j].Pending? then IsPending(d, ms[j]) else IsSatisfied(d, a, ms[j])
      invariant allSatisfied <==> forall j :: 0 <= j < i ==> effects[j].AlreadySatisfied?
    {
      var state := ObserveMapping(d, a, ms[i]);
      if state.None? {
        return Failure;
      }
      allSatisfied := allSatisfied && state.value.AlreadySatisfied?;
      effects := effects + [state.value];
    }
    PendingExcludesSatisfied(d, a, ms);
    return if allSatisfied then Satisfied(effects) else NeedsAction(effects);
  }

  lemma PendingExcludesSatisfied(d: Disk, a: Action, ms: seq<Approved>)
    ensures forall i :: 0 <= i < |ms| ==> !(IsPending(d, ms[i]) && IsSatisfied(d, a, ms[i]))
  {
  }

  // effectsAreSafeToRetry
  method EffectsAreSafeToRetry(effects: seq<EffectState>) returns (safe: bool)
    ensures safe <==> effects != [] && forall i :: 0 <= i < |effects| ==> effects[i].Pending?
  {
    if |effects| == 0 {
      return false;
    }
    for i := 0 to |effects|
      invariant forall j :: 0 <= j < i ==> effects[j].Pending?
    {
      if !effects[i].Pending? {
        return false;
      }
    }
    return true;
  }

  method ReconcileObservation(o: Observation) returns (r: Reconciled)
    ensures r.Error? <==> o.Failure?
    ensures r.Applied? <==> o.Satisfied?
    ensures r.SafeToRetry? <==> o.NeedsAction? && o.effects != [] && forall i :: 0 <= i < |o.effects| ==>
      o.effects[i].Pending?
  {
    match o
    case Failure => return Error;
    case Satisfied(_) => return Applied;
    case NeedsAction(effects) =>
      var safe := EffectsAreSafeToRetry(effects);
      return if safe then SafeToRetry else Unresolved;
    case Unknown => return Unresolved;
  }

  // ------------------------------------------- Reconcile, on every disk at all

  ghost function Verdict(d: Disk, a: Action, ms: seq<Approved>): Reconciled {
    if exists i :: 0 <= i < |ms| && !IsPending(d, ms[i]) && !IsSatisfied(d, a, ms[i]) then Error
    else if forall i :: 0 <= i < |ms| ==> IsSatisfied(d, a, ms[i]) then Applied
    else if forall i :: 0 <= i < |ms| ==> IsPending(d, ms[i]) then SafeToRetry
    else Unresolved
  }

  // For every disk: a retry is authorised exactly when every source is intact and
  // every destination absent; applied is reported exactly when every mapping is.
  method Reconcile(d: Disk, a: Action, ms: seq<Approved>) returns (r: Reconciled)
    ensures r == Verdict(d, a, ms)
    ensures r.SafeToRetry? ==> forall i :: 0 <= i < |ms| ==>
      && ms[i].source in d.entries && ms[i].destination !in d.entries
      && d.entries[ms[i].source].size == ms[i].size && d.entries[ms[i].source].identity == ms[i].identity != ""
    ensures r.Applied? ==> forall i :: 0 <= i < |ms| ==>
      && ms[i].destination in d.entries && d.entries[ms[i].destination].identity != ""
      && (!a.Copy? ==> d.entries[ms[i].destination].identity == ms[i].identity)
      && (!a.Hardlink? ==> d.entries[ms[i].destination].size == ms[i].size)
      && (a.Move? || a.Rename? || a.Restore? ==> ms[i].source !in d.entries)
    ensures ms != [] && r.Unresolved? ==> exists i, j ::
      && 0 <= i < |ms| && 0 <= j < |ms| && ms[i].destination in d.entries && ms[j].destination !in d.entries
  {
    hide IsPending, IsSatisfied;
    var o := ObserveMappings(d, a, ms);
    r := ReconcileObservation(o);
    PendingExcludesSatisfied(d, a, ms);
    VerdictMeans(d, a, ms);
  }

  lemma VerdictMeans(d: Disk, a: Action, ms: seq<Approved>)
    ensures (exists i :: 0 <= i < |ms| && (ms[i].source in d.unreadable || ms[i].destination in d.unreadable)) ==>
      Verdict(d, a, ms).Error?
    ensures Verdict(d, a, ms).SafeToRetry? ==> forall i :: 0 <= i < |ms| ==>
      && ms[i].source in d.entries && ms[i].destination !in d.entries
      && d.entries[ms[i].source].size == ms[i].size && d.entries[ms[i].source].identity == ms[i].identity != ""
    ensures Verdict(d, a, ms).Applied? ==> forall i :: 0 <= i < |ms| ==>
      && ms[i].destination in d.entries && d.entries[ms[i].destination].identity != ""
      && (!a.Copy? ==> d.entries[ms[i].destination].identity == ms[i].identity)
      && (!a.Hardlink? ==> d.entries[ms[i].destination].size == ms[i].size)
      && (a.Move? || a.Rename? || a.Restore? ==> ms[i].source !in d.entries)
    ensures ms != [] && Verdict(d, a, ms).Unresolved? ==> exists i, j ::
      && 0 <= i < |ms| && 0 <= j < |ms| && ms[i].destination in d.entries && ms[j].destination !in d.entries
  {
    hide SourceDigestOk, KindAt, SameDigest;
    if Verdict(d, a, ms).Unresolved? {
      var i :| 0 <= i < |ms| && !IsPending(d, ms[i]);
      var j :| 0 <= j < |ms| && !IsSatisfied(d, a, ms[j]);
      assert IsSatisfied(d, a, ms[i]) && IsPending(d, ms[j]);
    }
  }

  // --------------------------------------------- partially applied batches

  // One mapping takes effect; a copy gets some new nonempty identity.
  function Effect(d: Disk, a: Action, m: Approved, copyIdentity: string): Disk
    requires m.source in d.entries
  {
    var s := d.entries[m.source];
    match a
    case Copy => d.(entries := d.entries[m.destination := s.(identity := copyIdentity)])
    case Hardlink => d.(entries := d.entries[m.destination := s])
    case _ => d.(entries := (d.entries - {m.source})[m.destination := s])
  }

  // strongDigest
  predicate StrongDigest(digest: string) {
    var t := LowerText(TrimSpace(digest));
    var hex := if SHA_PREFIX <= t then t[|SHA_PREFIX|..] else t;
    |hex| == 64 && IsHex(hex)
  }

  // What Hash returns.
  predicate HashText(digest: string) {
    SHA_PREFIX <= digest && |digest| == |SHA_PREFIX| + 64 && IsHex(digest[|SHA_PREFIX|..])
  }

  // The expanded batch a caller may submit, and the disk it starts from.
  ghost predicate Fresh(d: Disk, a: Action, ms: seq<Approved>) {
    && ms != [] && d.unreadable == {}
    && (forall t :: t in d.entries && d.entries[t].digest.Some? ==> HashText(d.entries[t].digest.value))
    && (forall i :: 0 <= i < |ms| ==>
         SourceExact(d, ms[i]) && ms[i].destination !in d.entries && ms[i].kind != Directory)
    && (forall i, j :: 0 <= i < j < |ms| ==> ms[i].source != ms[j].source && ms[i].destination != ms[j].destination)
    && (a.Copy? ==> forall i :: 0 <= i < |ms| ==> StrongDigest(ms[i].digest))
  }

  // What a caller can check before the batch: the destination's name has the
  // source's type, and a copy's digest reads the same with and without the
  // white space around it.
  predicate Recoverable(a: Action, m: Approved) {
    && IsSubtitle(m.source.path) == IsSubtitle(m.destination.path)
    && (a.Copy? ==> SameDigest(TrimSpace(m.digest), m.digest))
  }

  // The disk after the mappings listed in `done` took effect, in that order.
  ghost predicate PartOf(d0: Disk, a: Action, ms: seq<Approved>, done: seq<nat>, d: Disk)
    decreases |done|
  {
    if done == [] then d == d0
    else
      var last := done[|done| - 1];
      last < |ms| && last !in done[..|done| - 1] &&
      exists before: Disk, identity: string ::
        PartOf(d0, a, ms, done[..|done| - 1], before) && identity != "" &&
        ms[last].source in before.entries && d == Effect(before, a, ms[last], identity)
  }

  // One mapping that took effect.
  predicate ShowsDone(d: Disk, a: Action, m: Approved) {
    !IsPending(d, m) && (IsSatisfied(d, a, m) <==> Recoverable(a, m))
  }

  // What each mapping sees after part of the batch.
  lemma {:induction false} PartialStates(d0: Disk, a: Action, ms: seq<Approved>, done: seq<nat>, d: Disk, i: nat)
    requires Fresh(d0, a, ms) && PartOf(d0, a, ms, done, d) && i < |ms|
    ensures if i in done then ShowsDone(d, a, ms[i])
            else IsPending(d, ms[i]) && d.entries[ms[i].source] == d0.entries[ms[i].source]
    decreases |done|
  {
    hide IsPending, IsSatisfied, ShowsDone, Recoverable, Effect, Fresh;
    if done != [] {
      var rest, last := done[..|done| - 1], done[|done| - 1];
      assert done == rest + [last];
      var before, identity := LastEffect(d0, a, ms, done, d);
      hide PartOf;
      PartialStates(d0, a, ms, rest, before, i);
      PartialStates(d0, a, ms, rest, before, last);
      if i == last {
        OwnEffect(d0, a, ms, before, identity, last);
      } else {
        OtherEffect(d0, a, ms, before, identity, last, i);
        SameShows(before, d, a, ms[i]);
      }
    } else {
      NothingDone(d0, a, ms, i);
    }
  }

  lemma LastEffect(d0: Disk, a: Action, ms: seq<Approved>, done: seq<nat>, d: Disk)
    returns (before: Disk, identity: string)
    requires PartOf(d0, a, ms, done, d) && done != []
    ensures var last := done[|done| - 1];
      && last < |ms| && last !in done[..|done| - 1] && PartOf(d0, a, ms, done[..|done| - 1], before)
      && identity != "" && ms[last].source in before.entries && d == Effect(before, a, ms[last], identity)
  {
    hide Effect;
    var last := done[|done| - 1];
    before, identity :|
      PartOf(d0, a, ms, done[..|done| - 1], before) && identity != "" &&
      ms[last].source in before.entries && d == Effect(before, a, ms[last], identity);
  }

  lemma SameShows(before: Disk, d: Disk, a: Action, m: Approved)
    requires IsPending(d, m) <==> IsPending(before, m)
    requires IsSatisfied(d, a, m) <==> IsSatisfied(before, a, m)
    ensures ShowsDone(d, a, m) <==> ShowsDone(before, a, m)
    ensures IsPending(before, m) ==> m.source in before.entries
  {
    hide Recoverable;
  }

  lemma NothingDone(d0: Disk, a: Action, ms: seq<Approved>, i: nat)
    requires Fresh(d0, a, ms) && i < |ms|
    ensures IsPending(d0, ms[i])
  {
  }

  lemma OwnEffect(d0: Disk, a: Action, ms: seq<Approved>, before: Disk, identity: string, i: nat)
    requires Fresh(d0, a, ms) && i < |ms| && identity != ""
    requires IsPending(before, ms[i]) && before.entries[ms[i].source] == d0.entries[ms[i].source]
    ensures ShowsDone(Effect(before, a, ms[i], identity), a, ms[i])
  {
    hide IsSubtitle, SameDigest, TrimSpace, StrongDigest, IsHex;
    if a.Copy? {
      CopyDigest(d0.entries[ms[i].source], ms[i]);
    }
  }

  // A source that passed its check has the digest a copy is compared with
  // exactly when trimming the approved digest makes no difference.
  lemma CopyDigest(o: Info, m: Approved)
    requires SourceDigestOk(o, m) && StrongDigest(m.digest) && m.kind != Directory
    requires o.digest.Some? ==> HashText(o.digest.value)
    ensures o.digest.Some? && (SameDigest(o.digest.value, m.digest) <==> SameDigest(TrimSpace(m.digest), m.digest))
  {
    BlankIsNotStrong(m.digest);
    HashIsTrimmed(o.digest.value);
  }

  lemma {:induction false} BlankTrims(s: string)
    requires Blank(s)
    ensures TrimSpace(s) == ""
    decreases |s|
  {
    if s != "" {
      BlankTrims(s[1..]);
    }
  }

  lemma BlankIsNotStrong(digest: string)
    ensures Blank(digest) ==> !StrongDigest(digest)
  {
    if Blank(digest) {
      BlankTrims(digest);
      assert LowerText(TrimSpace(digest)) == "";
    }
  }

  lemma HashIsTrimmed(digest: string)
    requires HashText(digest)
    ensures TrimSpace(digest) == digest
  {
    assert digest[0] == SHA_PREFIX[0] == 's';
    var hex := digest[|SHA_PREFIX|..];
    assert IsHexDigit(hex[63]) && digest[|digest| - 1] == hex[63];
  }

  lemma OtherEffect(d0: Disk, a: Action, ms: seq<Approved>, before: Disk, identity: string, last: nat, i: nat)
    requires Fresh(d0, a, ms) && last < |ms| && i < |ms| && i != last
    requires ms[last].source in before.entries
    ensures var d := Effect(before, a, ms[last], identity);
      && (IsPending(d, ms[i]) <==> IsPending(before, ms[i])) && (IsSatisfied(d, a, ms[i])
        <==> IsSatisfied(before, a, ms[i]))
      && (ms[i].source in before.entries ==>
        ms[i].source in d.entries && d.entries[ms[i].source] == before.entries[ms[i].source])
  {
    hide ProducedBy, SourceDigestOk, KindAt, StrongDigest, HashText;
    var d := Effect(before, a, ms[last], identity);
    Elsewhere(d0, a, ms, last, i);
    assert ms[i].source in d.entries <==> ms[i].source in before.entries;
    assert ms[i].destination in d.entries <==> ms[i].destination in before.entries;
  }

  lemma Elsewhere(d0: Disk, a: Action, ms: seq<Approved>, j: nat, i: nat)
    requires Fresh(d0, a, ms) && j < |ms| && i < |ms| && i != j
    ensures ms[i].source != ms[j].source && ms[i].destination != ms[j].destination
    ensures ms[i].source != ms[j].destination && ms[i].destination != ms[j].source
  {
    hide SourceDigestOk, KindAt, StrongDigest, HashText;
    if i < j {
      assert ms[i].source != ms[j].source;
    } else {
      assert ms[j].source != ms[i].source;
    }
    assert SourceExact(d0, ms[i]) && SourceExact(d0, ms[j]);
  }

  // What reconciliation ought to say after part of a batch.
  function Wanted(ms: seq<Approved>, done: seq<nat>): Reconciled {
    if done == [] then SafeToRetry
    else if forall i :: 0 <= i < |ms| ==> i in done then Applied
    else Unresolved
  }

  ghost predicate Listed(ms: seq<Approved>, done: seq<nat>) { forall k :: 0 <= k < |done| ==> done[k] < |ms| }

  lemma {:induction false} PartIsListed(d0: Disk, a: Action, ms: seq<Approved>, done: seq<nat>, d: Disk)
    requires PartOf(d0, a, ms, done, d)
    ensures Listed(ms, done)
    decreases |done|
  {
    if done != [] {
      var before, identity :|
        PartOf(d0, a, ms, done[..|done| - 1], before) && identity != "" &&
        ms[done[|done| - 1]].source in before.entries && d == Effect(before, a, ms[done[|done| - 1]], identity);
      PartIsListed(d0, a, ms, done[..|done| - 1], before);
    }
  }

  // Exactly what reconciliation says after any part of a batch: what it ought
  // to, unless a mapping that cannot be recognised has taken effect.
  lemma VerdictAfterCrash(d0: Disk, a: Action, ms: seq<Approved>, done: seq<nat>, d: Disk)
    requires Fresh(d0, a, ms) && PartOf(d0, a, ms, done, d)
    ensures Verdict(d, a, ms) == if forall i :: 0 <= i < |ms| && i in done ==>
      Recoverable(a, ms[i]) then Wanted(ms, done) else Error
  {
    PartView(d0, a, ms, done, d);
    PartIsListed(d0, a, ms, done, d);
    assert ms != [];
    hide Fresh, PartOf;
    ViewDecides(d, a, ms, done);
  }

  ghost predicate Views(d: Disk, a: Action, ms: seq<Approved>, done: seq<nat>) {
    forall i :: 0 <= i < |ms| ==> if i in done then ShowsDone(d, a, ms[i]) else IsPending(d, ms[i])
  }

  lemma PartView(d0: Disk, a: Action, ms: seq<Approved>, done: seq<nat>, d: Disk)
    requires Fresh(d0, a, ms) && PartOf(d0, a, ms, done, d)
    ensures Views(d, a, ms, done)
  {
    hide IsPending, ShowsDone, Fresh, PartOf;
    forall i | 0 <= i < |ms| ensures if i in done then ShowsDone(d, a, ms[i]) else IsPending(d, ms[i]) {
      PartialStates(d0, a, ms, done, d, i);
    }
  }

  lemma ViewDecides(d: Disk, a: Action, ms: seq<Approved>, done: seq<nat>)
    requires ms != [] && Views(d, a, ms, done) && Listed(ms, done)
    ensures Verdict(d, a, ms) == if forall i :: 0 <= i < |ms| && i in done ==>
      Recoverable(a, ms[i]) then Wanted(ms, done) else Error
  {
    PendingExcludesSatisfied(d, a, ms);
    hide IsPending, IsSatisfied, Recoverable;
    if done != [] {
      assert done[0] in done && done[0] < |ms| && ShowsDone(d, a, ms[done[0]]);
    } else {
      assert 0 !in done && IsPending(d, ms[0]);
    }
  }

  // Main theorem: reconciliation says retry exactly when nothing was applied,
  // applied exactly when everything was, and unresolved for every strict part,
  // after every part of the batch, if and only if every mapping is recoverable.
  lemma ReconcileAfterCrash(d0: Disk, a: Action, ms: seq<Approved>)
    requires Fresh(d0, a, ms)
    ensures (forall done, d :: PartOf(d0, a, ms, done, d) ==>
               && (Verdict(d, a, ms).SafeToRetry? <==> done == [])
               && (Verdict(d, a, ms).Applied? <==> forall i :: 0 <= i < |ms| ==> i in done)
               && (Verdict(d, a, ms).Unresolved? <==> done != [] && exists i :: 0 <= i < |ms| && i !in done))
            <==> forall i :: 0 <= i < |ms| ==>
                   && IsSubtitle(ms[i].source.path) == IsSubtitle(ms[i].destination.path)
                   && (a.Copy? ==> Bare(TrimSpace(ms[i].digest)) == Bare(ms[i].digest))
  {
    hide Fresh, Recoverable, Verdict, PartOf;
    RecoverableMeans(a, ms);
    FreshNonempty(d0, a, ms);
    if forall i :: 0 <= i < |ms| ==> Recoverable(a, ms[i]) {
      forall done, d | PartOf(d0, a, ms, done, d)
        ensures Verdict(d, a, ms).SafeToRetry? <==> done == []
        ensures Verdict(d, a, ms).Applied? <==> forall i :: 0 <= i < |ms| ==> i in done
        ensures Verdict(d, a, ms).Unresolved? <==> done != [] && exists i :: 0 <= i < |ms| && i !in done
      {
        VerdictAfterCrash(d0, a, ms, done, d);
        WantedSplits(ms, done);
      }
    } else {
      var i :| 0 <= i < |ms| && !Recoverable(a, ms[i]);
      var d := Unrecognised(d0, a, ms, i);
      WantedSplits(ms, [i]);
      assert PartOf(d0, a, ms, [i], d) && Verdict(d, a, ms).Error?;
    }
  }

  lemma FreshNonempty(d0: Disk, a: Action, ms: seq<Approved>)
    requires Fresh(d0, a, ms)
    ensures ms != []
  {
  }

  predicate WantedMeans(ms: seq<Approved>, done: seq<nat>) {
    && (Wanted(ms, done).SafeToRetry? <==> done == [])
    && (Wanted(ms, done).Applied? <==> forall i :: 0 <= i < |ms| ==> i in done)
    && (Wanted(ms, done).Unresolved? <==> done != [] && exists i :: 0 <= i < |ms| && i !in done)
  }

  lemma WantedSplits(ms: seq<Approved>, done: seq<nat>)
    requires ms != []
    ensures WantedMeans(ms, done)
  {
    if done == [] {
      assert 0 !in done;
    }
  }

  lemma RecoverableMeans(a: Action, ms: seq<Approved>)
    ensures (forall i :: 0 <= i < |ms| ==> Recoverable(a, ms[i])) <==>
      forall i :: 0 <= i < |ms| ==>
        && IsSubtitle(ms[i].source.path) == IsSubtitle(ms[i].destination.path)
        && (a.Copy? ==> Bare(TrimSpace(ms[i].digest)) == Bare(ms[i].digest))
  {
  }

  // A mapping that cannot be recognised turns its own effect into an error.
  lemma Unrecognised(d0: Disk, a: Action, ms: seq<Approved>, i: nat) returns (d: Disk)
    requires Fresh(d0, a, ms) && i < |ms| && !Recoverable(a, ms[i])
    ensures PartOf(d0, a, ms, [i], d) && Verdict(d, a, ms).Error? && Verdict(d, a, ms) != Wanted(ms, [i])
  {
    hide Recoverable, Verdict, StrongDigest, HashText, SourceDigestOk, KindAt;
    d := Effect(d0, a, ms[i], "new");
    assert [i][..0] == [] && PartOf(d0, a, ms, [], d0);
    assert PartOf(d0, a, ms, [i], d);
    VerdictAfterCrash(d0, a, ms, [i], d);
    assert i in [i];
  }

  // ---------------------------------------- two batches the source accepts

  function Object(digest: string): Info { Info(false, 1, "id", Some(digest)) }

  // A copy whose approved digest has white space around it is dispatched, and
  // once done is reported as an error.
  lemma PaddedDigestErrs(hex: string) returns (d0: Disk, m: Approved, d: Disk)
    requires |hex| == 64 && IsHex(hex)
    ensures Fresh(d0, Copy, [m]) && m.digest == " " + (SHA_PREFIX + hex)
    ensures Verdict(d0, Copy, [m]).SafeToRetry?
    ensures PartOf(d0, Copy, [m], [0], d) && Verdict(d, Copy, [m]).Error?
  {
    hide Fresh, Verdict, Recoverable;
    d0, m := PaddedBatch(hex);
    d := Unrecognised(d0, Copy, [m], 0);
    assert PartOf(d0, Copy, [m], [], d0);
    VerdictAfterCrash(d0, Copy, [m], [], d0);
  }

  lemma PaddedBatch(hex: string) returns (d0: Disk, m: Approved)
    requires |hex| == 64 && IsHex(hex)
    ensures Fresh(d0, Copy, [m]) && m.digest == " " + (SHA_PREFIX + hex) && !Recoverable(Copy, m)
  {
    var plain := SHA_PREFIX + hex;
    var padded := " " + plain;
    var s, t := Target("r", "a"), Target("r", "b");
    d0 := Disk(map[s := Object(plain)], {});
    m := Approved(s, RegularFile, 1, padded, "id", t);
    PaddedFacts(hex);
    NotSubtitle("a");
    NotSubtitle("b");
    assert "a"[0] != "b"[0];
    PaddedIsLost(plain, padded, m);
    LoneBatch(Copy, d0, m, Object(plain));
  }

  lemma PaddedIsLost(plain: string, padded: string, m: Approved)
    requires m.digest == padded && !Blank(padded) && TrimSpace(padded) == plain == TrimSpace(plain)
    requires !SameDigest(plain, padded)
    ensures SourceDigestOk(Object(plain), m) && !Recoverable(Copy, m)
  {
    SameToItself(plain);
    hide SameDigest, TrimSpace, IsSubtitle, Blank;
  }

  lemma LoneBatch(a: Action, d0: Disk, m: Approved, o: Info)
    requires d0 == Disk(map[m.source := o], {}) && m.source != m.destination && !o.directory
    requires m == Approved(m.source, KindAt(o, m.source), o.size, m.digest, o.identity, m.destination)
    requires o.identity != ""
    requires SourceDigestOk(o, m) && (o.digest.Some? ==> HashText(o.digest.value)) && (a.Copy? ==>
      StrongDigest(m.digest))
    ensures Fresh(d0, a, [m])
  {
    hide SourceDigestOk, HashText, StrongDigest, IsSubtitle;
    assert SourceExact(d0, m);
  }

  lemma PaddedFacts(hex: string)
    requires |hex| == 64 && IsHex(hex)
    ensures var plain := SHA_PREFIX + hex;
      var padded := " " + plain;
      && HashText(plain) && StrongDigest(padded) && TrimSpace(padded) == plain && TrimSpace(plain) == plain
      && !Blank(padded) && !SameDigest(plain, padded)
  {
    var plain := SHA_PREFIX + hex;
    var padded := " " + plain;
    assert plain[|SHA_PREFIX|..] == hex;
    hide StrongDigest, TrimSpace, Blank;
    PaddedTrims(plain, padded);
    LowerHex(plain, hex);
    assert padded[0] == ' ' && SHA_PREFIX[0] == 's';
    assert |Bare(plain)| == 64 && |Bare(padded)| == |padded|;
  }

  lemma SameToItself(digest: string)
    ensures SameDigest(digest, digest)
  {
  }

  lemma NotSubtitle(name: string)
    requires |name| == 1 && name[0] != '.'
    ensures !IsSubtitle(name)
  {
    assert name[..0] == "" && Ext(name[..0]) == "";
    assert LowerText(Ext(name)) == "";
  }

  lemma PaddedTrims(plain: string, padded: string)
    requires HashText(plain) && padded == " " + plain
    ensures TrimSpace(padded) == plain && TrimSpace(plain) == plain && !Blank(padded)
  {
    assert padded[1..] == plain;
    HashIsTrimmed(plain);
    assert padded[1] == SHA_PREFIX[0] == 's';
  }

  lemma LowerHex(plain: string, hex: string)
    requires plain == SHA_PREFIX + hex && |hex| == 64 && IsHex(hex)
    ensures TrimSpace(plain) == plain ==> StrongDigest(plain)
    ensures TrimSpace(" " + plain) == plain ==> StrongDigest(" " + plain)
  {
    var t := LowerText(plain);
    assert t[..|SHA_PREFIX|] == SHA_PREFIX;
    assert t[|SHA_PREFIX|..] == LowerText(hex);
    forall i | 0 <= i < 64 ensures IsHexDigit(LowerText(hex)[i]) {
      assert IsHexDigit(hex[i]);
    }
  }

  // A move that gives a file a subtitle's extension is reported as an error
  // once done.
  lemma SubtitleRenameErrs() returns (d0: Disk, m: Approved, d: Disk)
    ensures Fresh(d0, Move, [m]) && m.source.path == "a.txt" && m.destination.path == "a.srt"
    ensures Verdict(d0, Move, [m]).SafeToRetry?
    ensures PartOf(d0, Move, [m], [0], d) && Verdict(d, Move, [m]).Error?
  {
    var s, t := Target("r", "a.txt"), Target("r", "a.srt");
    d0 := Disk(map[s := Info(false, 1, "id", None)], {});
    m := Approved(s, RegularFile, 1, "", "id", t);
    Extensions();
    assert s.path[2] == 't' && t.path[2] == 's';
    assert Fresh(d0, Move, [m]);
    d := Unrecognised(d0, Move, [m], 0);
    assert PartOf(d0, Move, [m], [], d0);
    VerdictAfterCrash(d0, Move, [m], [], d0);
  }

  lemma Extensions()
    ensures IsSubtitle("a.srt") && !IsSubtitle("a.txt")
  {
    assert "a.srt"[..4] == "a.sr" && "a.sr"[..3] == "a.s" && "a.s"[..2] == "a.";
    assert "a.txt"[..4] == "a.tx" && "a.tx"[..3] == "a.t" && "a.t"[..2] == "a.";
    assert Ext("a.") == ".";
    assert Ext("a.s") == ".s" && Ext("a.sr") == ".sr" && Ext("a.srt") == ".srt";
    assert Ext("a.t") == ".t" && Ext("a.tx") == ".tx" && Ext("a.txt") == ".txt";
    hide Ext;
    assert LowerText(".srt") == ".srt" && LowerText(".txt")[1] == 't';
    assert forall x :: x in SUBTITLES ==> x[1] != 't';
  }

  // ------------------------------------------------------- deletion and trash

  // exactManifestObservation of one manifest entry
  predicate EntryExact(d: Disk, e: Approved) {
    && e.source in d.entries
    && var s := d.entries[e.source];
    KindAt(s, e.source) == e.kind && s.size == e.size && s.identity != "" && s.identity == e.identity
  }

  method ObserveDelete(d: Disk, es: seq<Approved>) returns (o: Observation)
    ensures o.Failure? <==>
      exists i :: 0 <= i < |es| && (es[i].source in d.unreadable || (es[i].source in d.entries && !EntryExact(d, es[i])))
    ensures o.Satisfied? <==> forall i :: 0 <= i < |es| ==> es[i].source !in d.entries && es[i].source !in d.unreadable
    ensures o.NeedsAction? ==>
              && |o.effects| == |es|
              && forall i :: 0 <= i < |es| ==> (o.effects[i].Pending? <==> es[i].source in d.entries)
    ensures !o.Unknown?
  {
    var effects: seq<EffectState> := [];
    var allAbsent := true;
    for i := 0 to |es|
      invariant |effects| == i
      invariant forall j :: 0 <= j < i ==>
                  && es[j].source !in d.unreadable && (es[j].source in d.entries ==> EntryExact(d, es[j]))
                  && (effects[j].Pending? <==> es[j].source in d.entries)
      invariant allAbsent <==> forall j :: 0 <= j < i ==> es[j].source !in d.entries
    {
      if es[i].source in d.unreadable || (es[i].source in d.entries && !EntryExact(d, es[i])) {
        return Failure;
      }
      var present := es[i].source in d.entries;
      allAbsent := allAbsent && !present;
      effects := effects + [if present then Pending else AlreadySatisfied];
    }
    return if allAbsent then Satisfied(effects) else NeedsAction(effects);
  }

  // A missing source never proves that trashing happened.
  method ObserveTrash(d: Disk, es: seq<Approved>) returns (o: Observation)
    ensures !o.Satisfied?
    ensures o.NeedsAction? <==> forall i :: 0 <= i < |es| ==> es[i].source !in d.unreadable && EntryExact(d, es[i])
    ensures o.NeedsAction? ==> |o.effects| == |es| && forall i :: 0 <= i < |es| ==> o.effects[i].Pending?
    ensures o.Unknown? ==> exists i :: 0 <= i < |es| && es[i].source !in d.entries
  {
    var effects: seq<EffectState> := [];
    for i := 0 to |es|
      invariant |effects| == i && forall j :: 0 <= j < i ==>
                  effects[j].Pending? && es[j].source !in d.unreadable && EntryExact(d, es[j])
    {
      if es[i].source in d.unreadable {
        return Failure;
      }
      if es[i].source !in d.entries {
        return Unknown;
      }
      if !EntryExact(d, es[i]) {
        return Failure;
      }
      effects := effects + [Pending];
    }
    return NeedsAction(effects);
  }

  // A crash in the middle of a deletion: of a disk that held the whole approved
  // manifest, the entries in `gone` are removed, and the directories in `torn`
  // lost children, which changed their identity. With a torn directory the
  // outcome is an error; otherwise deletion is retried only if nothing went, is
  // applied only if everything went, and else stays unresolved.
  method ReconcileDeleteAfterCrash(d0: Disk, es: seq<Approved>, gone: set<Target>, torn: map<Target, Info>)
    returns (r: Reconciled)
    requires es != [] && d0.unreadable == {} && forall i :: 0 <= i < |es| ==> EntryExact(d0, es[i])
    requires gone <= set i | 0 <= i < |es| :: es[i].source
    requires torn.Keys <= set i | 0 <= i < |es| :: es[i].source
    requires gone !! torn.Keys && forall t :: t in torn && t in d0.entries ==>
      torn[t].identity != d0.entries[t].identity
    ensures r.Error? <==> torn != map[]
    ensures torn == map[] ==> (r.SafeToRetry? <==> gone == {})
    ensures torn == map[] ==> (r.Applied? <==> forall i :: 0 <= i < |es| ==> es[i].source in gone)
  {
    var d := Disk(map t | t in d0.entries && t !in gone :: if t in torn then torn[t] else d0.entries[t], {});
    var o := ObserveDelete(d, es);
    r := ReconcileObservation(o);
    CrashView(d0, d, es, gone, torn);
    assert es[0].source in d.entries <==> es[0].source !in gone;
    if gone != {} {
      var i :| 0 <= i < |es| && es[i].source in gone;
      assert es[i].source !in d.entries;
    }
  }

  lemma CrashView(d0: Disk, d: Disk, es: seq<Approved>, gone: set<Target>, torn: map<Target, Info>)
    requires es != [] && forall i :: 0 <= i < |es| ==> EntryExact(d0, es[i])
    requires gone <= set i | 0 <= i < |es| :: es[i].source
    requires torn.Keys <= set i | 0 <= i < |es| :: es[i].source
    requires gone !! torn.Keys && forall t :: t in torn && t in d0.entries ==>
      torn[t].identity != d0.entries[t].identity
    requires d == Disk(map t | t in d0.entries && t !in gone :: if t in torn then torn[t] else d0.entries[t], {})
    ensures forall i :: 0 <= i < |es| ==>
      && (es[i].source in d.entries <==> es[i].source !in gone)
      && (es[i].source in d.entries ==> (EntryExact(d, es[i]) <==> es[i].source !in torn))
    ensures (torn != map[] <==> exists i :: 0 <= i < |es| && es[i].source in torn)
    ensures (gone != {} <==> exists i :: 0 <= i < |es| && es[i].source in gone)
  {
    hide KindAt;
    if torn != map[] {
      var t :| t in torn;
      var i :| 0 <= i < |es| && es[i].source == t;
    }
    if gone != {} {
      var t :| t in gone;
      var i :| 0 <= i < |es| && es[i].source == t;
    }
    forall i | 0 <= i < |es|
      ensures es[i].source in d.entries <==> es[i].source !in gone
      ensures es[i].source in d.entries ==> (EntryExact(d, es[i]) <==> es[i].source !in torn)
    {
      assert EntryExact(d0, es[i]);
    }
  }
}
