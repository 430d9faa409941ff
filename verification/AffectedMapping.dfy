/**
 * Mapping the entries a filesystem port reports as affected back to the
 * observed effects of the approved batch (internal/actions/filesystem.go).
 */
module AffectedMapping {
  import opened Common
  import opened DirectoryExpansion
  import opened FilesystemReconcile

  datatype State = PendingEffect | AppliedEffect | AlreadySatisfiedEffect | FailedEffect | CancelledEffect
    | UnknownEffect

  datatype Outcome = OutcomeApplied | OutcomeAlreadySatisfied | NoOutcome

  // Ordinal, state, evidence and time are what mapping can touch; id stands for
  // every other field.
  datatype Effect = Effect(id: string, ordinal: int, state: State, evidence: seq<string>, observedAt: string)

  // A dispatched batch: trash and delete carry a manifest, the rest file maps.
  datatype Intent = Intent(overManifest: bool, manifest: seq<Entry>, files: seq<FileMap>)

  datatype Report = Report(affected: seq<Entry>, outcome: Outcome, evidence: seq<string>, observedAt: string)

  datatype Source = Source(entry: Entry, effect: nat)

  // sameFilesystemSource
  predicate SameSource(l: Entry, r: Entry) {
    && l.root == r.root && l.path == r.path && l.kind == r.kind && l.size == r.size
    && l.identity != "" && l.identity == r.identity
    && (l.digest == "" || r.digest == "" || SameDigest(l.digest, r.digest))
  }

  // ------------------------------------------------------- approved sources

  // A manifest entry followed by everything below it, depth first.
  function Flat(e: Entry): seq<Entry>
    decreases e, |e.children| + 1
  {
    [e] + FlatFrom(e, 0)
  }

  function FlatFrom(e: Entry, i: nat): seq<Entry>
    requires i <= |e.children|
    decreases e, |e.children| - i
  {
    if i == |e.children| then [] else Flat(e.children[i]) + FlatFrom(e, i + 1)
  }

  // An entry's list holds itself and whatever its children's lists hold.
  lemma FlatMeans(e: Entry, x: Entry)
    ensures x in Flat(e) <==> x == e || exists i :: 0 <= i < |e.children| && x in Flat(e.children[i])
  {
    FlatFromMeans(e, 0, x);
  }

  lemma {:induction false} FlatFromMeans(e: Entry, i: nat, x: Entry)
    requires i <= |e.children|
    ensures x in FlatFrom(e, i) <==> exists j :: i <= j < |e.children| && x in Flat(e.children[j])
    decreases |e.children| - i
  {
    hide Flat;
    if i < |e.children| {
      FlatFromMeans(e, i + 1, x);
    }
  }

  function Tagged(es: seq<Entry>, effect: nat): (r: seq<Source>)
    ensures |r| == |es| && forall k :: 0 <= k < |es| ==> r[k] == Source(es[k], effect)
  {
    seq(|es|, k requires 0 <= k < |es| => Source(es[k], effect))
  }

  // The approved sources of the manifest entries before i.
  function ManifestSources(es: seq<Entry>, i: nat): seq<Source>
    requires i <= |es|
  {
    if i == 0 then [] else ManifestSources(es, i - 1) + Tagged(Flat(es[i - 1]), i - 1)
  }

  function MappingSources(ms: seq<FileMap>): (r: seq<Source>)
    ensures |r| == |ms| && forall k :: 0 <= k < |ms| ==> r[k] == Source(ms[k].source, k)
  {
    seq(|ms|, k requires 0 <= k < |ms| => Source(ms[k].source, k))
  }

  // None for the error return.
  function Approved(intent: Intent): Option<seq<Source>> {
    if intent.overManifest then
      if intent.manifest == [] then None else Some(ManifestSources(intent.manifest, |intent.manifest|))
    else match ExpandAll(intent.files)
      case None => None
      case Some(ms) => if ms == [] then None else Some(MappingSources(ms))
  }

  function Expected(intent: Intent, approved: seq<Source>): nat {
    if intent.overManifest then |intent.manifest| else |approved|
  }

  // appendManifestSources
  method AppendManifestSources(result: seq<Source>, e: Entry, effect: nat) returns (out: seq<Source>)
    ensures out == result + Tagged(Flat(e), effect)
    decreases e
  {
    out := result + [Source(e, effect)];
    ghost var done: seq<Entry> := [e];
    for i := 0 to |e.children|
      invariant out == result + Tagged(done, effect)
      invariant Flat(e) == done + FlatFrom(e, i)
    {
      ghost var part := Flat(e.children[i]);
      out := AppendManifestSources(out, e.children[i], effect);
      TaggedConcat(done, part, effect);
      done := done + part;
    }
    assert done + [] == done;
  }

  lemma TaggedConcat(a: seq<Entry>, b: seq<Entry>, effect: nat)
    ensures Tagged(a, effect) + Tagged(b, effect) == Tagged(a + b, effect)
  {
  }

  // approvedFilesystemSources
  method ApprovedSources(intent: Intent) returns (ok: bool, out: seq<Source>)
    ensures ok <==> Approved(intent).Some?
    ensures ok ==> out == Approved(intent).value
    ensures intent.overManifest ==>
      && (ok <==> intent.manifest != [])
      && (ok ==> forall x, e: nat :: Source(x, e) in out <==> e < |intent.manifest| && x in Flat(intent.manifest[e]))
    ensures !intent.overManifest ==>
      && (ok <==> ExpandAll(intent.files).Some? && ExpandAll(intent.files).value != [])
      && (ok ==> var ms := ExpandAll(intent.files).value;
            |out| == |ms| && forall k :: 0 <= k < |ms| ==> out[k].effect == k && out[k].entry == ms[k].source)
  {
    out := [];
    if intent.overManifest {
      for i := 0 to |intent.manifest|
        invariant out == ManifestSources(intent.manifest, i)
      {
        out := AppendManifestSources(out, intent.manifest[i], i);
      }
      if intent.manifest != [] {
        ManifestSourcesKept(intent.manifest, 0, |intent.manifest|);
      }
      ManifestSourcesMean(intent.manifest);
      return out != [], out;
    }
    var expanded, ms := ExpandedMappings(intent.files);
    if !expanded {
      return false, out;
    }
    for i := 0 to |ms|
      invariant out == MappingSources(ms)[..i]
    {
      out := out + [Source(ms[i].source, i)];
    }
    return true, out;
  }

  // ----------------------------------------------------------- the mapping

  predicate Matches(affected: Entry, approved: seq<Source>, k: nat) {
    k < |approved| && SameSource(affected, approved[k].entry)
  }

  // The one approved source an affected entry matches.
  ghost predicate MatchesOnly(affected: Entry, approved: seq<Source>, k: nat) {
    Matches(affected, approved, k) && forall j: nat {:trigger Matches(affected, approved, j)} ::
      Matches(affected, approved, j) ==> j == k
  }

  // Affected entries match approved sources one to one.
  ghost predicate OneToOne(affected: seq<Entry>, approved: seq<Source>) {
    exists at: seq<nat> :: MatchedBy(affected, approved, at)
  }

  ghost predicate MatchedBy(affected: seq<Entry>, approved: seq<Source>, at: seq<nat>) {
    && |at| == |affected|
    && (forall i :: 0 <= i < |affected| ==> MatchesOnly(affected[i], approved, at[i]))
    && (forall i, j :: 0 <= i < j < |at| ==> at[i] != at[j])
  }

  // Some affected entry belongs to effect e.
  ghost predicate Hit(affected: seq<Entry>, approved: seq<Source>, e: nat) {
    exists i, k: nat :: 0 <= i < |affected| && MatchesOnly(affected[i], approved, k) && approved[k].effect == e
  }

  // What marking an effect as affected makes of it.
  predicate Touched(before: Effect, after: Effect, index: nat, report: Report, now: string) {
    && after.id == before.id
    && after.ordinal == (if before.ordinal < 0 then index else before.ordinal)
    && (before.state != PendingEffect ==> after.state == before.state)
    && (before.state == PendingEffect ==>
          && (after.state == AppliedEffect <==> report.outcome == OutcomeApplied)
          && (after.state == AlreadySatisfiedEffect <==> report.outcome == OutcomeAlreadySatisfied)
          && (after.state == UnknownEffect <==> report.outcome == NoOutcome))
    && after.evidence == before.evidence + ["filesystem_affected"] + report.evidence
    && after.observedAt == (if report.observedAt == "" then now else report.observedAt)
  }

  // The finding loop: whether exactly one approved source matches, and which.
  method Find(affected: Entry, approved: seq<Source>) returns (ok: bool, at: nat)
    ensures ok ==> MatchesOnly(affected, approved, at)
    ensures ok ==>
      && at < |approved|
      && var found := approved[at].entry;
      && affected.root == found.root && affected.path == found.path && affected.kind == found.kind
      && affected.size == found.size && affected.identity == found.identity != ""
    ensures !ok ==> forall k :: !MatchesOnly(affected, approved, k)
  {
    var matchIndex := -1;
    for index := 0 to |approved|
      invariant -1 <= matchIndex < index
      invariant matchIndex >= 0 ==> Matches(affected, approved, matchIndex)
      invariant forall j: nat {:trigger Matches(affected, approved, j)} ::
                  j < index && Matches(affected, approved, j) ==> j == matchIndex
    {
      if SameSource(affected, approved[index].entry) {
        assert Matches(affected, approved, index);
        if matchIndex >= 0 {
          return false, 0;
        }
        matchIndex := index;
      }
    }
    if matchIndex < 0 {
      return false, 0;
    }
    return true, matchIndex;
  }

  // The indices below n, in order, that hold an entry.
  function Listed(result: map<nat, Effect>, n: nat): seq<Effect> {
    if n == 0 then [] else Listed(result, n - 1) + if n - 1 in result then [result[n - 1]] else []
  }

  ghost predicate Accepts(intent: Intent, observed: seq<Effect>, affected: seq<Entry>) {
    && Approved(intent).Some?
    && |observed| == Expected(intent, Approved(intent).value)
    && OneToOne(affected, Approved(intent).value)
  }

  // The effects at these indices, in order, are those that hold an affected
  // entry, each touched.
  ghost predicate Picks(observed: seq<Effect>, out: seq<Effect>, hit: set<nat>, report: Report, now: string,
    picked: seq<nat>) {
    && |picked| == |out|
    && (forall i, j :: 0 <= i < j < |picked| ==> picked[i] < picked[j])
    && (forall i :: 0 <= i < |picked| ==>
          picked[i] < |observed| && Touched(observed[picked[i]], out[i], picked[i], report, now))
    && (forall e: nat :: e in hit <==> e in picked)
  }

  // mapFilesystemAffected; picked are the indices of the effects returned.
  method MapFilesystemAffected(intent: Intent, observed: seq<Effect>, report: Report, now: string)
    returns (ok: bool, out: seq<Effect>, ghost picked: seq<nat>)
    ensures ok <==> Accepts(intent, observed, report.affected)
    ensures ok ==> |observed| == if intent.overManifest then |intent.manifest| else |ExpandAll(intent.files).value|
    ensures ok ==> |picked| == |out| && forall i, j :: 0 <= i < j < |picked| ==> picked[i] < picked[j]
    ensures ok ==> forall e: nat :: e in picked <==> Hit(report.affected, Approved(intent).value, e)
    ensures ok ==> forall i :: 0 <= i < |picked| ==>
      && picked[i] < |observed|
      && var (before, after) := (observed[picked[i]], out[i]);
      && after.id == before.id
      && after.ordinal == (if before.ordinal < 0 then picked[i] else before.ordinal)
      && (before.state != PendingEffect ==> after.state == before.state)
      && (before.state == PendingEffect ==>
            && (after.state == AppliedEffect <==> report.outcome == OutcomeApplied)
            && (after.state == AlreadySatisfiedEffect <==> report.outcome == OutcomeAlreadySatisfied)
            && (after.state == UnknownEffect <==> report.outcome == NoOutcome))
      && after.evidence == before.evidence + ["filesystem_affected"] + report.evidence
      && after.observedAt == (if report.observedAt == "" then now else report.observedAt)
  {
    hide SameSource, Approved, OneToOne, Touched, Hit;
    out, picked := [], [];
    var found, approved := ApprovedSources(intent);
    if !found {
      return false, out, picked;
    }
    if |observed| != Expected(intent, approved) {
      return false, out, picked;
    }
    EffectsInRange(intent, approved);
    var matched: set<nat> := {};
    var result: map<nat, Effect> := map[];
    ghost var at: seq<nat> := [];
    NoneMatched(report.affected, approved);
    for i := 0 to |report.affected|
      invariant MatchedBy(report.affected[..i], approved, at)
      invariant matched == set k | k in at
      invariant forall e: nat :: e in result <==> Hit(report.affected[..i], approved, e)
      invariant forall e: nat :: e in result ==> e < |observed| && Touched(observed[e], result[e], e, report, now)
    {
      var one, k := Find(report.affected[i], approved);
      if !one || k in matched {
        NotOneToOne(report.affected, approved, i, at, one, k);
        return false, out, picked;
      }
      OneMore(report.affected, approved, i, at, k);
      matched := matched + {k};
      at := at + [k];
      var e := approved[k].effect;
      if e !in result {
        var value := Touch(observed[e], e, report, now);
        result := result[e := value];
      }
    }
    assert report.affected[..|report.affected|] == report.affected;
    AllMatched(report.affected, approved, at);
    picked := Indices(result, |observed|);
    ListedPicks(observed, result, |observed|, report, now);
    OnlyPendingChanges(observed, Listed(result, |observed|), result.Keys, report, now, picked);
    for index := 0 to |observed|
      invariant out == Listed(result, index)
    {
      if index in result {
        out := out + [result[index]];
      }
    }
    ok := true;
  }

  // The field updates of one matched effect.
  method Touch(value: Effect, index: nat, report: Report, now: string) returns (r: Effect)
    ensures Touched(value, r, index, report, now)
  {
    r := value;
    if r.ordinal < 0 {
      r := r.(ordinal := index);
    }
    var state := UnknownEffect;
    match report.outcome {
      case OutcomeApplied => state := AppliedEffect;
      case OutcomeAlreadySatisfied => state := AlreadySatisfiedEffect;
      case NoOutcome =>
    }
    if r.state == PendingEffect {
      r := r.(state := state);
    }
    var observedAt := report.observedAt;
    if observedAt == "" {
      observedAt := now;
    }
    r := r.(observedAt := observedAt, evidence := r.evidence + (["filesystem_affected"] + report.evidence));
  }

  // ---------------------------------------------------------------- lemmas

  lemma {:induction false} ManifestSourcesKept(es: seq<Entry>, i: nat, n: nat)
    requires i < n <= |es|
    ensures ManifestSources(es, n) != []
  {
    if i < n - 1 {
      ManifestSourcesKept(es, i, n - 1);
    }
  }

  // Every approved source lies at or below the manifest entry of its effect.
  lemma {:induction false} SourceBelongsToItsEffect(es: seq<Entry>, n: nat, k: nat)
    requires n <= |es| && k < |ManifestSources(es, n)|
    ensures var s := ManifestSources(es, n)[k]; s.effect < n && s.entry in Flat(es[s.effect])
  {
    var before := ManifestSources(es, n - 1);
    if k < |before| {
      SourceBelongsToItsEffect(es, n - 1, k);
    } else {
      assert ManifestSources(es, n)[k] == Tagged(Flat(es[n - 1]), n - 1)[k - |before|];
    }
  }

  lemma ManifestSourcesMean(es: seq<Entry>)
    ensures forall x, e: nat :: Source(x, e) in ManifestSources(es, |es|) <==> e < |es| && x in Flat(es[e])
  {
    hide Flat, ManifestSources;
    var all := ManifestSources(es, |es|);
    forall x, e: nat | Source(x, e) in all ensures e < |es| && x in Flat(es[e]) {
      var k :| 0 <= k < |all| && all[k] == Source(x, e);
      SourceBelongsToItsEffect(es, |es|, k);
    }
    forall x, e: nat | e < |es| && x in Flat(es[e]) ensures Source(x, e) in all {
      var k := FlatIsListed(es, |es|, e, x);
    }
  }

  // Two entries agree in root, path, kind, size and a nonempty identity, and in
  // their digests unless one has none.
  lemma SourcesAgree(l: Entry, r: Entry)
    ensures SameSource(l, r) <==>
      && l.(digest := "", children := []) == r.(digest := "", children := []) && r.identity != ""
      && (l.digest != "" && r.digest != "" ==> SameDigest(l.digest, r.digest))
  {
  }

  lemma EffectsInRange(intent: Intent, approved: seq<Source>)
    requires Approved(intent) == Some(approved)
    ensures forall k :: 0 <= k < |approved| ==> approved[k].effect < Expected(intent, approved)
  {
    if intent.overManifest {
      forall k | 0 <= k < |approved| ensures approved[k].effect < |intent.manifest| {
        SourceBelongsToItsEffect(intent.manifest, |intent.manifest|, k);
      }
    }
  }

  lemma NoneMatched(affected: seq<Entry>, approved: seq<Source>)
    ensures MatchedBy(affected[..0], approved, [])
    ensures forall e: nat :: !Hit(affected[..0], approved, e)
  {
  }

  lemma AllMatched(affected: seq<Entry>, approved: seq<Source>, at: seq<nat>)
    requires MatchedBy(affected, approved, at)
    ensures OneToOne(affected, approved)
  {
  }

  lemma NotOneToOne(affected: seq<Entry>, approved: seq<Source>, i: nat, at: seq<nat>, one: bool, k: nat)
    requires i < |affected| && MatchedBy(affected[..i], approved, at)
    requires one ==> MatchesOnly(affected[i], approved, k) && k in at
    requires !one ==> forall k :: !MatchesOnly(affected[i], approved, k)
    ensures !OneToOne(affected, approved)
  {
    hide MatchesOnly;
    forall other: seq<nat> ensures !MatchedBy(affected, approved, other) {
      if MatchedBy(affected, approved, other) {
        assert MatchesOnly(affected[i], approved, other[i]);
        SameMatch(affected[i], approved, k, other[i]);
        var j :| 0 <= j < |at| && at[j] == k;
        assert MatchesOnly(affected[..i][j], approved, at[j]);
        SameMatch(affected[j], approved, k, other[j]);
        assert false;
      }
    }
  }

  lemma SameMatch(a: Entry, approved: seq<Source>, j: nat, k: nat)
    requires MatchesOnly(a, approved, j) && MatchesOnly(a, approved, k)
    ensures j == k
  {
  }

  lemma OneMore(affected: seq<Entry>, approved: seq<Source>, i: nat, at: seq<nat>, k: nat)
    requires i < |affected| && MatchedBy(affected[..i], approved, at)
    requires k < |approved| && MatchesOnly(affected[i], approved, k) && k !in at
    ensures MatchedBy(affected[..i + 1], approved, at + [k])
    ensures forall e: nat :: Hit(affected[..i + 1], approved, e) <==>
                               Hit(affected[..i], approved, e) || e == approved[k].effect
  {
    hide MatchesOnly;
    var more := affected[..i + 1];
    assert forall j :: 0 <= j < i ==> more[j] == affected[..i][j];
    forall e: nat
      ensures Hit(more, approved, e) <==> Hit(affected[..i], approved, e) || e == approved[k].effect
    {
      HitSplit(affected, approved, i, k, e);
    }
  }

  lemma HitSplit(affected: seq<Entry>, approved: seq<Source>, i: nat, k: nat, e: nat)
    requires i < |affected| && MatchesOnly(affected[i], approved, k)
    ensures Hit(affected[..i + 1], approved, e) <==> Hit(affected[..i], approved, e) || e == approved[k].effect
  {
    var more := affected[..i + 1];
    if Hit(more, approved, e) {
      var j, m: nat :| 0 <= j < |more| && MatchesOnly(more[j], approved, m) && approved[m].effect == e;
      if j < i {
        assert affected[..i][j] == more[j];
      } else {
        SameMatch(affected[i], approved, k, m);
      }
    }
    if Hit(affected[..i], approved, e) {
      var j, m: nat :| 0 <= j < i && MatchesOnly(affected[..i][j], approved, m) && approved[m].effect == e;
      assert more[j] == affected[..i][j];
    }
    assert more[i] == affected[i];
  }

  lemma ListedPicks(observed: seq<Effect>, result: map<nat, Effect>, n: nat, report: Report, now: string)
    requires n == |observed|
    requires forall e: nat :: e in result ==> e < |observed| && Touched(observed[e], result[e], e, report, now)
    ensures Picks(observed, Listed(result, n), result.Keys, report, now, Indices(result, n))
  {
    hide Touched;
    ListedIndices(result, n);
  }

  ghost function Indices(result: map<nat, Effect>, n: nat): seq<nat> {
    if n == 0 then [] else Indices(result, n - 1) + if n - 1 in result then [n - 1] else []
  }

  lemma {:induction false} ListedIndices(result: map<nat, Effect>, n: nat)
    ensures var at := Indices(result, n);
      && |at| == |Listed(result, n)|
      && (forall i, j :: 0 <= i < j < |at| ==> at[i] < at[j])
      && (forall i :: 0 <= i < |at| ==> at[i] < n && at[i] in result && Listed(result, n)[i] == result[at[i]])
      && (forall e: nat :: e in at <==> e in result && e < n)
  {
    if n > 0 {
      ListedIndices(result, n - 1);
    }
  }

  // A read-proven state survives: only pending effects are terminalized, and by
  // the reported outcome.
  lemma OnlyPendingChanges(observed: seq<Effect>, out: seq<Effect>, hit: set<nat>, report: Report, now: string,
    picked: seq<nat>)
    requires Picks(observed, out, hit, report, now, picked)
    ensures forall i :: 0 <= i < |picked| ==>
      && picked[i] < |observed|
      && var (before, after) := (observed[picked[i]], out[i]);
      && after.id == before.id
      && after.ordinal == (if before.ordinal < 0 then picked[i] else before.ordinal)
      && (before.state != PendingEffect ==> after.state == before.state)
      && (before.state == PendingEffect ==>
            && (after.state == AppliedEffect <==> report.outcome == OutcomeApplied)
            && (after.state == AlreadySatisfiedEffect <==> report.outcome == OutcomeAlreadySatisfied)
            && (after.state == UnknownEffect <==> report.outcome == NoOutcome))
      && after.evidence == before.evidence + ["filesystem_affected"] + report.evidence
      && after.observedAt == (if report.observedAt == "" then now else report.observedAt)
  {
    assert forall i :: 0 <= i < |picked| ==> Touched(observed[picked[i]], out[i], picked[i], report, now);
  }

  ghost predicate Known(affected: Entry, approved: seq<Source>) {
    exists k :: 0 <= k < |approved| && SameSource(affected, approved[k].entry)
  }

  // Accepting, in terms of single entries: every affected entry matches exactly
  // one approved source, and no two match the same one.
  lemma OneToOneMeans(affected: seq<Entry>, approved: seq<Source>)
    ensures OneToOne(affected, approved) <==>
      && (forall i :: 0 <= i < |affected| ==> Known(affected[i], approved))
      && (forall i, k, l | 0 <= i < |affected| && 0 <= k < |approved| && 0 <= l < |approved| ::
            SameSource(affected[i], approved[k].entry) && SameSource(affected[i], approved[l].entry) ==> k == l)
      && (forall i, j, k | 0 <= i < j < |affected| && 0 <= k < |approved| ::
            SameSource(affected[i], approved[k].entry) ==> !SameSource(affected[j], approved[k].entry))
  {
    hide SameSource;
    if OneToOne(affected, approved) {
      MatchedMeans(affected, approved);
    }
    if && (forall i :: 0 <= i < |affected| ==> Known(affected[i], approved))
       && (forall i, k, l | 0 <= i < |affected| && 0 <= k < |approved| && 0 <= l < |approved| ::
             SameSource(affected[i], approved[k].entry) && SameSource(affected[i], approved[l].entry) ==> k == l)
       && (forall i, j, k | 0 <= i < j < |affected| && 0 <= k < |approved| ::
             SameSource(affected[i], approved[k].entry) ==> !SameSource(affected[j], approved[k].entry))
    {
      var at := MatchedFrom(affected, approved, |affected|);
      assert affected[..|affected|] == affected;
    }
  }

  lemma MatchedMeans(affected: seq<Entry>, approved: seq<Source>)
    requires OneToOne(affected, approved)
    ensures forall i :: 0 <= i < |affected| ==> Known(affected[i], approved)
    ensures forall i, k, l | 0 <= i < |affected| && 0 <= k < |approved| && 0 <= l < |approved| ::
              SameSource(affected[i], approved[k].entry) && SameSource(affected[i], approved[l].entry) ==> k == l
    ensures forall i, j, k | 0 <= i < j < |affected| && 0 <= k < |approved| ::
              SameSource(affected[i], approved[k].entry) ==> !SameSource(affected[j], approved[k].entry)
  {
    hide SameSource;
    var at: seq<nat> :| MatchedBy(affected, approved, at);
    forall i, k | 0 <= i < |affected| && 0 <= k < |approved| && SameSource(affected[i], approved[k].entry)
      ensures k == at[i]
    {
      assert MatchesOnly(affected[i], approved, at[i]) && Matches(affected[i], approved, k);
    }
    forall i | 0 <= i < |affected| ensures Known(affected[i], approved) {
      assert MatchesOnly(affected[i], approved, at[i]);
    }
  }

  lemma {:induction false} MatchedFrom(affected: seq<Entry>, approved: seq<Source>, n: nat) returns (at: seq<nat>)
    requires n <= |affected|
    requires forall i :: 0 <= i < |affected| ==> Known(affected[i], approved)
    requires forall i, k, l | 0 <= i < |affected| && 0 <= k < |approved| && 0 <= l < |approved| ::
               SameSource(affected[i], approved[k].entry) && SameSource(affected[i], approved[l].entry) ==> k == l
    requires forall i, j, k | 0 <= i < j < |affected| && 0 <= k < |approved| ::
               SameSource(affected[i], approved[k].entry) ==> !SameSource(affected[j], approved[k].entry)
    ensures MatchedBy(affected[..n], approved, at)
  {
    hide SameSource;
    if n == 0 {
      at := [];
    } else {
      var before := MatchedFrom(affected, approved, n - 1);
      assert Known(affected[n - 1], approved);
      var k :| 0 <= k < |approved| && SameSource(affected[n - 1], approved[k].entry);
      assert MatchesOnly(affected[n - 1], approved, k);
      forall i | 0 <= i < n - 1 ensures before[i] != k {
        assert MatchesOnly(affected[..n - 1][i], approved, before[i]) && affected[..n - 1][i] == affected[i];
      }
      at := before + [k];
      forall i | 0 <= i < n ensures MatchesOnly(affected[..n][i], approved, at[i]) {
        if i < n - 1 {
          assert MatchesOnly(affected[..n - 1][i], approved, before[i]);
        }
      }
    }
  }

  // A child of an approved directory is charged to its top-level effect.
  lemma ChildrenHitTheirTop(intent: Intent, affected: seq<Entry>, e: nat)
    requires intent.overManifest && Approved(intent).Some? && OneToOne(affected, Approved(intent).value)
    ensures Hit(affected, Approved(intent).value, e) <==>
              e < |intent.manifest|
              && exists i, x :: 0 <= i < |affected| && x in Flat(intent.manifest[e]) && SameSource(affected[i], x)
  {
    hide SameSource, Flat;
    var es, approved := intent.manifest, Approved(intent).value;
    var at: seq<nat> :| MatchedBy(affected, approved, at);
    if Hit(affected, approved, e) {
      var i, k: nat :| 0 <= i < |affected| && MatchesOnly(affected[i], approved, k) && approved[k].effect == e;
      SourceBelongsToItsEffect(es, |es|, k);
    }
    if e < |es| && exists i, x :: 0 <= i < |affected| && x in Flat(es[e]) && SameSource(affected[i], x) {
      var i, x :| 0 <= i < |affected| && x in Flat(es[e]) && SameSource(affected[i], x);
      var k := FlatIsListed(es, |es|, e, x);
      assert Matches(affected[i], approved, k);
      assert MatchesOnly(affected[i], approved, at[i]);
    }
  }

  lemma {:induction false} FlatIsListed(es: seq<Entry>, n: nat, e: nat, x: Entry) returns (k: nat)
    requires e < n <= |es| && x in Flat(es[e])
    ensures k < |ManifestSources(es, n)| && ManifestSources(es, n)[k] == Source(x, e)
  {
    var before := ManifestSources(es, n - 1);
    if e < n - 1 {
      k := FlatIsListed(es, n - 1, e, x);
    } else {
      var j :| 0 <= j < |Flat(es[e])| && Flat(es[e])[j] == x;
      k := |before| + j;
      assert ManifestSources(es, n)[k] == Tagged(Flat(es[n - 1]), n - 1)[j];
    }
  }
}
