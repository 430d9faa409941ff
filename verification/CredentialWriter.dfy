/**
 * writeCredentialSet against a store whose Replace may do anything
 * (internal/configuration/configuration.go).
 */
module CredentialWriter {
  import opened Common
  import opened Credentials

  class Store {
    var sets: map<string, EnvelopeSet>
    // Every replacement asked for, and what the store makes of such a history.
    var asked: seq<(string, EnvelopeSet)>
    const leaves: seq<(string, EnvelopeSet)> -> map<string, EnvelopeSet>

    function Stored(id: string): EnvelopeSet
      reads this
    {
      if id in sets then sets[id] else map[]
    }

    // The response is ignored by the caller and proves nothing about the effect.
    method Replace(id: string, values: EnvelopeSet)
      modifies this
      ensures asked == old(asked) + [(id, values)] && sets == leaves(asked)
    {
      asked := asked + [(id, values)];
      sets := leaves(asked);
    }

    method Load(id: string, readable: bool) returns (values: Option<EnvelopeSet>)
      ensures values == if readable then Some(Stored(id)) else None
    {
      return if readable then Some(Stored(id)) else None;
    }
  }

  datatype Outcome = Matched | Unchanged | Unknown

  // A read-back of the complete set is the only proof of success, and nothing
  // else leaves the outcome known; `readable` says whether the read-back works.
  // The store is asked for one replacement and not touched otherwise.
  method WriteCredentialSet(store: Store, id: string, desired: EnvelopeSet, previous: EnvelopeSet, readable: bool)
    returns (o: Outcome)
    modifies store
    ensures store.asked == old(store.asked) + [(id, desired)] && store.sets == store.leaves(store.asked)
    ensures o.Matched? <==> readable && store.Stored(id) == desired
    ensures o.Unchanged? <==> readable && store.Stored(id) == previous && previous != desired
  {
    store.Replace(id, desired);
    var actual := store.Load(id, readable);
    if actual.None? {
      return Unknown;
    }
    if actual.value == desired {
      return Matched;
    }
    if actual.value == previous {
      return Unchanged;
    }
    return Unknown;
  }
}
