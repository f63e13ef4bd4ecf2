/**
 * The `elections` slice of `frontend/src/redux/electionsSlice.ts`: the chosen
 * election and candidate, and the two reducers that change them. Redux
 * Toolkit runs a reducer on a draft of the state; `Store` holds that state
 * and each reducer is a method on it.
 */
module ElectionsSlice {

  /** `ElectionsState`. */
  datatype ElectionsState = ElectionsState(elections: string, candidate: string)

  /** The dispatchable actions. */
  datatype Action = SetElections(id: string) | SetCandidate(key: string)

  /** The reducer as a function of the old state and the action. */
  function Reduce(s: ElectionsState, a: Action): (r: ElectionsState)
    ensures a.SetElections? ==> r.elections == a.id && r.candidate == "all"
    ensures a.SetCandidate? ==> r.candidate == a.key && r.elections == s.elections
  {
    match a
    case SetElections(id) => ElectionsState(id, "all")
    case SetCandidate(key) => s.(candidate := key)
  }

  /** `initialState`. */
  const Initial: ElectionsState := ElectionsState("pres_2025_1", "all")

  /** Choosing the same election twice is choosing it once. */
  lemma SetElectionsIdempotent(s: ElectionsState, id: string)
    ensures Reduce(Reduce(s, SetElections(id)), SetElections(id)) == Reduce(s, SetElections(id))
  {
  }

  /** A new election forgets the chosen candidate, whatever it was. */
  lemma SetElectionsForgetsCandidate(s: ElectionsState, t: ElectionsState, id: string)
    ensures Reduce(s, SetElections(id)) == Reduce(t, SetElections(id))
  {
  }

  /** Choosing a candidate and then an election is the same as choosing only the election. */
  lemma CandidateThenElections(s: ElectionsState, c: string, id: string)
    ensures Reduce(Reduce(s, SetCandidate(c)), SetElections(id)) == Reduce(s, SetElections(id))
  {
  }

  class Store {
    var elections: string
    var candidate: string

    function State(): ElectionsState
      reads this
    {
      ElectionsState(elections, candidate)
    }

    /** The store starts from `initialState`. */
    constructor ()
      ensures State() == Initial
    {
      elections := "pres_2025_1";
      candidate := "all";
    }

    /** `setElections`: the election becomes the payload and the candidate is reset to "all". */
    method SetElections(id: string)
      modifies this
      ensures State() == Reduce(old(State()), Action.SetElections(id))
      ensures elections == id && candidate == "all"
    {
      elections := id;
      candidate := "all";
    }

    /** `setCandidate`: the candidate becomes the payload and the election stays. */
    method SetCandidate(key: string)
      modifies this
      ensures State() == Reduce(old(State()), Action.SetCandidate(key))
      ensures candidate == key && elections == old(elections)
    {
      candidate := key;
    }
  }
}
