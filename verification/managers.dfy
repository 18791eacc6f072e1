/**
 * What the two state managers share: the states of a build's modules, held
 * in a map from module to state that the constructor fills one state at a
 * time, and the two lookups on it.
 */
module StateManagers {
  import opened Wrappers
  import opened Collections
  import opened Projects
  import opened ProjectStates

  /**
   * The map `put` builds from the states in the order given: each module
   * holds the last of its states.
   */
  function Index(order: seq<ProjectState>): (m: map<ProjectKey, ProjectState>)
    ensures m.Keys == set i | 0 <= i < |order| :: order[i].project.key
    ensures forall k | k in m :: m[k] in order && m[k].project.key == k
  {
    if |order| == 0 then map[]
    else
      var s := order[|order| - 1];
      var m := Index(order[..|order| - 1]);
      assert forall i | 0 <= i < |order| - 1 :: order[..|order| - 1][i] == order[i];
      m[s.project.key := s]
  }

  /** A state no later state of the same module follows is the one the map holds. */
  lemma {:induction false} IndexLastWins(order: seq<ProjectState>, i: nat)
    requires i < |order|
    requires forall j | i < j < |order| :: order[j].project.key != order[i].project.key
    ensures order[i].project.key in Index(order) && Index(order)[order[i].project.key] == order[i]
    decreases |order|
  {
    if i < |order| - 1 {
      var prefix := order[..|order| - 1];
      forall j | i < j < |prefix|
        ensures prefix[j].project.key != prefix[i].project.key
      {
        assert prefix[j] == order[j];
      }
      IndexLastWins(prefix, i);
      assert prefix[i] == order[i];
    }
  }

  /**
   * The map holds at most one state per state given, and exactly as many
   * when no two states given are for the same module.
   */
  lemma {:induction false} IndexSize(order: seq<ProjectState>)
    ensures |Index(order)| <= |order|
    ensures (forall i, j | 0 <= i < j < |order| :: order[i].project.key != order[j].project.key) ==>
      |Index(order)| == |order|
    decreases |order|
  {
    if |order| > 0 {
      var s := order[|order| - 1];
      var prefix := order[..|order| - 1];
      IndexSize(prefix);
      if forall i, j | 0 <= i < j < |order| :: order[i].project.key != order[j].project.key {
        assert s.project.key !in Index(prefix);
        forall i, j | 0 <= i < j < |prefix|
          ensures prefix[i].project.key != prefix[j].project.key
        {
          assert prefix[i] == order[i] && prefix[j] == order[j];
        }
      }
    }
  }

  /** The map built from an iteration order of a set has an entry for each module of the set, holding one of its states. */
  lemma IndexHoldsEach(order: seq<ProjectState>, states: set<ProjectState>)
    requires Enumerates(order, states)
    ensures forall s | s in states :: s.project.key in Index(order) && Index(order)[s.project.key] in states
  {
    forall s | s in states
      ensures s.project.key in Index(order)
    {
      var i :| 0 <= i < |order| && order[i] == s;
    }
  }

  /** When the set has one state per module, each module's entry is that state. */
  lemma IndexOfDistinct(order: seq<ProjectState>, states: set<ProjectState>)
    requires Enumerates(order, states)
    requires forall s, t | s in states && t in states && s.project.key == t.project.key :: s == t
    ensures forall s | s in states :: s.project.key in Index(order) && Index(order)[s.project.key] == s
  {
    forall s | s in states
      ensures s.project.key in Index(order) && Index(order)[s.project.key] == s
    {
      var i :| 0 <= i < |order| && order[i] == s;
      forall j | i < j < |order|
        ensures order[j].project.key != order[i].project.key
      {
        assert order[j] in states && order[j] != order[i];
      }
      IndexLastWins(order, i);
    }
  }

  /** The map built from an iteration order of a set has at most as many entries as the set has states. */
  lemma IndexSizeOfSet(order: seq<ProjectState>, states: set<ProjectState>)
    requires Enumerates(order, states)
    ensures |Index(order)| <= |states|
  {
    EnumeratesSize(order, states);
    IndexSize(order);
  }

  /** With one state per module, the map has an entry for every state of the set. */
  lemma IndexSizeOfDistinct(order: seq<ProjectState>, states: set<ProjectState>)
    requires Enumerates(order, states)
    requires forall s, t | s in states && t in states && s.project.key == t.project.key :: s == t
    ensures |Index(order)| == |states|
  {
    EnumeratesSize(order, states);
    forall i, j | 0 <= i < j < |order|
      ensures order[i].project.key != order[j].project.key
    {
      assert order[i] in states && order[j] in states;
    }
    IndexSize(order);
  }

  /** The constructor's loop: each state of the set put under its module, in iteration order. */
  method PutAll(states: set<ProjectState>) returns (m: map<ProjectKey, ProjectState>, ghost order: seq<ProjectState>)
    ensures Enumerates(order, states) && m == Index(order)
  {
    m := map[];
    order := [];
    var remaining := states;
    while remaining != {}
      invariant remaining <= states
      invariant Enumerates(order, states - remaining)
      invariant m == Index(order)
      decreases remaining
    {
      var s :| s in remaining;
      m := m[s.project.key := s];
      EnumeratesConcat(order, states - remaining, [s], {s});
      order := order + [s];
      assert states - (remaining - {s}) == (states - remaining) + {s};
      remaining := remaining - {s};
    }
    assert states - remaining == states;
  }

  /**
   * `AbstractReactorStateManager`: the module-to-state map. Its keys compare
   * modules as `MavenProject.equals` does, by group, artifact and version.
   */
  class StateManager {
    var projectStates: map<ProjectKey, ProjectState>
    /** The order the constructor visited the given states in. */
    ghost var insertionOrder: seq<ProjectState>

    /** Each state is held under its own module. */
    ghost predicate Valid()
      reads this
    {
      forall k | k in projectStates :: projectStates[k].project.key == k
    }

    /**
     * The constructor: every given state put under its module, in the order
     * the set is iterated, so a later state of a module replaces an earlier one.
     */
    constructor (states: set<ProjectState>)
      ensures Valid()
      ensures Enumerates(insertionOrder, states) && projectStates == Index(insertionOrder)
      ensures forall s | s in states :: s.project.key in projectStates && projectStates[s.project.key] in states
      ensures |projectStates| <= |states|
    {
      var m;
      ghost var order;
      m, order := PutAll(states);
      IndexHoldsEach(order, states);
      IndexSizeOfSet(order, states);
      projectStates := m;
      insertionOrder := order;
    }

    /** `getProjectStates`: a new set of the states held, one per module. */
    function GetProjectStates(): (r: set<ProjectState>)
      reads this
      requires Valid()
      ensures forall s | s in r :: s.project.key in projectStates && projectStates[s.project.key] == s
      ensures forall k | k in projectStates :: projectStates[k] in r
    {
      set k | k in projectStates :: projectStates[k]
    }

    /** `getProjectState`: the state held for `project`, or null. */
    function GetProjectState(project: ProjectInfo): (r: Option<ProjectState>)
      reads this
      requires Valid()
      ensures r.None? <==> project.key !in projectStates
      ensures r.Some? ==> r.value.project.key == project.key && r.value in GetProjectStates()
    {
      if project.key in projectStates then Some(projectStates[project.key]) else None
    }
  }
}
