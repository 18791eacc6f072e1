/**
 * The extension's workspace reader: after the projects of a build are read
 * it loads the saved states of the build's modules and indexes every
 * artifact they hold by its versionless id, so that dependency resolution
 * finds those artifacts' files without a repository.
 */
module WorkspaceReaders {
  import opened Wrappers
  import opened Collections
  import opened Paths
  import opened FileSystems
  import opened Artifacts
  import opened Projects
  import opened ProjectStates
  import opened FlatCodec
  import opened StateManagers
  import opened Workspace
  import opened SavedManager
  import RuntimeManager

  /** The key an artifact is held under: `ArtifactIdUtils.toVersionlessId`. */
  function Key(a: Artifact): string
  {
    ToVersionlessId(a.coords)
  }

  /**
   * The map `put` builds from the artifacts in the order given: each key
   * holds the last artifact added under it.
   */
  function ArtifactIndex(order: seq<Artifact>): (m: map<string, Artifact>)
    ensures m.Keys == set i | 0 <= i < |order| :: Key(order[i])
    ensures forall k | k in m :: m[k] in order && Key(m[k]) == k
  {
    if |order| == 0 then map[]
    else
      var a := order[|order| - 1];
      var m := ArtifactIndex(order[..|order| - 1]);
      assert forall i | 0 <= i < |order| - 1 :: order[..|order| - 1][i] == order[i];
      m[Key(a) := a]
  }

  /** An artifact no later artifact with the same key follows is the one the map holds. */
  lemma {:induction false} ArtifactIndexLastWins(order: seq<Artifact>, i: nat)
    requires i < |order|
    requires forall j | i < j < |order| :: Key(order[j]) != Key(order[i])
    ensures Key(order[i]) in ArtifactIndex(order) && ArtifactIndex(order)[Key(order[i])] == order[i]
    decreases |order|
  {
    if i < |order| - 1 {
      var prefix := order[..|order| - 1];
      forall j | i < j < |prefix|
        ensures Key(prefix[j]) != Key(prefix[i])
      {
        assert prefix[j] == order[j];
      }
      ArtifactIndexLastWins(prefix, i);
      assert prefix[i] == order[i];
    }
  }

  /** Artifacts with the same base id share a key. */
  lemma SameBaseIdSameKey(c: Coordinates, a: Artifact)
    requires EqualsBaseId(c, Some(a))
    ensures ToVersionlessId(c) == Key(a)
  {
    assert VersionlessParts(c) == VersionlessParts(a.coords);
  }

  /**
   * The artifacts the reader adds for the states in the order visited: for
   * each state its POM, its main artifact, then its attached artifacts in
   * the order `orders` gives.
   */
  function StateArtifacts(sequence: seq<ProjectState>, orders: seq<seq<Artifact>>): (r: seq<Artifact>)
    requires |orders| == |sequence|
    ensures |r| >= 2 * |sequence|
  {
    if |sequence| == 0 then []
    else
      var n := |sequence| - 1;
      var s := sequence[n];
      StateArtifacts(sequence[..n], orders[..n]) + [s.pom, s.mainArtifact] + orders[n]
  }

  /** Every state's POM, main artifact and attached artifacts are among the artifacts added. */
  lemma {:induction false} StateArtifactsHold(sequence: seq<ProjectState>, orders: seq<seq<Artifact>>, i: nat)
    requires |orders| == |sequence| && i < |sequence|
    ensures sequence[i].pom in StateArtifacts(sequence, orders)
    ensures sequence[i].mainArtifact in StateArtifacts(sequence, orders)
    ensures forall a | a in orders[i] :: a in StateArtifacts(sequence, orders)
    decreases |sequence|
  {
    var n := |sequence| - 1;
    if i < n {
      StateArtifactsHold(sequence[..n], orders[..n], i);
      assert sequence[..n][i] == sequence[i] && orders[..n][i] == orders[i];
    }
  }

  /** Appending one state's artifacts extends the sequence. */
  lemma StateArtifactsSnoc(sequence: seq<ProjectState>, orders: seq<seq<Artifact>>, s: ProjectState, order: seq<Artifact>)
    requires |orders| == |sequence|
    ensures StateArtifacts(sequence + [s], orders + [order]) == StateArtifacts(sequence, orders) + [s.pom, s.mainArtifact] + order
  {
    assert (sequence + [s])[..|sequence|] == sequence;
    assert (orders + [order])[..|orders|] == orders;
  }

  /** The loop of `afterProjectsRead` so far: the states visited and the artifacts added for them. */
  ghost predicate AddedSoFar(initial: seq<Artifact>, all: set<ProjectState>, remaining: set<ProjectState>,
                             sequence: seq<ProjectState>, orders: seq<seq<Artifact>>, added: seq<Artifact>)
  {
    && remaining <= all
    && Enumerates(sequence, all - remaining) && RuntimeManager.OrdersFit(sequence, orders)
    && added == initial + StateArtifacts(sequence, orders)
  }

  /** Visiting one more state keeps the loop's account. */
  lemma AddedOne(initial: seq<Artifact>, all: set<ProjectState>, remaining: set<ProjectState>,
                 sequence: seq<ProjectState>, orders: seq<seq<Artifact>>, added: seq<Artifact>,
                 s: ProjectState, order: seq<Artifact>)
    requires AddedSoFar(initial, all, remaining, sequence, orders, added)
    requires s in remaining && Enumerates(order, s.attachedArtifacts)
    ensures AddedSoFar(initial, all, remaining - {s}, sequence + [s], orders + [order],
                       added + [s.pom, s.mainArtifact] + order)
  {
    StateArtifactsSnoc(sequence, orders, s, order);
    assert added + [s.pom, s.mainArtifact] + order == initial + StateArtifacts(sequence + [s], orders + [order]);
    assert RuntimeManager.OrdersFit([s], [order]);
    RuntimeManager.OrdersFitConcat(sequence, orders, [s], [order]);
    assert Enumerates([s], {s});
    EnumeratesConcat(sequence, all - remaining, [s], {s});
    assert all - (remaining - {s}) == (all - remaining) + {s};
  }

  /** The states visited are among `states`, and every module of `states` has one of them. */
  ghost predicate CoversModules(sequence: seq<ProjectState>, states: set<ProjectState>)
  {
    && (forall i | 0 <= i < |sequence| :: sequence[i] in states)
    && (forall s | s in states :: exists i | 0 <= i < |sequence| :: sequence[i].project.key == s.project.key)
  }

  /**
   * The states held by a manager built from an iteration order of a set:
   * each is one of the set's states, and every module of the set has one.
   */
  lemma HeldStatesCover(order: seq<ProjectState>, states: set<ProjectState>, held: set<ProjectState>, sequence: seq<ProjectState>)
    requires Enumerates(order, states) && Enumerates(sequence, held)
    requires forall t | t in held :: t.project.key in Index(order) && Index(order)[t.project.key] == t
    requires forall k | k in Index(order) :: Index(order)[k] in held
    ensures CoversModules(sequence, states)
  {
    var index := Index(order);
    IndexHoldsEach(order, states);
    forall s | s in states
      ensures exists i | 0 <= i < |sequence| :: sequence[i].project.key == s.project.key
    {
      var k := s.project.key;
      assert index[k] in held;
      var i :| 0 <= i < |sequence| && sequence[i] == index[k];
    }
    forall i | 0 <= i < |sequence|
      ensures sequence[i] in states
    {
      assert sequence[i] in held;
      assert index[sequence[i].project.key] in order;
    }
  }

  /**
   * How `afterProjectsRead` ends: normally, with a `MavenExecutionException`
   * carrying a message and its cause, or with an exception that escapes it.
   */
  datatype LifecycleOutcome = Proceed | MavenExecution(message: string, cause: Error) | Escaped(error: Error)

  /** A failure to load the saved states: I/O and project-building failures are wrapped, others escape. */
  function AcquireFailure(e: Error): (r: LifecycleOutcome)
    ensures e.IOFailure? || e.ProjectBuildingFailure? <==> r == MavenExecution("Cannot acquire saved reactor state", e)
    ensures !(e.IOFailure? || e.ProjectBuildingFailure?) ==> r == Escaped(e)
  {
    if e.IOFailure? || e.ProjectBuildingFailure? then MavenExecution("Cannot acquire saved reactor state", e) else Escaped(e)
  }

  /** `ReactorStateWorkspaceReader`. */
  class ReactorStateWorkspaceReader {
    /** The workspace repository; Aether gives it a random key. */
    const repository: string
    /** `artifactLookupMap`: versionless id to artifact. */
    var lookup: map<string, Artifact>
    /** Every artifact added so far, in order. */
    ghost var added: seq<Artifact>

    /** The map is the index of the artifacts added. */
    ghost predicate Valid()
      reads this
    {
      lookup == ArtifactIndex(added)
    }

    constructor (repositoryKey: string)
      ensures Valid() && added == [] && lookup == map[]
      ensures repository == repositoryKey
    {
      repository := repositoryKey;
      lookup := map[];
      added := [];
    }

    /** `getRepository`: the same repository every time. */
    function GetRepository(): (r: string)
      ensures r == repository
    {
      repository
    }

    /** `add`: the artifact put under its versionless id, replacing what was there. */
    method Add(a: Artifact)
      requires Valid()
      modifies this
      ensures Valid() && added == old(added) + [a]
      ensures lookup == old(lookup)[Key(a) := a]
    {
      assert (added + [a])[..|added|] == added;
      lookup := lookup[Key(a) := a];
      added := added + [a];
    }

    /** One state's artifacts added: the POM, the main artifact, then each attached artifact. */
    method AddState(s: ProjectState) returns (ghost order: seq<Artifact>)
      requires Valid()
      modifies this
      ensures Valid() && Enumerates(order, s.attachedArtifacts)
      ensures added == old(added) + [s.pom, s.mainArtifact] + order
    {
      Add(s.pom);
      Add(s.mainArtifact);
      order := [];
      var remaining := s.attachedArtifacts;
      while remaining != {}
        invariant Valid() && remaining <= s.attachedArtifacts
        invariant Enumerates(order, s.attachedArtifacts - remaining)
        invariant added == old(added) + [s.pom, s.mainArtifact] + order
        decreases remaining
      {
        var a :| a in remaining;
        Add(a);
        EnumeratesConcat(order, s.attachedArtifacts - remaining, [a], {a});
        assert s.attachedArtifacts - (remaining - {a}) == (s.attachedArtifacts - remaining) + {a};
        order := order + [a];
        remaining := remaining - {a};
      }
      assert s.attachedArtifacts - remaining == s.attachedArtifacts;
    }

    /**
     * The loop of `afterProjectsRead`: every state the manager holds, in
     * the order the set is iterated, has its artifacts added.
     */
    method AddStates(m: StateManager) returns (ghost sequence: seq<ProjectState>, ghost orders: seq<seq<Artifact>>)
      requires Valid() && m.Valid()
      modifies this
      ensures Valid() && Enumerates(sequence, m.GetProjectStates()) && RuntimeManager.OrdersFit(sequence, orders)
      ensures added == old(added) + StateArtifacts(sequence, orders)
    {
      var all := m.GetProjectStates();
      var remaining := all;
      sequence, orders := [], [];
      while remaining != {}
        invariant Valid() && AddedSoFar(old(added), all, remaining, sequence, orders, added)
        decreases remaining
      {
        var s :| s in remaining;
        ghost var before := added;
        var order := AddState(s);
        AddedOne(old(added), all, remaining, sequence, orders, before, s, order);
        sequence, orders := sequence + [s], orders + [order];
        remaining := remaining - {s};
      }
      assert all - remaining == all;
    }

    /** The loop of `afterProjectsRead` on a manager built from the loaded states. */
    method AddLoaded(m: StateManager, ghost loaded: set<ProjectState>)
      returns (ghost sequence: seq<ProjectState>, ghost orders: seq<seq<Artifact>>)
      requires Valid() && m.Valid()
      requires Enumerates(m.insertionOrder, loaded) && m.projectStates == Index(m.insertionOrder)
      modifies this
      ensures Valid() && RuntimeManager.OrdersFit(sequence, orders)
      ensures added == old(added) + StateArtifacts(sequence, orders)
      ensures CoversModules(sequence, loaded)
    {
      sequence, orders := AddStates(m);
      HeldStatesCover(m.insertionOrder, loaded, m.GetProjectStates(), sequence);
    }

    /**
     * `afterProjectsRead`: the saved states of the build's modules are
     * loaded, and a failure leaves the index as it was; otherwise each
     * loaded state's artifacts are added. `order` is the order the modules
     * were loaded in.
     */
    method AfterProjectsRead(graph: ProjectGraph, session: seq<ProjectInfo>, current: ProjectInfo, isExecutionRoot: bool,
                             fs: FileSystem<Table>)
      returns (outcome: LifecycleOutcome, ghost order: seq<ProjectInfo>, ghost sequence: seq<ProjectState>, ghost orders: seq<seq<Artifact>>)
      requires Valid()
      modifies this
      ensures Valid()
      ensures Discover(graph, session, current, isExecutionRoot).Err? ==> !outcome.Proceed?
      ensures Discover(graph, session, current, isExecutionRoot).Ok? ==>
        && Enumerates(order, Modules(Discover(graph, session, current, isExecutionRoot).value))
        && (outcome.Proceed? <==> LoadAll(fs, order).Ok?)
        && (!outcome.Proceed? ==> outcome == AcquireFailure(LoadAll(fs, order).error))
      ensures !outcome.Proceed? ==> added == old(added) && lookup == old(lookup)
      ensures outcome.Proceed? ==>
        && RuntimeManager.OrdersFit(sequence, orders)
        && added == old(added) + StateArtifacts(sequence, orders)
        && CoversModules(sequence, LoadAll(fs, order).value)
    {
      var manager;
      manager, order := CreateSaved(graph, session, current, isExecutionRoot, fs);
      if manager.Err? {
        outcome := AcquireFailure(manager.error);
        sequence, orders := [], [];
        return;
      }
      assert Discover(graph, session, current, isExecutionRoot).Ok?;
      sequence, orders := AddLoaded(manager.value, LoadAll(fs, order).value);
      outcome := Proceed;
    }

    /**
     * `findArtifact`: the file of the artifact held under the query's
     * versionless id when it has the query's base id; otherwise none.
     */
    function FindArtifact(q: Artifact): (r: Option<Path>)
      requires Valid()
      reads this
      ensures r.Some? ==> exists i | 0 <= i < |added| :: added[i].file == r && EqualsBaseId(q.coords, Some(added[i]))
    {
      var k := ToVersionlessId(q.coords);
      if k in lookup && EqualsBaseId(q.coords, Some(lookup[k])) then lookup[k].file else None
    }

    /**
     * `findVersions`: the version of that same artifact, or no version;
     * whenever `findArtifact` finds a file, there is a version.
     */
    function FindVersions(q: Artifact): (r: seq<string>)
      requires Valid()
      reads this
      ensures |r| <= 1
      ensures |r| == 1 ==> exists i | 0 <= i < |added| ::
        r[0] == added[i].coords.version && EqualsBaseId(q.coords, Some(added[i]))
      ensures FindArtifact(q).Some? ==> |r| == 1
    {
      var k := ToVersionlessId(q.coords);
      if k in lookup && EqualsBaseId(q.coords, Some(lookup[k])) then [lookup[k].coords.version] else []
    }

    /**
     * The lookup's promise: an added artifact that no later artifact of the
     * same versionless id replaced is found, by any query with its base id,
     * with its file and its version.
     */
    lemma FindsLastAdded(q: Artifact, i: nat)
      requires Valid() && i < |added|
      requires EqualsBaseId(q.coords, Some(added[i]))
      requires forall j | i < j < |added| :: Key(added[j]) != Key(added[i])
      ensures FindArtifact(q) == added[i].file
      ensures FindVersions(q) == [added[i].coords.version]
    {
      ArtifactIndexLastWins(added, i);
      SameBaseIdSameKey(q.coords, added[i]);
    }

    /** A query whose versionless id nothing added has finds neither a file nor a version. */
    lemma FindsNothingUnknown(q: Artifact)
      requires Valid()
      requires forall i | 0 <= i < |added| :: Key(added[i]) != ToVersionlessId(q.coords)
      ensures FindArtifact(q).None? && FindVersions(q) == []
    {
    }
  }
}
