/**
 * `SavedReactorStateManager`: the states the earlier builds saved, loaded
 * for every module of the session and of the workspace found from it, and
 * restored onto the session's modules.
 */
module SavedManager {
  import opened Wrappers
  import opened Collections
  import opened FileSystems
  import opened Artifacts
  import opened Projects
  import opened ProjectStates
  import opened FlatCodec
  import opened LegacyCodec
  import opened StateManagers
  import opened Workspace
  import RuntimeManager

  /** Loading the state of one module: what the loop of `create` does per module. */
  type Loader = ProjectInfo -> Result<Option<ProjectState>>

  /**
   * The loading loop of `create` over the modules in the order given, with
   * `load` loading one module: the states found, with the modules without a
   * state left out, up to the first module that fails.
   */
  function LoadEach(load: Loader, projects: seq<ProjectInfo>): (r: Result<set<ProjectState>>)
    ensures r.Ok? <==> forall i | 0 <= i < |projects| :: load(projects[i]).Ok?
    decreases |projects|
  {
    if |projects| == 0 then Ok({})
    else
      var prefix := projects[..|projects| - 1];
      assert forall i | 0 <= i < |prefix| :: prefix[i] == projects[i];
      var states :- LoadEach(load, prefix);
      var state :- load(projects[|projects| - 1]);
      Ok(if state.Some? then states + {state.value} else states)
  }

  /** `create`'s loop with `loadProjectState` reading each module's state file. */
  function LoadAll(fs: FileSystem<Table>, projects: seq<ProjectInfo>): Result<set<ProjectState>>
  {
    LoadEach(p => LoadState(p, fs), projects)
  }

  /** Every state loaded is what `load` gives for one of the modules. */
  lemma {:induction false} LoadEachMembers(load: Loader, projects: seq<ProjectInfo>, s: ProjectState)
    requires LoadEach(load, projects).Ok? && s in LoadEach(load, projects).value
    ensures exists i | 0 <= i < |projects| :: load(projects[i]) == Ok(Some(s))
    decreases |projects|
  {
    var prefix := projects[..|projects| - 1];
    var last := load(projects[|projects| - 1]);
    if s in LoadEach(load, prefix).value {
      LoadEachMembers(load, prefix, s);
      var i :| 0 <= i < |prefix| && load(prefix[i]) == Ok(Some(s));
      assert prefix[i] == projects[i];
    } else {
      assert last == Ok(Some(s));
    }
  }

  /** Every module that gives a state contributes it. */
  lemma {:induction false} LoadEachHoldsEach(load: Loader, projects: seq<ProjectInfo>, i: nat)
    requires LoadEach(load, projects).Ok? && i < |projects|
    requires load(projects[i]).Ok? && load(projects[i]).value.Some?
    ensures load(projects[i]).value.value in LoadEach(load, projects).value
    decreases |projects|
  {
    var prefix := projects[..|projects| - 1];
    if i < |prefix| {
      assert prefix[i] == projects[i];
      LoadEachHoldsEach(load, prefix, i);
    }
  }

  /** Once a module fails, the modules after it are not loaded. */
  lemma {:induction false} LoadEachStops(load: Loader, projects: seq<ProjectInfo>, later: seq<ProjectInfo>)
    requires LoadEach(load, projects).Err?
    ensures LoadEach(load, projects + later) == LoadEach(load, projects)
    decreases |later|
  {
    if |later| > 0 {
      var all := projects + later;
      var front := later[..|later| - 1];
      assert all[..|all| - 1] == projects + front;
      LoadEachStops(load, projects, front);
      assert LoadEach(load, all) == Err(LoadEach(load, projects + front).error);
    } else {
      assert projects + later == projects;
    }
  }

  /** One more module loaded after those of `order`. */
  lemma LoadEachSnoc(load: Loader, order: seq<ProjectInfo>, p: ProjectInfo, states: set<ProjectState>)
    requires LoadEach(load, order) == Ok(states)
    ensures load(p).Err? ==> LoadEach(load, order + [p]) == Err(load(p).error)
    ensures load(p).Ok? ==>
      LoadEach(load, order + [p]) == Ok(if load(p).value.Some? then states + {load(p).value.value} else states)
  {
    assert (order + [p])[..|order|] == order;
  }

  /** Every state `create` loads is the state of one of the modules, read from its own state file. */
  lemma LoadAllMembers(fs: FileSystem<Table>, projects: seq<ProjectInfo>)
    requires LoadAll(fs, projects).Ok?
    ensures forall s | s in LoadAll(fs, projects).value :: s.project in projects && LoadState(s.project, fs) == Ok(Some(s))
  {
    forall s | s in LoadAll(fs, projects).value
      ensures s.project in projects && LoadState(s.project, fs) == Ok(Some(s))
    {
      LoadEachMembers(p => LoadState(p, fs), projects, s);
      var i :| 0 <= i < |projects| && LoadState(projects[i], fs) == Ok(Some(s));
    }
  }

  /** Every module whose state file loads contributes its state. */
  lemma LoadAllHoldsEach(fs: FileSystem<Table>, projects: seq<ProjectInfo>, i: nat)
    requires LoadAll(fs, projects).Ok? && i < |projects|
    requires LoadState(projects[i], fs).Ok? && LoadState(projects[i], fs).value.Some?
    ensures LoadState(projects[i], fs).value.value in LoadAll(fs, projects).value
  {
    LoadEachHoldsEach(p => LoadState(p, fs), projects, i);
  }

  /** The modules visited so far, and the states they gave. */
  ghost predicate LoadedSoFar(fs: FileSystem<Table>, projects: set<ProjectInfo>, remaining: set<ProjectInfo>,
                              order: seq<ProjectInfo>, states: set<ProjectState>)
  {
    remaining <= projects && Enumerates(order, projects - remaining) && LoadAll(fs, order) == Ok(states)
  }

  lemma LoadVisitOne(fs: FileSystem<Table>, projects: set<ProjectInfo>, remaining: set<ProjectInfo>,
                     order: seq<ProjectInfo>, states: set<ProjectState>, p: ProjectInfo)
    requires LoadedSoFar(fs, projects, remaining, order, states) && p in remaining
    ensures remaining - {p} <= projects && Enumerates(order + [p], projects - (remaining - {p}))
    ensures LoadState(p, fs).Err? ==> LoadAll(fs, order + [p]) == Err(LoadState(p, fs).error)
    ensures LoadState(p, fs).Ok? ==> LoadedSoFar(fs, projects, remaining - {p}, order + [p],
      if LoadState(p, fs).value.Some? then states + {LoadState(p, fs).value.value} else states)
  {
    LoadEachSnoc(p => LoadState(p, fs), order, p, states);
    EnumeratesConcat(order, projects - remaining, [p], {p});
    assert projects - (remaining - {p}) == (projects - remaining) + {p};
  }

  lemma LoadVisitRest(fs: FileSystem<Table>, projects: set<ProjectInfo>, remaining: set<ProjectInfo>,
                      order: seq<ProjectInfo>, e: Error)
    returns (order': seq<ProjectInfo>)
    requires remaining <= projects && Enumerates(order, projects - remaining) && LoadAll(fs, order) == Err(e)
    ensures Enumerates(order', projects) && LoadAll(fs, order') == Err(e)
  {
    var later := EnumerationOf(remaining);
    LoadEachStops(p => LoadState(p, fs), order, later);
    EnumeratesConcat(order, projects - remaining, later, remaining);
    assert (projects - remaining) + remaining == projects;
    order' := order + later;
  }

  /** The loop of `create` over the set of modules, in the order the set is iterated. */
  method LoadProjectStates(fs: FileSystem<Table>, projects: set<ProjectInfo>)
    returns (r: Result<set<ProjectState>>, ghost order: seq<ProjectInfo>)
    ensures Enumerates(order, projects) && r == LoadAll(fs, order)
  {
    var states: set<ProjectState> := {};
    var remaining := projects;
    order := [];
    while remaining != {}
      invariant LoadedSoFar(fs, projects, remaining, order, states)
      decreases remaining
    {
      var p :| p in remaining;
      var state := LegacyCodec.LoadProjectState(p, fs);
      LoadVisitOne(fs, projects, remaining, order, states, p);
      order := order + [p];
      remaining := remaining - {p};
      if state.Err? {
        order := LoadVisitRest(fs, projects, remaining, order, state.error);
        return Err(state.error), order;
      }
      if state.value.Some? {
        states := states + {state.value.value};
      }
    }
    assert projects - remaining == projects;
    r := Ok(states);
  }

  /** The modules of a found workspace, one per module identity. */
  function Modules(d: ProjectSet): set<ProjectInfo>
  {
    set k | k in d :: d[k]
  }

  /**
   * `create`: the session's modules, and from the parent of the current
   * module when it is the execution root, every module of the workspace;
   * then the state of each loaded into a new manager. A module without a
   * state file has no state; a module descriptor that cannot be built or a
   * state file that cannot be read fails the whole creation.
   */
  method CreateSaved(graph: ProjectGraph, session: seq<ProjectInfo>, current: ProjectInfo, isExecutionRoot: bool,
                     fs: FileSystem<Table>)
    returns (r: Result<StateManager>, ghost order: seq<ProjectInfo>)
    ensures Discover(graph, session, current, isExecutionRoot).Err? ==> r.Err?
    ensures Discover(graph, session, current, isExecutionRoot).Ok? ==>
      && Enumerates(order, Modules(Discover(graph, session, current, isExecutionRoot).value))
      && (r.Ok? <==> LoadAll(fs, order).Ok?)
      && (r.Err? ==> r.error == LoadAll(fs, order).error)
    ensures r.Ok? ==>
      && fresh(r.value) && r.value.Valid()
      && Enumerates(r.value.insertionOrder, LoadAll(fs, order).value)
      && r.value.projectStates == Index(r.value.insertionOrder)
  {
    order := [];
    var discovery := new Discovery(graph, session);
    var parent := Workspace.Parent(graph, current);
    if isExecutionRoot && parent.Some? {
      var outcome := discovery.Contribute(parent.value);
      if outcome.Fail? {
        return Err(outcome.error), order;
      }
    }
    var loaded;
    loaded, order := LoadProjectStates(fs, Modules(discovery.discovered));
    if loaded.Err? {
      return Err(loaded.error), order;
    }
    var m := new StateManager(loaded.value);
    r := Ok(m);
  }

  /**
   * A manager created from the loaded states has an entry for every module
   * whose state file loads, and no entry for a module identity none of
   * whose modules has a state.
   */
  lemma CreatedFindsLoaded(fs: FileSystem<Table>, order: seq<ProjectInfo>, states: seq<ProjectState>)
    requires LoadAll(fs, order).Ok? && Enumerates(states, LoadAll(fs, order).value)
    ensures forall i | 0 <= i < |order| && LoadState(order[i], fs).value.Some? ::
      order[i].key in Index(states) && Index(states)[order[i].key] in LoadAll(fs, order).value
    ensures forall k | k in Index(states) ::
      exists i | 0 <= i < |order| :: order[i].key == k && LoadState(order[i], fs) == Ok(Some(Index(states)[k]))
  {
    var loaded := LoadAll(fs, order).value;
    LoadAllMembers(fs, order);
    IndexHoldsEach(states, loaded);
    forall i | 0 <= i < |order| && LoadState(order[i], fs).value.Some?
      ensures order[i].key in Index(states) && Index(states)[order[i].key] in loaded
    {
      LoadAllHoldsEach(fs, order, i);
      assert LoadState(order[i], fs).value.value.project == order[i];
    }
    forall k | k in Index(states)
      ensures exists i | 0 <= i < |order| :: order[i].key == k && LoadState(order[i], fs) == Ok(Some(Index(states)[k]))
    {
      var s := Index(states)[k];
      assert s in loaded;
      var i :| 0 <= i < |order| && order[i] == s.project;
    }
  }

  /** The `IllegalStateException` of `restoreProjectStates` for a module without a state. */
  function MissingState(project: ProjectInfo): (e: Error)
    ensures e.IllegalState?
  {
    IllegalState("No saved state found for Maven project " + ProjectId(project) + ": Rebuild required.")
  }

  /**
   * `MavenProjectHelper.attachArtifact` of a restored artifact: its
   * extension, classifier and file on the module's own group, artifact id
   * and version, with no properties.
   */
  function Reattached(main: Artifact, a: Artifact): (r: Artifact)
    ensures r.coords.extension == a.coords.extension && r.coords.classifier == a.coords.classifier && r.file == a.file
    ensures r.coords.groupId == main.coords.groupId && r.coords.artifactId == main.coords.artifactId
    ensures r.coords.version == main.coords.version && r.properties == map[]
  {
    Artifact(Coordinates(main.coords.groupId, main.coords.artifactId, a.coords.extension, a.coords.classifier, main.coords.version),
      a.file, map[])
  }

  function ReattachedAll(main: Artifact, order: seq<Artifact>): (r: seq<Artifact>)
    ensures |r| == |order| && forall i | 0 <= i < |order| :: r[i] == Reattached(main, order[i])
  {
    seq(|order|, i requires 0 <= i < |order| => Reattached(main, order[i]))
  }

  /** The module holds the restored main file and, in `order`, its restored attached artifacts. */
  ghost predicate RestoredFrom(before: Artifact, p: LiveProject, st: ProjectState, order: seq<Artifact>)
    reads p
  {
    && p.artifact == before.(file := st.mainArtifact.file)
    && Enumerates(order, st.attachedArtifacts)
    && p.attachedArtifacts == ReattachedAll(p.artifact, order)
  }

  /** The body of the loop of `restoreProjectStates` for one module and its state. */
  method RestoreProject(p: LiveProject, st: ProjectState) returns (ghost order: seq<Artifact>)
    modifies p
    ensures RestoredFrom(old(p.artifact), p, st, order)
  {
    p.artifact := p.artifact.(file := st.mainArtifact.file);
    p.attachedArtifacts := [];
    order := [];
    var remaining := st.attachedArtifacts;
    while remaining != {}
      invariant remaining <= st.attachedArtifacts
      invariant Enumerates(order, st.attachedArtifacts - remaining)
      invariant p.artifact == old(p.artifact).(file := st.mainArtifact.file)
      invariant p.attachedArtifacts == ReattachedAll(p.artifact, order)
      decreases remaining
    {
      var a :| a in remaining;
      p.attachedArtifacts := p.attachedArtifacts + [Reattached(p.artifact, a)];
      EnumeratesConcat(order, st.attachedArtifacts - remaining, [a], {a});
      order := order + [a];
      assert st.attachedArtifacts - (remaining - {a}) == (st.attachedArtifacts - remaining) + {a};
      remaining := remaining - {a};
    }
    assert st.attachedArtifacts - remaining == st.attachedArtifacts;
  }

  /**
   * `restoreProjectStates`: each module, in the order the set is iterated,
   * gets its saved main file and its saved attached artifacts; the first
   * module without a state stops the restore with an `IllegalStateException`,
   * leaving the modules visited before it restored and the others untouched.
   */
  method RestoreProjectStates(m: StateManager, projects: set<LiveProject>)
    returns (outcome: Outcome, ghost orders: map<LiveProject, seq<Artifact>>)
    requires m.Valid()
    modifies projects
    ensures outcome.Pass? <==> forall p | p in projects :: m.GetProjectState(p.info).Some?
    ensures outcome.Pass? ==> orders.Keys == projects
    ensures forall p | p in orders ::
      p in projects && m.GetProjectState(p.info).Some? &&
      RestoredFrom(old(p.artifact), p, m.GetProjectState(p.info).value, orders[p])
    ensures forall p | p in projects && p !in orders :: unchanged(p)
    ensures outcome.Fail? ==>
      exists p | p in projects && p !in orders :: m.GetProjectState(p.info).None? && outcome.error == MissingState(p.info)
  {
    orders := map[];
    var remaining := projects;
    outcome := Pass;
    while remaining != {}
      invariant remaining <= projects && orders.Keys == projects - remaining
      invariant forall p | p in orders ::
        m.GetProjectState(p.info).Some? &&
        RestoredFrom(old(p.artifact), p, m.GetProjectState(p.info).value, orders[p])
      invariant forall p | p in remaining :: unchanged(p)
      decreases remaining
    {
      var p :| p in remaining;
      var st := m.GetProjectState(p.info);
      if st.None? {
        return Fail(MissingState(p.info)), orders;
      }
      var order := RestoreProject(p, st.value);
      orders := orders[p := order];
      remaining := remaining - {p};
    }
  }

  /** An attached artifact the running build would have attached to the module itself. */
  predicate OwnAttachment(main: Artifact, a: Artifact)
  {
    && a.coords.groupId == main.coords.groupId && a.coords.artifactId == main.coords.artifactId
    && a.coords.version == main.coords.version && a.properties == map[]
  }

  /**
   * A restored module, captured again by the running build, carries the
   * saved attached artifacts when they are its own, and the saved main file
   * unless its main artifact is a POM.
   */
  lemma RestoreThenCapture(info: ProjectInfo, before: Artifact, st: ProjectState, order: seq<Artifact>)
    requires Enumerates(order, st.attachedArtifacts)
    requires forall a | a in st.attachedArtifacts :: OwnAttachment(before, a)
    ensures var restored := before.(file := st.mainArtifact.file);
      var captured := RuntimeManager.BuildProjectState(info, restored, ReattachedAll(restored, order));
      && captured.attachedArtifacts == st.attachedArtifacts
      && (before.coords.extension != "pom" ==> captured.mainArtifact.file == st.mainArtifact.file)
  {
    var restored := before.(file := st.mainArtifact.file);
    var again := ReattachedAll(restored, order);
    forall a | a in st.attachedArtifacts
      ensures a in again
    {
      var i :| 0 <= i < |order| && order[i] == a;
      assert again[i] == a;
    }
    forall b | b in again
      ensures b in st.attachedArtifacts
    {
      var i :| 0 <= i < |again| && again[i] == b;
      assert order[i] in st.attachedArtifacts;
      assert b == order[i];
    }
  }
}
