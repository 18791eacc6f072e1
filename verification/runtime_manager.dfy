/**
 * `RuntimeReactorStateManager`: the states of the modules of a running
 * build, captured from the live modules, and saved one module at a time in
 * the older flat state file.
 */
module RuntimeManager {
  import opened Wrappers
  import opened Collections
  import opened Paths
  import opened FileSystems
  import opened Artifacts
  import opened Projects
  import opened ProjectStates
  import opened FlatCodec
  import opened LegacyCodec
  import opened StateManagers

  /**
   * `buildProjectState`: the POM derived from the main artifact, with the
   * module's descriptor as its file; a main artifact of extension `pom` is
   * replaced by that POM; the attached artifacts as a set.
   */
  function BuildProjectState(info: ProjectInfo, artifact: Artifact, attached: seq<Artifact>): (s: ProjectState)
    ensures s.project == info
    ensures s.pom.coords == PomCoordinates(artifact.coords) && s.pom.file == Some(info.file)
    ensures s.pom.properties == (if IsPomArtifact(artifact) then artifact.properties else map[])
    ensures artifact.coords.extension == "pom" ==> s.mainArtifact == s.pom
    ensures artifact.coords.extension != "pom" ==> s.mainArtifact == artifact
    ensures forall a :: a in s.attachedArtifacts <==> a in attached
  {
    var pom := ToPomArtifact(artifact).(file := Some(info.file));
    var main := if artifact.coords.extension == "pom" then pom else artifact;
    ProjectState(info, pom, main, set a | a in attached)
  }

  /** The state `buildProjectState` captures from a live module. */
  function Capture(p: LiveProject): ProjectState
    reads p
  {
    BuildProjectState(p.info, p.artifact, p.attachedArtifacts)
  }

  /** The states captured from the first `n` modules of a session. */
  ghost function CapturedBefore(session: seq<LiveProject>, n: nat): set<ProjectState>
    requires n <= |session|
    reads session
  {
    set i | 0 <= i < n :: Capture(session[i])
  }

  /** The states captured from the modules of a session. */
  ghost function Captured(session: seq<LiveProject>): set<ProjectState>
    reads session
  {
    CapturedBefore(session, |session|)
  }

  predicate DistinctModules(session: seq<LiveProject>)
  {
    forall i, j | 0 <= i < j < |session| :: session[i].info.key != session[j].info.key
  }

  /** One more module captured; with distinct modules its state is a new one. */
  lemma CaptureStep(session: seq<LiveProject>, n: nat)
    requires n < |session|
    ensures CapturedBefore(session, n + 1) == CapturedBefore(session, n) + {Capture(session[n])}
    ensures DistinctModules(session) ==> Capture(session[n]) !in CapturedBefore(session, n)
  {
    if DistinctModules(session) {
      forall t | t in CapturedBefore(session, n)
        ensures t.project.key != session[n].info.key
      {
        var j :| 0 <= j < n && Capture(session[j]) == t;
        assert t.project.key == session[j].info.key;
      }
    }
  }

  /** The loop of `create`: one state built per module of the session. */
  method CaptureAll(session: seq<LiveProject>) returns (states: set<ProjectState>)
    ensures states == Captured(session)
    ensures DistinctModules(session) ==> |states| == |session|
  {
    states := {};
    for i := 0 to |session|
      invariant states == CapturedBefore(session, i)
      invariant DistinctModules(session) ==> |states| == i
    {
      var p := session[i];
      var s := BuildProjectState(p.info, p.artifact, p.attachedArtifacts);
      CaptureStep(session, i);
      states := states + {s};
    }
  }

  /** Distinct modules give states of distinct modules. */
  lemma CapturedOnePerModule(session: seq<LiveProject>)
    requires DistinctModules(session)
    ensures forall s, t | s in Captured(session) && t in Captured(session) && s.project.key == t.project.key :: s == t
  {
    forall s, t | s in Captured(session) && t in Captured(session) && s.project.key == t.project.key
      ensures s == t
    {
      var i :| 0 <= i < |session| && Capture(session[i]) == s;
      var j :| 0 <= j < |session| && Capture(session[j]) == t;
      assert session[i].info.key == session[j].info.key;
      assert i == j;
    }
  }

  /** Over distinct modules, the map holds each module's own state, one entry per module. */
  lemma DistinctSessionIndexed(session: seq<LiveProject>, order: seq<ProjectState>)
    requires DistinctModules(session) && |Captured(session)| == |session|
    requires Enumerates(order, Captured(session))
    ensures |Index(order)| == |session|
    ensures forall i | 0 <= i < |session| ::
      session[i].info.key in Index(order) && Index(order)[session[i].info.key] == Capture(session[i])
  {
    CapturedOnePerModule(session);
    IndexOfDistinct(order, Captured(session));
    IndexSizeOfDistinct(order, Captured(session));
    forall i | 0 <= i < |session|
      ensures session[i].info.key in Index(order) && Index(order)[session[i].info.key] == Capture(session[i])
    {
      assert Capture(session[i]) in Captured(session);
    }
  }

  /**
   * `create`: one state per module of the session, put into a new manager.
   * Distinct modules give one entry each, holding the module's own state.
   */
  method Create(session: seq<LiveProject>) returns (m: StateManager)
    ensures fresh(m) && m.Valid()
    ensures Enumerates(m.insertionOrder, Captured(session)) && m.projectStates == Index(m.insertionOrder)
    ensures DistinctModules(session) ==>
      |m.projectStates| == |session| &&
      forall i | 0 <= i < |session| ::
        session[i].info.key in m.projectStates && m.projectStates[session[i].info.key] == Capture(session[i])
  {
    var states := CaptureAll(session);
    m := new StateManager(states);
    if DistinctModules(session) {
      DistinctSessionIndexed(session, m.insertionOrder);
    }
  }

  /** Where `saveProjectState` can make the build directory: it exists, or its parent does and no file is in its place. */
  predicate CanMakeBuildDirectory(fs: FileSystem<Table>, project: ProjectInfo)
  {
    var b := BuildPath(project);
    IsDirectory(fs, b) || (!ParentMissing(fs, b) && !FileAt(fs, Located(fs, b)))
  }

  /** Where `saveProjectState` can write: the build directory can be made and the state file is not a directory. */
  predicate CanSave(fs: FileSystem<Table>, project: ProjectInfo)
  {
    CanMakeBuildDirectory(fs, project) && !IsDirectory(fs, PropertiesPath(project))
  }

  /** The state file's parent, located, is the build directory, located. */
  lemma StateFileInBuildDirectory(fs: FileSystem<Table>, project: ProjectInfo)
    ensures |Located(fs, PropertiesPath(project)).names| > 0
    ensures Parent(Located(fs, PropertiesPath(project))) == Located(fs, BuildPath(project))
  {
    var p, b := PropertiesPath(project), BuildPath(project);
    assert p.names == b.names + [StateFileName];
    assert Located(fs, p).names == Located(fs, b).names + [StateFileName];
  }

  /**
   * `saveProjectState` with the attached artifacts visited in `order`: the
   * build directory made when missing, then the older table written to the
   * state file.
   */
  function SaveOne(fs: FileSystem<Table>, s: ProjectState, order: seq<Artifact>): (r: Saved<Table>)
    ensures r.outcome.Pass? <==> CanSave(fs, s.project) && EncodeLegacy(s, order).Ok?
    ensures r.outcome.Pass? ==>
      ReadFile(r.files, PropertiesPath(s.project)) == Ok(EncodeLegacy(s, order).value)
      && IsDirectory(r.files, BuildPath(s.project)) && IsReadable(r.files, PropertiesPath(s.project))
    ensures r.files.cwd == fs.cwd && fs.readable <= r.files.readable && fs.directories <= r.files.directories
  {
    match EnsureDirectory(fs, BuildPath(s.project), false)
    case Err(e) => Saved(fs, Fail(e))
    case Ok(fs1) =>
      match EncodeLegacy(s, order)
      case Err(e) => Saved(fs1, Fail(e))
      case Ok(t) =>
        StateFileInBuildDirectory(fs1, s.project);
        StateFileInBuildDirectory(fs, s.project);
        match WriteFile(fs1, PropertiesPath(s.project), t)
        case Err(e) => Saved(fs1, Fail(e))
        case Ok(fs2) => Saved(fs2, Pass)
  }

  /** `saveProjectState` touches no file but the state file. */
  lemma SaveOneKeeps(fs: FileSystem<Table>, s: ProjectState, order: seq<Artifact>, q: Path)
    requires q != Located(fs, PropertiesPath(s.project)) && q in fs.contents
    ensures q in SaveOne(fs, s, order).files.contents
    ensures SaveOne(fs, s, order).files.contents[q] == fs.contents[q]
  {
  }

  /** Saving one state with its attached artifacts' order: what `saveProjectStates` does per state. */
  type SaveStep = (FileSystem<Table>, ProjectState, seq<Artifact>) -> Saved<Table>

  /** The loop of `saveProjectStates`: `step` on each state in the order given, up to the first that throws. */
  function SaveEach(step: SaveStep, fs: FileSystem<Table>, states: seq<ProjectState>, orders: seq<seq<Artifact>>): Saved<Table>
    requires |orders| == |states|
    decreases |states|
  {
    if |states| == 0 then Saved(fs, Pass)
    else
      var r := step(fs, states[0], orders[0]);
      if r.outcome.Fail? then r
      else SaveEach(step, r.files, states[1..], orders[1..])
  }

  /** `saveProjectStates` with `saveProjectState` as its step. */
  function SaveAll(fs: FileSystem<Table>, states: seq<ProjectState>, orders: seq<seq<Artifact>>): Saved<Table>
    requires |orders| == |states|
  {
    SaveEach(SaveOne, fs, states, orders)
  }

  /** One more state: its step runs on the files the earlier ones left, unless one of them threw. */
  lemma {:induction false} SaveEachSnoc(step: SaveStep, fs: FileSystem<Table>, states: seq<ProjectState>,
                                       orders: seq<seq<Artifact>>, s: ProjectState, order: seq<Artifact>)
    requires |orders| == |states|
    ensures SaveEach(step, fs, states + [s], orders + [order]) ==
      (var r := SaveEach(step, fs, states, orders); if r.outcome.Fail? then r else step(r.files, s, order))
    decreases |states|
  {
    if |states| == 0 {
      assert states + [s] == [s] && orders + [order] == [order];
    } else {
      assert (states + [s])[1..] == states[1..] + [s];
      assert (orders + [order])[1..] == orders[1..] + [order];
      var r := step(fs, states[0], orders[0]);
      if r.outcome.Pass? {
        SaveEachSnoc(step, r.files, states[1..], orders[1..], s, order);
      }
    }
  }

  /** Once a step has thrown, the states after it are not saved. */
  lemma {:induction false} SaveEachStops(step: SaveStep, fs: FileSystem<Table>, states: seq<ProjectState>,
                                        orders: seq<seq<Artifact>>, later: seq<ProjectState>, laterOrders: seq<seq<Artifact>>)
    requires |orders| == |states| && |laterOrders| == |later|
    requires SaveEach(step, fs, states, orders).outcome.Fail?
    ensures SaveEach(step, fs, states + later, orders + laterOrders) == SaveEach(step, fs, states, orders)
    decreases |states|
  {
    assert (states + later)[0] == states[0] && (orders + laterOrders)[0] == orders[0];
    var r := step(fs, states[0], orders[0]);
    if r.outcome.Pass? {
      assert (states + later)[1..] == states[1..] + later;
      assert (orders + laterOrders)[1..] == orders[1..] + laterOrders;
      SaveEachStops(step, r.files, states[1..], orders[1..], later, laterOrders);
    }
  }

  /** The state files of distinct modules are distinct files. */
  ghost predicate DistinctStateFiles(fs: FileSystem<Table>, states: seq<ProjectState>)
  {
    forall i, j | 0 <= i < j < |states| ::
      Located(fs, PropertiesPath(states[i].project)) != Located(fs, PropertiesPath(states[j].project))
  }

  /**
   * After every state is saved, each state file holds its own state's
   * table: a later save writes no other module's file.
   */
  lemma {:induction false} SaveAllWritesEach(fs: FileSystem<Table>, states: seq<ProjectState>, orders: seq<seq<Artifact>>)
    requires |orders| == |states| && SaveAll(fs, states, orders).outcome.Pass?
    requires DistinctStateFiles(fs, states)
    ensures forall i | 0 <= i < |states| ::
      ReadFile(SaveAll(fs, states, orders).files, PropertiesPath(states[i].project)) == EncodeLegacy(states[i], orders[i])
    decreases |states|
  {
    if |states| > 0 {
      var r := SaveOne(fs, states[0], orders[0]);
      var rest, restOrders := states[1..], orders[1..];
      assert SaveAll(fs, states, orders) == (if r.outcome.Fail? then r else SaveAll(r.files, rest, restOrders));
      assert DistinctStateFiles(r.files, rest) by {
        forall i, j | 0 <= i < j < |rest|
          ensures Located(r.files, PropertiesPath(rest[i].project)) != Located(r.files, PropertiesPath(rest[j].project))
        {
          assert rest[i] == states[i + 1] && rest[j] == states[j + 1];
        }
      }
      SaveAllWritesEach(r.files, rest, restOrders);
      FirstStateFileKept(fs, states, orders);
      forall i | 0 < i < |states|
        ensures ReadFile(SaveAll(r.files, rest, restOrders).files, PropertiesPath(states[i].project)) == EncodeLegacy(states[i], orders[i])
      {
        assert rest[i - 1] == states[i] && restOrders[i - 1] == orders[i];
      }
    }
  }

  /** The first state's file is not written again by the saves after it. */
  lemma FirstStateFileKept(fs: FileSystem<Table>, states: seq<ProjectState>, orders: seq<seq<Artifact>>)
    requires |orders| == |states| > 0 && SaveAll(fs, states, orders).outcome.Pass?
    requires DistinctStateFiles(fs, states)
    ensures ReadFile(SaveAll(fs, states, orders).files, PropertiesPath(states[0].project)) == EncodeLegacy(states[0], orders[0])
  {
    var r := SaveOne(fs, states[0], orders[0]);
    var rest, restOrders := states[1..], orders[1..];
    assert SaveAll(fs, states, orders) == (if r.outcome.Fail? then r else SaveAll(r.files, rest, restOrders));
    var q := Located(fs, PropertiesPath(states[0].project));
    assert r.files.cwd == fs.cwd;
    forall j | 0 <= j < |rest|
      ensures q != Located(r.files, PropertiesPath(rest[j].project))
    {
      assert rest[j] == states[j + 1];
      assert Located(r.files, PropertiesPath(states[j + 1].project)) == Located(fs, PropertiesPath(states[j + 1].project));
    }
    SaveAllKeeps(r.files, rest, restOrders, q);
  }

  /** Saving leaves alone every file that is not one of the states' files. */
  lemma {:induction false} SaveAllKeeps(fs: FileSystem<Table>, states: seq<ProjectState>, orders: seq<seq<Artifact>>, q: Path)
    requires |orders| == |states| && q in fs.contents
    requires forall j | 0 <= j < |states| :: q != Located(fs, PropertiesPath(states[j].project))
    ensures q in SaveAll(fs, states, orders).files.contents
    ensures SaveAll(fs, states, orders).files.contents[q] == fs.contents[q]
    ensures SaveAll(fs, states, orders).files.cwd == fs.cwd
    decreases |states|
  {
    if |states| > 0 {
      var r := SaveOne(fs, states[0], orders[0]);
      assert SaveAll(fs, states, orders) == (if r.outcome.Fail? then r else SaveAll(r.files, states[1..], orders[1..]));
      SaveOneKeeps(fs, states[0], orders[0], q);
      if r.outcome.Pass? {
        forall j | 0 <= j < |states[1..]|
          ensures q != Located(r.files, PropertiesPath(states[1..][j].project))
        {
          assert states[1..][j] == states[j + 1];
        }
        SaveAllKeeps(r.files, states[1..], orders[1..], q);
      }
    }
  }

  /** `saveProjectState`: the table built by the loop of `buildProjectStateProperties`, then written. */
  method SaveProjectState(fs: FileSystem<Table>, s: ProjectState) returns (r: Saved<Table>, ghost order: seq<Artifact>)
    ensures Enumerates(order, s.attachedArtifacts)
    ensures r == SaveOne(fs, s, order)
  {
    var made := EnsureDirectory(fs, BuildPath(s.project), false);
    var table;
    table, order := LegacyCodec.BuildProjectStateProperties(s);
    if made.Err? {
      return Saved(fs, Fail(made.error)), order;
    }
    if table.Err? {
      return Saved(made.value, Fail(table.error)), order;
    }
    var written := WriteFile(made.value, PropertiesPath(s.project), table.value);
    if written.Err? {
      return Saved(made.value, Fail(written.error)), order;
    }
    r := Saved(written.value, Pass);
  }

  /** An iteration order for each state's attached artifacts. */
  ghost function AttachedOrders(states: seq<ProjectState>): (r: seq<seq<Artifact>>)
    ensures |r| == |states|
    ensures forall i | 0 <= i < |states| :: Enumerates(r[i], states[i].attachedArtifacts)
  {
    seq(|states|, i requires 0 <= i < |states| => EnumerationOf(states[i].attachedArtifacts))
  }

  /** Each state's order enumerates its attached artifacts. */
  ghost predicate OrdersFit(states: seq<ProjectState>, orders: seq<seq<Artifact>>)
  {
    |orders| == |states| && forall i | 0 <= i < |states| :: Enumerates(orders[i], states[i].attachedArtifacts)
  }

  lemma OrdersFitConcat(p: seq<ProjectState>, po: seq<seq<Artifact>>, q: seq<ProjectState>, qo: seq<seq<Artifact>>)
    requires OrdersFit(p, po) && OrdersFit(q, qo)
    ensures OrdersFit(p + q, po + qo)
  {
    forall i | 0 <= i < |p + q|
      ensures Enumerates((po + qo)[i], (p + q)[i].attachedArtifacts)
    {
      if i < |p| {
        assert (po + qo)[i] == po[i] && (p + q)[i] == p[i];
      } else {
        assert (po + qo)[i] == qo[i - |p|] && (p + q)[i] == q[i - |p|];
      }
    }
  }

  /** What the loop of `saveProjectStates` has saved so far: the visited states, with their orders. */
  ghost predicate SavedSoFar(step: SaveStep, fs: FileSystem<Table>, all: set<ProjectState>, remaining: set<ProjectState>,
                             sequence: seq<ProjectState>, orders: seq<seq<Artifact>>, r: Saved<Table>)
  {
    && remaining <= all
    && Enumerates(sequence, all - remaining) && OrdersFit(sequence, orders)
    && r == SaveEach(step, fs, sequence, orders)
  }

  /** One more state visited by the loop of `saveProjectStates`. */
  lemma VisitOne(step: SaveStep, fs: FileSystem<Table>, all: set<ProjectState>, remaining: set<ProjectState>,
                 sequence: seq<ProjectState>, orders: seq<seq<Artifact>>, r: Saved<Table>,
                 s: ProjectState, order: seq<Artifact>)
    requires SavedSoFar(step, fs, all, remaining, sequence, orders, r) && r.outcome.Pass?
    requires s in remaining && Enumerates(order, s.attachedArtifacts)
    ensures SavedSoFar(step, fs, all, remaining - {s}, sequence + [s], orders + [order], step(r.files, s, order))
  {
    SaveEachSnoc(step, fs, sequence, orders, s, order);
    assert OrdersFit([s], [order]);
    OrdersFitConcat(sequence, orders, [s], [order]);
    assert Enumerates([s], {s});
    EnumeratesConcat(sequence, all - remaining, [s], {s});
    assert all - (remaining - {s}) == (all - remaining) + {s};
  }

  /**
   * After a state throws, the states not visited, in some order, complete
   * the iteration order without changing what was saved.
   */
  lemma VisitRest(step: SaveStep, fs: FileSystem<Table>, all: set<ProjectState>, remaining: set<ProjectState>,
                  sequence: seq<ProjectState>, orders: seq<seq<Artifact>>, r: Saved<Table>)
    returns (sequence': seq<ProjectState>, orders': seq<seq<Artifact>>)
    requires SavedSoFar(step, fs, all, remaining, sequence, orders, r) && r.outcome.Fail?
    ensures SavedSoFar(step, fs, all, {}, sequence', orders', r)
  {
    var later := EnumerationOf(remaining);
    SaveEachStops(step, fs, sequence, orders, later, AttachedOrders(later));
    OrdersFitConcat(sequence, orders, later, AttachedOrders(later));
    EnumeratesConcat(sequence, all - remaining, later, remaining);
    assert (all - remaining) + remaining == all - {};
    sequence', orders' := sequence + later, orders + AttachedOrders(later);
  }

  /**
   * `saveProjectStates`: every state of the manager, in the order its set
   * is iterated, saved until one throws.
   */
  method SaveProjectStates(m: StateManager, fs: FileSystem<Table>)
    returns (r: Saved<Table>, ghost sequence: seq<ProjectState>, ghost orders: seq<seq<Artifact>>)
    requires m.Valid()
    ensures Enumerates(sequence, m.GetProjectStates()) && |orders| == |sequence|
    ensures forall i | 0 <= i < |sequence| :: Enumerates(orders[i], sequence[i].attachedArtifacts)
    ensures r == SaveAll(fs, sequence, orders)
  {
    var all := m.GetProjectStates();
    var remaining := all;
    r := Saved(fs, Pass);
    sequence, orders := [], [];
    while remaining != {}
      invariant SavedSoFar(SaveOne, fs, all, remaining, sequence, orders, r) && r.outcome.Pass?
      decreases remaining
    {
      var s :| s in remaining;
      var saved;
      ghost var order;
      saved, order := SaveProjectState(r.files, s);
      VisitOne(SaveOne, fs, all, remaining, sequence, orders, r, s, order);
      sequence, orders := sequence + [s], orders + [order];
      remaining := remaining - {s};
      r := saved;
      if r.outcome.Fail? {
        sequence, orders := VisitRest(SaveOne, fs, all, remaining, sequence, orders, r);
        return;
      }
    }
    assert all - remaining == all;
  }

  /** Files readable before stay readable when files are only added. */
  lemma StoredFilesStayReadable(fs: FileSystem<Table>, after: FileSystem<Table>, s: ProjectState)
    requires LegacyEncodable(s) && s.mainArtifact.file.Some?
    requires StoredFilesReadable(fs, s)
    requires after.cwd == fs.cwd && fs.readable <= after.readable
    ensures StoredFilesReadable(after, s)
  {
    forall a | a in FlatRoundTrip.AllArtifacts(s)
      ensures IsReadable(after, Relativize(s.project.basedir, a.file.value))
    {
      assert IsReadable(fs, Relativize(s.project.basedir, a.file.value));
    }
  }

  /**
   * A state saved by the running build is what the next build's reader
   * loads for the module: every artifact with its path relative to the base
   * directory and without properties, given that those paths name readable
   * files and the build directory can be made.
   */
  lemma SaveThenLoad(fs: FileSystem<Table>, s: ProjectState, order: seq<Artifact>)
    requires LegacyEncodable(s) && s.mainArtifact.file.Some? && Enumerates(order, s.attachedArtifacts)
    requires StoredFilesReadable(fs, s) && CanSave(fs, s.project)
    ensures SaveOne(fs, s, order).outcome == Pass
    ensures LoadState(s.project, SaveOne(fs, s, order).files) == Ok(Some(StoredState(s)))
  {
    LegacyRoundTrip(s, order, fs);
    var after := SaveOne(fs, s, order).files;
    StoredFilesStayReadable(fs, after, s);
    LegacyRoundTrip(s, order, after);
  }
}
