/**
 * Finding the modules of a multi-module workspace from one of them: the
 * declared child modules are built from their descriptors and visited
 * depth first, then the parent, each project once.
 */
module Workspace {
  import opened Wrappers
  import Text
  import opened Paths
  import opened Projects

  /**
   * What the project builder can load: the project each descriptor file
   * describes, and the parent project of each parent reference.
   */
  datatype ProjectGraph = ProjectGraph(descriptors: map<Path, ProjectInfo>, parents: map<ProjectKey, ProjectInfo>)

  /**
   * A set of projects under `MavenProject.equals`, which compares group,
   * artifact and version: each key holds the project object first added.
   */
  type ProjectSet = map<ProjectKey, ProjectInfo>

  /** Every project the graph can hand out. */
  function Universe(g: ProjectGraph): set<ProjectKey>
  {
    (set d | d in g.descriptors :: g.descriptors[d].key) + (set k | k in g.parents :: g.parents[k].key)
  }

  /** The descriptor of a declared module: `basedir/module/pom.xml`. */
  function ModulePomPath(p: ProjectInfo, name: string): Path
  {
    Resolve(Resolve(p.basedir, Parse(name)), Path(false, ["pom.xml"]))
  }

  /** `projectBuilder.build(modulePomPath)`: fails where no project is described there. */
  function BuildModule(g: ProjectGraph, p: ProjectInfo, name: string): (r: Result<ProjectInfo>)
    ensures r.Ok? <==> ModulePomPath(p, name) in g.descriptors
    ensures r.Ok? ==> r.value == g.descriptors[ModulePomPath(p, name)]
  {
    var path := ModulePomPath(p, name);
    if path in g.descriptors then Ok(g.descriptors[path])
    else Err(ProjectBuildingFailure(Render(path)))
  }

  /** `MavenProject.getParent()`. */
  function Parent(g: ProjectGraph, p: ProjectInfo): (r: Option<ProjectInfo>)
    ensures r.Some? <==> p.parent.Some? && p.parent.value in g.parents
    ensures r.Some? ==> r.value == g.parents[p.parent.value]
  {
    if p.parent.Some? && p.parent.value in g.parents then Some(g.parents[p.parent.value]) else None
  }

  /** `d'` holds every project of `d`, each still the same object. */
  predicate Extends(d: ProjectSet, d': ProjectSet)
  {
    forall k | k in d :: k in d' && d'[k] == d[k]
  }

  lemma ExtendsAdd(d: ProjectSet, k: ProjectKey, v: ProjectInfo)
    requires k !in d
    ensures Extends(d, d[k := v])
  {
  }

  lemma ExtendsTrans(a: ProjectSet, b: ProjectSet, c: ProjectSet)
    requires Extends(a, b) && Extends(b, c)
    ensures Extends(a, c)
  {
  }

  lemma ExtendsThen(d: ProjectSet, d1: ProjectSet, r: Result<ProjectSet>)
    requires Extends(d, d1) && (r.Ok? ==> Extends(d1, r.value))
    ensures r.Ok? ==> Extends(d, r.value)
  {
  }

  /** `new HashSet<>(session.getProjects())`: a later project equal to an earlier one is not added. */
  function SessionProjects(session: seq<ProjectInfo>): (d: ProjectSet)
    ensures forall k | k in d :: d[k] in session && d[k].key == k
  {
    if |session| == 0 then map[]
    else
      var d := SessionProjects(session[..|session| - 1]);
      var last := session[|session| - 1];
      if last.key in d then d else d[last.key := last]
  }

  /** Every project of the session has its key in the set. */
  lemma {:induction false} SessionProjectsHold(session: seq<ProjectInfo>, i: nat)
    requires i < |session|
    ensures session[i].key in SessionProjects(session)
    decreases |session|
  {
    var n := |session| - 1;
    if i < n {
      SessionProjectsHold(session[..n], i);
      assert session[..n][i] == session[i];
    }
  }

  /** A project no earlier project of the session equals is the one the set holds. */
  lemma {:induction false} SessionProjectsFirstWins(session: seq<ProjectInfo>, i: nat)
    requires i < |session|
    requires forall j | 0 <= j < i :: session[j].key != session[i].key
    ensures session[i].key in SessionProjects(session) && SessionProjects(session)[session[i].key] == session[i]
    decreases |session|
  {
    var n := |session| - 1;
    var prefix := session[..n];
    var d := SessionProjects(prefix);
    var last := session[n];
    var key := session[i].key;
    assert SessionProjects(session) == if last.key in d then d else d[last.key := last];
    if i < n {
      assert prefix[i] == session[i];
      forall j | 0 <= j < i
        ensures prefix[j].key != prefix[i].key
      {
        assert prefix[j] == session[j];
      }
      SessionProjectsFirstWins(prefix, i);
      assert key in d && d[key] == session[i];
    } else {
      forall j | 0 <= j < n
        ensures prefix[j].key != key
      {
        assert prefix[j] == session[j];
      }
      assert key !in d;
    }
  }

  lemma SubsetSize(a: set<ProjectKey>, b: set<ProjectKey>)
    requires a <= b
    ensures |a| <= |b| && (a != b ==> |a| < |b|)
  {
    assert b == a + (b - a) && a * (b - a) == {};
    if a != b {
      var x :| x in b - a;
    }
  }

  lemma RemainingShrinks(u: set<ProjectKey>, d: set<ProjectKey>, d': set<ProjectKey>, k: ProjectKey)
    requires d <= d' && k in u && k !in d && k in d'
    ensures |u - d'| < |u - d|
  {
    assert k in u - d && k !in u - d';
    SubsetSize(u - d', u - d);
  }

  lemma RemainingNotGrowing(u: set<ProjectKey>, d: set<ProjectKey>, d': set<ProjectKey>)
    requires d <= d'
    ensures |u - d'| <= |u - d|
  {
    SubsetSize(u - d', u - d);
  }

  /**
   * `contributeWorkspaceProjects(p, d)`: the modules of `p` in order, each new
   * one added and explored at once, then the parent of `p` if it is new.
   */
  function Contributed(g: ProjectGraph, d: ProjectSet, p: ProjectInfo): (r: Result<ProjectSet>)
    ensures r.Ok? ==> Extends(d, r.value)
    decreases |Universe(g) - d.Keys|, 1, 0
  {
    var d1 :- ContributedModules(g, d, p, 0);
    var parent := Parent(g, p);
    if parent.Some? && parent.value.key !in d1 then
      var d2 := d1[parent.value.key := parent.value];
      RemainingShrinks(Universe(g), d.Keys, d2.Keys, parent.value.key);
      var r := Contributed(g, d2, parent.value);
      ExtendsAdd(d1, parent.value.key, parent.value);
      ExtendsTrans(d, d1, d2);
      ExtendsThen(d, d2, r);
      r
    else
      Ok(d1)
  }

  /** `Contributed` once the module loop has given `d1`: the parent step alone is left. */
  lemma ContributedAfterModules(g: ProjectGraph, d: ProjectSet, p: ProjectInfo, d1: ProjectSet)
    requires ContributedModules(g, d, p, 0) == Ok(d1)
    ensures Parent(g, p).Some? && Parent(g, p).value.key !in d1 ==>
      Contributed(g, d, p) == Contributed(g, d1[Parent(g, p).value.key := Parent(g, p).value], Parent(g, p).value)
    ensures !(Parent(g, p).Some? && Parent(g, p).value.key !in d1) ==> Contributed(g, d, p) == Ok(d1)
  {
  }

  /** The loop of `contributeWorkspaceProjects` over the modules of `p` from the `i`-th on. */
  function ContributedModules(g: ProjectGraph, d: ProjectSet, p: ProjectInfo, i: nat): (r: Result<ProjectSet>)
    requires i <= |p.modules|
    ensures r.Ok? ==> Extends(d, r.value)
    decreases |Universe(g) - d.Keys|, 0, |p.modules| - i
  {
    if i == |p.modules| then Ok(d)
    else
      var m :- BuildModule(g, p, p.modules[i]);
      if m.key in d then ContributedModules(g, d, p, i + 1)
      else
        var dm := d[m.key := m];
        RemainingShrinks(Universe(g), d.Keys, dm.Keys, m.key);
        var d1 :- Contributed(g, dm, m);
        ExtendsAdd(d, m.key, m);
        ExtendsTrans(d, dm, d1);
        RemainingNotGrowing(Universe(g), d.Keys, d1.Keys);
        var r := ContributedModules(g, d1, p, i + 1);
        ExtendsThen(d, d1, r);
        r
  }

  /**
   * `create`'s discovery step: the session's projects, and, only when the
   * current project is the execution root and has a parent, everything
   * found from that parent.
   */
  function Discover(g: ProjectGraph, session: seq<ProjectInfo>, current: ProjectInfo, isExecutionRoot: bool): (r: Result<ProjectSet>)
    ensures !(isExecutionRoot && Parent(g, current).Some?) ==> r == Ok(SessionProjects(session))
    ensures r.Ok? ==> Extends(SessionProjects(session), r.value)
  {
    var parent := Parent(g, current);
    if isExecutionRoot && parent.Some? then Contributed(g, SessionProjects(session), parent.value)
    else Ok(SessionProjects(session))
  }

  /** All modules of `p` and its parent are in `d`. */
  ghost predicate Explored(g: ProjectGraph, d: ProjectSet, p: ProjectInfo)
  {
    && (forall i | 0 <= i < |p.modules| :: BuildModule(g, p, p.modules[i]).Ok? && BuildModule(g, p, p.modules[i]).value.key in d)
    && (Parent(g, p).Some? ==> Parent(g, p).value.key in d)
  }

  /**
   * A successful traversal is closed: the start project and every project it
   * added have all their modules and their parent in the result. Projects
   * present beforehand are not explored.
   */
  lemma {:induction false} ContributedIsClosed(g: ProjectGraph, d: ProjectSet, p: ProjectInfo)
    requires Contributed(g, d, p).Ok?
    ensures Explored(g, Contributed(g, d, p).value, p)
    ensures var d' := Contributed(g, d, p).value;
      forall k | k in d' && k !in d :: Explored(g, d', d'[k])
    decreases |Universe(g) - d.Keys|, 1, 0, 0
  {
    var d1 := ContributedModules(g, d, p, 0).value;
    ContributedModulesAreClosed(g, d, p, 0);
    var parent := Parent(g, p);
    if parent.Some? && parent.value.key !in d1 {
      var d2 := d1[parent.value.key := parent.value];
      RemainingShrinks(Universe(g), d.Keys, d2.Keys, parent.value.key);
      ContributedIsClosed(g, d2, parent.value);
      var d' := Contributed(g, d2, parent.value).value;
      ExtendsAdd(d1, parent.value.key, parent.value);
      ExtendsTrans(d1, d2, d');
      AddedStayExplored(g, d, d1, d');
      assert parent.value.key in d';
    }
  }

  /** The module loop explores each module from the `i`-th on, and everything it adds. */
  lemma {:induction false} ContributedModulesAreClosed(g: ProjectGraph, d: ProjectSet, p: ProjectInfo, i: nat)
    requires i <= |p.modules| && ContributedModules(g, d, p, i).Ok?
    ensures var d' := ContributedModules(g, d, p, i).value;
      && (forall j | i <= j < |p.modules| :: BuildModule(g, p, p.modules[j]).Ok? && BuildModule(g, p, p.modules[j]).value.key in d')
      && (forall k | k in d' && k !in d :: Explored(g, d', d'[k]))
    decreases |Universe(g) - d.Keys|, 0, |p.modules| - i, 1
  {
    if i < |p.modules| {
      var m := BuildModule(g, p, p.modules[i]).value;
      if m.key in d {
        KnownModuleIsClosed(g, d, p, i);
      } else {
        NewModuleIsClosed(g, d, p, i);
      }
    }
  }

  /** The step of `ContributedModulesAreClosed` where the `i`-th module is already in `d`. */
  lemma {:induction false} KnownModuleIsClosed(g: ProjectGraph, d: ProjectSet, p: ProjectInfo, i: nat)
    requires i < |p.modules| && ContributedModules(g, d, p, i).Ok?
    requires BuildModule(g, p, p.modules[i]).Ok? && BuildModule(g, p, p.modules[i]).value.key in d
    ensures var d' := ContributedModules(g, d, p, i).value;
      && (forall j | i <= j < |p.modules| :: BuildModule(g, p, p.modules[j]).Ok? && BuildModule(g, p, p.modules[j]).value.key in d')
      && (forall k | k in d' && k !in d :: Explored(g, d', d'[k]))
    decreases |Universe(g) - d.Keys|, 0, |p.modules| - i, 0
  {
    var r := ContributedModules(g, d, p, i + 1);
    assert ContributedModules(g, d, p, i) == r;
    ContributedModulesAreClosed(g, d, p, i + 1);
    assert BuildModule(g, p, p.modules[i]).value.key in r.value;
  }

  /** The step of `ContributedModulesAreClosed` where the `i`-th module is new. */
  lemma {:induction false} NewModuleIsClosed(g: ProjectGraph, d: ProjectSet, p: ProjectInfo, i: nat)
    requires i < |p.modules| && ContributedModules(g, d, p, i).Ok?
    requires BuildModule(g, p, p.modules[i]).Ok? && BuildModule(g, p, p.modules[i]).value.key !in d
    ensures var d' := ContributedModules(g, d, p, i).value;
      && (forall j | i <= j < |p.modules| :: BuildModule(g, p, p.modules[j]).Ok? && BuildModule(g, p, p.modules[j]).value.key in d')
      && (forall k | k in d' && k !in d :: Explored(g, d', d'[k]))
    decreases |Universe(g) - d.Keys|, 0, |p.modules| - i, 0
  {
    var m := BuildModule(g, p, p.modules[i]).value;
    var dm := d[m.key := m];
    RemainingShrinks(Universe(g), d.Keys, dm.Keys, m.key);
    ContributedIsClosed(g, dm, m);
    var d1 := Contributed(g, dm, m).value;
    ExtendsAdd(d, m.key, m);
    ExtendsTrans(d, dm, d1);
    RemainingNotGrowing(Universe(g), d.Keys, d1.Keys);
    assert ContributedModules(g, d, p, i) == ContributedModules(g, d1, p, i + 1);
    ContributedModulesAreClosed(g, d1, p, i + 1);
    var d' := ContributedModules(g, d1, p, i + 1).value;
    ExtendsTrans(dm, d1, d');
    forall j | i <= j < |p.modules|
      ensures BuildModule(g, p, p.modules[j]).Ok? && BuildModule(g, p, p.modules[j]).value.key in d'
    {
      if j == i {
        assert m.key in dm;
      }
    }
    AddedStayExplored(g, d, d1, d');
  }

  /** What a step added and explored stays explored as the set grows. */
  lemma AddedStayExplored(g: ProjectGraph, d: ProjectSet, d1: ProjectSet, d': ProjectSet)
    requires Extends(d1, d')
    requires forall k | k in d1 && k !in d :: Explored(g, d1, d1[k])
    ensures forall k | k in d1 && k !in d :: Explored(g, d', d'[k])
  {
    forall k | k in d1 && k !in d
      ensures Explored(g, d', d'[k])
    {
      ExploredGrows(g, d1, d', d1[k]);
    }
  }

  lemma ExploredGrows(g: ProjectGraph, d: ProjectSet, d': ProjectSet, p: ProjectInfo)
    requires Explored(g, d, p) && d.Keys <= d'.Keys
    ensures Explored(g, d', p)
  {
  }

  /**
   * The discovery state of `SavedReactorStateManager.create`: the projects
   * found so far, grown in place by the traversal.
   */
  class Discovery {
    const graph: ProjectGraph
    var discovered: ProjectSet

    constructor (graph: ProjectGraph, session: seq<ProjectInfo>)
      ensures this.graph == graph && discovered == SessionProjects(session)
    {
      this.graph := graph;
      discovered := SessionProjects(session);
    }

    /**
     * `contributeWorkspaceProjects`: adds what `Contributed` finds; the set
     * only grows, also when building a module fails midway.
     */
    method Contribute(p: ProjectInfo) returns (outcome: Outcome)
      modifies this
      ensures Extends(old(discovered), discovered)
      ensures outcome.Pass? <==> Contributed(graph, old(discovered), p).Ok?
      ensures outcome.Pass? ==> discovered == Contributed(graph, old(discovered), p).value
      decreases |Universe(graph) - discovered.Keys|, 3
    {
      outcome := ContributeModules(p);
      if outcome.Pass? {
        outcome := ContributeParent(p, old(discovered));
      }
    }

    /** The end of `contributeWorkspaceProjects`: the parent of `p`, added and explored if it is new. */
    method ContributeParent(p: ProjectInfo, ghost d0: ProjectSet) returns (outcome: Outcome)
      requires ContributedModules(graph, d0, p, 0) == Ok(discovered)
      modifies this
      ensures Extends(old(discovered), discovered)
      ensures outcome.Pass? <==> Contributed(graph, d0, p).Ok?
      ensures outcome.Pass? ==> discovered == Contributed(graph, d0, p).value
      decreases |Universe(graph) - d0.Keys|, 1
    {
      ghost var d1 := discovered;
      ContributedAfterModules(graph, d0, p, d1);
      var parent := Parent(graph, p);
      if parent.Some? && parent.value.key !in discovered {
        ExtendsAdd(d1, parent.value.key, parent.value);
        discovered := discovered[parent.value.key := parent.value];
        RemainingShrinks(Universe(graph), d0.Keys, discovered.Keys, parent.value.key);
        ghost var d2 := discovered;
        outcome := Contribute(parent.value);
        ExtendsTrans(d1, d2, discovered);
      } else {
        outcome := Pass;
      }
    }

    /** The loop of `contributeWorkspaceProjects` over the declared modules of `p`. */
    method ContributeModules(p: ProjectInfo) returns (outcome: Outcome)
      modifies this
      ensures Extends(old(discovered), discovered)
      ensures outcome.Pass? <==> ContributedModules(graph, old(discovered), p, 0).Ok?
      ensures outcome.Pass? ==> discovered == ContributedModules(graph, old(discovered), p, 0).value
      decreases |Universe(graph) - discovered.Keys|, 2
    {
      var i := 0;
      while i < |p.modules|
        invariant 0 <= i <= |p.modules|
        invariant Extends(old(discovered), discovered)
        invariant ContributedModules(graph, old(discovered), p, 0) == ContributedModules(graph, discovered, p, i)
      {
        RemainingNotGrowing(Universe(graph), old(discovered).Keys, discovered.Keys);
        var o := ContributeModule(p, i);
        if o.Fail? {
          return o;
        }
        i := i + 1;
      }
      return Pass;
    }

    /**
     * One pass of the module loop of `contributeWorkspaceProjects`: the
     * `i`-th module is built, and added and explored at once if it is new.
     */
    method ContributeModule(p: ProjectInfo, i: nat) returns (outcome: Outcome)
      requires i < |p.modules|
      modifies this
      ensures Extends(old(discovered), discovered)
      ensures outcome.Pass? ==>
        ContributedModules(graph, old(discovered), p, i) == ContributedModules(graph, discovered, p, i + 1)
      ensures outcome.Fail? ==> ContributedModules(graph, old(discovered), p, i).Err?
      decreases |Universe(graph) - discovered.Keys|, 0
    {
      var built := BuildModule(graph, p, p.modules[i]);
      if built.Err? {
        return Fail(built.error);
      }
      var m := built.value;
      if m.key !in discovered {
        ghost var d0 := discovered;
        ExtendsAdd(d0, m.key, m);
        discovered := discovered[m.key := m];
        RemainingShrinks(Universe(graph), d0.Keys, discovered.Keys, m.key);
        ghost var d1 := discovered;
        outcome := Contribute(m);
        ExtendsTrans(d0, d1, discovered);
      } else {
        outcome := Pass;
      }
    }
  }

  // The stub workspace of the project's tests: a top-level project with
  // modules `module1` and `module2`, and `module3` inside `module1`.

  const StubGroup := "de.syquel.maven.reactorstate"
  const StubVersion := "1.0-SNAPSHOT"

  function StubProject(artifactId: string, packaging: string, dir: seq<string>, modules: seq<string>, parent: Option<ProjectKey>): ProjectInfo
  {
    ProjectInfo(ProjectKey(StubGroup, artifactId, StubVersion), packaging, Path(true, dir), "target",
                Path(true, dir + ["pom.xml"]), modules, parent)
  }

  const StubTop := StubProject("reactorstate-maven-extension-stub", "pom", ["ws"], ["module1", "module2"], None)
  const StubModule1 := StubProject("reactorstate-maven-extension-stub-module1", "pom", ["ws", "module1"], ["module3"], Some(StubTop.key))
  const StubModule2 := StubProject("reactorstate-maven-extension-stub-module2", "jar", ["ws", "module2"], [], Some(StubTop.key))
  const StubModule3 := StubProject("reactorstate-maven-extension-stub-module3", "jar", ["ws", "module1", "module3"], [], Some(StubModule1.key))

  const StubGraph := ProjectGraph(
    map[StubModule1.file := StubModule1, StubModule2.file := StubModule2, StubModule3.file := StubModule3],
    map[StubTop.key := StubTop, StubModule1.key := StubModule1])

  lemma ModulePomPathOfName(p: ProjectInfo, name: string)
    requires ValidName(name)
    ensures ModulePomPath(p, name) == Path(p.basedir.absolute, p.basedir.names + [name, "pom.xml"])
  {
    assert Render(Path(false, [name])) == name;
    ParseRender(Path(false, [name]));
  }

  // What the traversal from the stub's top-level project has found at each step.
  const StubFound0 := map[StubModule2.key := StubModule2]
  const StubFound1 := StubFound0[StubModule1.key := StubModule1]
  const StubFound2 := StubFound1[StubModule3.key := StubModule3]
  const StubFound3 := StubFound2[StubTop.key := StubTop]

  /** The four stub projects are four distinct projects. */
  lemma StubKeysDistinct()
    ensures StubTop.key != StubModule1.key && StubTop.key != StubModule2.key && StubTop.key != StubModule3.key
    ensures StubModule1.key != StubModule2.key && StubModule1.key != StubModule3.key
    ensures StubModule2.key != StubModule3.key
  {
    assert |StubTop.key.artifactId| == 33;
    assert StubModule1.key.artifactId[40] == '1';
    assert StubModule2.key.artifactId[40] == '2';
    assert StubModule3.key.artifactId[40] == '3';
  }

  /** `module1` of the top-level project is described by `module1`'s descriptor. */
  lemma StubModule1Builds()
    ensures BuildModule(StubGraph, StubTop, "module1") == Ok(StubModule1)
  {
    StubModule1Path();
    StubModule1Descriptor();
  }

  lemma StubModule1Path()
    ensures ModulePomPath(StubTop, "module1") == StubModule1.file
  {
    ModulePomPathOfName(StubTop, "module1");
    assert ["ws"] + ["module1", "pom.xml"] == ["ws", "module1"] + ["pom.xml"];
  }

  lemma StubModule1Descriptor()
    ensures StubModule1.file in StubGraph.descriptors && StubGraph.descriptors[StubModule1.file] == StubModule1
  {
    assert |StubModule1.file.names| != |StubModule3.file.names|;
    assert StubModule1.file.names[1] != StubModule2.file.names[1];
  }

  /** `module2` of the top-level project is described by `module2`'s descriptor. */
  lemma StubModule2Builds()
    ensures BuildModule(StubGraph, StubTop, "module2") == Ok(StubModule2)
  {
    StubModule2Path();
    StubModule2Descriptor();
  }

  lemma StubModule2Path()
    ensures ModulePomPath(StubTop, "module2") == StubModule2.file
  {
    ModulePomPathOfName(StubTop, "module2");
    assert ["ws"] + ["module2", "pom.xml"] == ["ws", "module2"] + ["pom.xml"];
  }

  lemma StubModule2Descriptor()
    ensures StubModule2.file in StubGraph.descriptors && StubGraph.descriptors[StubModule2.file] == StubModule2
  {
    assert |StubModule2.file.names| != |StubModule3.file.names|;
  }

  /** `module3` of `module1` is described by `module3`'s descriptor. */
  lemma StubModule3Builds()
    ensures BuildModule(StubGraph, StubModule1, "module3") == Ok(StubModule3)
  {
    StubModule3Path();
  }

  lemma StubModule3Path()
    ensures ModulePomPath(StubModule1, "module3") == StubModule3.file
  {
    ModulePomPathOfName(StubModule1, "module3");
    assert ["ws", "module1"] + ["module3", "pom.xml"] == ["ws", "module1", "module3"] + ["pom.xml"];
  }

  /** `module3` has no modules and its parent `module1` is already found. */
  lemma StubModule3AddsNothing()
    ensures Contributed(StubGraph, StubFound2, StubModule3) == Ok(StubFound2)
  {
    StubKeysDistinct();
    assert ContributedModules(StubGraph, StubFound2, StubModule3, 0) == Ok(StubFound2);
  }

  /** The top-level project reached again as `module1`'s parent: both its modules are already found. */
  lemma StubTopAgainAddsNothing()
    ensures Contributed(StubGraph, StubFound3, StubTop) == Ok(StubFound3)
  {
    assert ContributedModules(StubGraph, StubFound3, StubTop, 0) == Ok(StubFound3) by {
      StubModule1Builds();
      StubModule2Builds();
      assert ContributedModules(StubGraph, StubFound3, StubTop, 2) == Ok(StubFound3);
      assert ContributedModules(StubGraph, StubFound3, StubTop, 1) == Ok(StubFound3);
    }
    ContributedAfterModules(StubGraph, StubFound3, StubTop, StubFound3);
  }

  /** The module loop of `module1` adds `module3` and explores it, which adds nothing more. */
  lemma StubModule1LoopAddsModule3()
    ensures ContributedModules(StubGraph, StubFound1, StubModule1, 0) == Ok(StubFound2)
  {
    assert StubModule3.key !in StubFound1 by {
      StubKeysDistinct();
    }
    StubModule3Builds();
    StubModule3AddsNothing();
    assert ContributedModules(StubGraph, StubFound2, StubModule1, 1) == Ok(StubFound2);
  }

  /** `module1` adds `module3`, explores it, then adds the top-level project. */
  lemma StubModule1AddsTheRest()
    ensures Contributed(StubGraph, StubFound1, StubModule1) == Ok(StubFound3)
  {
    StubModule1LoopAddsModule3();
    StubModule1Parent();
    ContributedAfterModules(StubGraph, StubFound1, StubModule1, StubFound2);
    StubTopAgainAddsNothing();
  }

  /** The parent of `module1` is the top-level project, not yet found after `module3`. */
  lemma StubModule1Parent()
    ensures Parent(StubGraph, StubModule1) == Some(StubTop) && StubTop.key !in StubFound2
    ensures StubFound2[StubTop.key := StubTop] == StubFound3
  {
    StubKeysDistinct();
    assert StubModule1.parent.value in StubGraph.parents;
  }

  /** After `module1`, the top-level project's module loop meets `module2`, which is already found. */
  lemma StubTopLoopAfterModule1()
    ensures ContributedModules(StubGraph, StubFound3, StubTop, 1) == Ok(StubFound3)
  {
    StubModule2Builds();
    assert StubModule2.key in StubFound3;
    assert ContributedModules(StubGraph, StubFound3, StubTop, 2) == Ok(StubFound3);
  }

  /** The module loop of the top-level project adds `module1` and what it leads to; `module2` is already found. */
  lemma StubTopLoopFindsAll()
    ensures ContributedModules(StubGraph, StubFound0, StubTop, 0) == Ok(StubFound3)
  {
    assert StubModule1.key !in StubFound0 by {
      StubKeysDistinct();
    }
    StubModule1Builds();
    StubModule1AddsTheRest();
    StubTopLoopAfterModule1();
  }

  /**
   * A session holding only `module2`, run from `module2` as the execution
   * root, finds all four projects of the stub workspace.
   */
  lemma StubSessionFindsAllProjects()
    ensures Discover(StubGraph, [StubModule2], StubModule2, true)
      == Ok(map[StubModule2.key := StubModule2, StubModule1.key := StubModule1,
                StubModule3.key := StubModule3, StubTop.key := StubTop])
  {
    assert SessionProjects([StubModule2]) == StubFound0;
    StubTopLoopFindsAll();
    ContributedAfterModules(StubGraph, StubFound0, StubTop, StubFound3);
  }
}
