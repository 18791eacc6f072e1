/**
 * The JSON state file: one record per artifact holding its id, its path
 * relative to the module's base directory (absent without a file) and its
 * properties, and a record for the module holding its id, its POM, its main
 * artifact and the set of its attached artifacts.
 */
module JsonCodec {
  import opened Wrappers
  import opened Collections
  import opened Paths
  import opened Artifacts
  import opened Projects
  import opened ProjectStates

  /** The state file's name inside the build directory. */
  const JsonFileName := "reactorstate-maven.json"

  /** `ArtifactDto`: `path == None` is a JSON null. */
  datatype ArtifactDto = ArtifactDto(coordinates: string, path: Option<string>, properties: map<string, string>)

  /** `MavenProjectStateDto`. */
  datatype ProjectStateDto = ProjectStateDto(
    projectId: string, pom: ArtifactDto, mainArtifact: ArtifactDto, attachedArtifacts: set<ArtifactDto>)

  /** `getReactorStatePath`: the state file sits directly in the build directory. */
  function JsonPath(p: ProjectInfo): (r: Path)
    ensures r.absolute == BuildPath(p).absolute
    ensures r.names == BuildPath(p).names + [JsonFileName]
  {
    Resolve(BuildPath(p), Path(false, [JsonFileName]))
  }

  /**
   * `convert(Artifact, Path)`: the artifact's id, its path relative to the
   * base directory, and its properties; relativizing fails between an
   * absolute and a relative path.
   */
  function ToDto(a: Artifact, base: Path): (r: Result<ArtifactDto>)
    ensures r.Ok? <==> a.file.None? || CanRelativize(base, a.file.value)
    ensures r.Ok? ==> r.value.coordinates == ToId(a.coords) && r.value.properties == a.properties
    ensures r.Ok? ==> (r.value.path.None? <==> a.file.None?)
    ensures r.Ok? && a.file.Some? ==> r.value.path == Some(Render(Relativize(base, a.file.value)))
  {
    match a.file
    case None => Ok(ArtifactDto(ToId(a.coords), None, a.properties))
    case Some(f) =>
      var text :- RelativeText(base, f);
      Ok(ArtifactDto(ToId(a.coords), Some(text), a.properties))
  }

  /**
   * `convert(ArtifactDto, Path)`: the id parsed by `new DefaultArtifact`, the
   * path taken against the base directory, the properties as stored.
   */
  function FromDto(d: ArtifactDto, base: Path): (r: Result<Artifact>)
    ensures r.Ok? <==> ParseCoordinates(d.coordinates).Some?
    ensures r.Ok? ==> r.value.coords == ParseCoordinates(d.coordinates).value && r.value.properties == d.properties
    ensures r.Ok? ==> (r.value.file.None? <==> d.path.None?)
    ensures r.Ok? && d.path.Some? ==> r.value.file.value == Resolve(base, Parse(d.path.value))
  {
    match ParseCoordinates(d.coordinates)
    case None => Err(IllegalArgument("Bad artifact coordinates"))
    case Some(c) =>
      var file := if d.path.Some? then Some(Resolve(base, Parse(d.path.value))) else None;
      Ok(Artifact(c, file, d.properties))
  }

  /** `convert(MavenProjectState)`: the module's id and one record per artifact. */
  function Encode(s: ProjectState): (r: Result<ProjectStateDto>)
    ensures r.Ok? ==> r.value.projectId == ProjectId(s.project)
  {
    var base := s.project.basedir;
    var pom :- ToDto(s.pom, base);
    var main :- ToDto(s.mainArtifact, base);
    if forall a | a in s.attachedArtifacts :: ToDto(a, base).Ok? then
      Ok(ProjectStateDto(ProjectId(s.project), pom, main, set a | a in s.attachedArtifacts :: ToDto(a, base).value))
    else
      Err(IllegalArgument("'other' is different type of Path"))
  }

  /**
   * `convert(MavenProject, MavenProjectStateDto)`: the module is the caller's;
   * the stored module id is not consulted.
   */
  function Decode(project: ProjectInfo, d: ProjectStateDto): (r: Result<ProjectState>)
    ensures r.Ok? ==> r.value.project == project
  {
    var base := project.basedir;
    var pom :- FromDto(d.pom, base);
    var main :- FromDto(d.mainArtifact, base);
    if forall x | x in d.attachedArtifacts :: FromDto(x, base).Ok? then
      Ok(ProjectState(project, pom, main, set x | x in d.attachedArtifacts :: FromDto(x, base).value))
    else
      Err(IllegalArgument("Bad artifact coordinates"))
  }

  /** What the JSON file can carry faithfully: a parsable id and a file under the base directory. */
  predicate JsonStorable(base: Path, a: Artifact)
  {
    ValidCoordinates(a.coords) && (a.file.Some? ==> ValidPath(a.file.value) && IsUnder(base, a.file.value))
  }

  /** One record read back gives the artifact it was written from, with or without a file. */
  lemma RecordRoundTrip(a: Artifact, base: Path)
    requires JsonStorable(base, a)
    ensures ToDto(a, base).Ok? && FromDto(ToDto(a, base).value, base) == Ok(a)
  {
    ParseToId(a.coords);
    if a.file.Some? {
      ParseRender(Relativize(base, a.file.value));
      ResolveRelativize(base, a.file.value);
    }
  }

  /** Equal records come from equal artifacts, as long as both can be stored. */
  lemma RecordInjective(a: Artifact, b: Artifact, base: Path)
    requires JsonStorable(base, a) && JsonStorable(base, b)
    requires ToDto(a, base) == ToDto(b, base)
    ensures a == b
  {
    RecordRoundTrip(a, base);
    RecordRoundTrip(b, base);
  }

  /**
   * The records written for the attached artifacts: one per artifact, so the
   * stored set has exactly as many entries as the state's.
   */
  lemma AttachedRecordsCounted(s: ProjectState)
    requires forall a | a in s.attachedArtifacts :: JsonStorable(s.project.basedir, a)
    ensures Encode(s).Ok? ==> |Encode(s).value.attachedArtifacts| == |s.attachedArtifacts|
  {
    var base := s.project.basedir;
    if Encode(s).Ok? {
      var f := (a: Artifact) => if ToDto(a, base).Ok? then ToDto(a, base).value else ArtifactDto("", None, map[]);
      assert Encode(s).value.attachedArtifacts == Image(s.attachedArtifacts, f);
      forall a, b | a in s.attachedArtifacts && b in s.attachedArtifacts && f(a) == f(b)
        ensures a == b
      {
        RecordInjective(a, b, base);
      }
      ImageSize(s.attachedArtifacts, f);
    }
  }

  /**
   * Writing a state and reading it back for the same module gives the same
   * state: POM, main artifact and every attached artifact, including those
   * without a file, which stay without one.
   */
  lemma {:induction false} RoundTrip(s: ProjectState)
    requires JsonStorable(s.project.basedir, s.pom) && JsonStorable(s.project.basedir, s.mainArtifact)
    requires forall a | a in s.attachedArtifacts :: JsonStorable(s.project.basedir, a)
    ensures Encode(s).Ok? && Decode(s.project, Encode(s).value) == Ok(s)
  {
    var base := s.project.basedir;
    RecordRoundTrip(s.pom, base);
    RecordRoundTrip(s.mainArtifact, base);
    forall a | a in s.attachedArtifacts
      ensures ToDto(a, base).Ok? && FromDto(ToDto(a, base).value, base) == Ok(a)
    {
      RecordRoundTrip(a, base);
    }
    var d := Encode(s).value;
    var attached := set x | x in d.attachedArtifacts :: FromDto(x, base).value;
    assert attached == s.attachedArtifacts by {
      forall a | a in s.attachedArtifacts
        ensures a in attached
      {
        assert ToDto(a, base).value in d.attachedArtifacts;
      }
    }
  }

  /**
   * The stored module id plays no part in reading: a file written for another
   * module (or edited by hand) reads the same for the module asking.
   */
  lemma ProjectIdIgnored(project: ProjectInfo, d: ProjectStateDto, otherId: string)
    ensures Decode(project, d.(projectId := otherId)) == Decode(project, d)
  {
  }

  /**
   * The POM record is read on its own: when the main artifact is its own POM
   * the two records are stored and read separately, and each keeps its own
   * path and properties.
   */
  lemma PomReadIndependently(project: ProjectInfo, d: ProjectStateDto, main: ArtifactDto)
    requires Decode(project, d).Ok? && Decode(project, d.(mainArtifact := main)).Ok?
    ensures Decode(project, d.(mainArtifact := main)).value.pom == Decode(project, d).value.pom
    ensures Decode(project, d).value.pom == FromDto(d.pom, project.basedir).value
  {
  }
}
