/**
 * The state repositories: where a module's state file lives, and reading,
 * saving and deleting it, for the properties format and the JSON format.
 * The common interface of the two is a datatype with one constructor per
 * implementation, and every operation dispatches on it.
 */
module Repositories {
  import opened Wrappers
  import opened Collections
  import opened Paths
  import opened FileSystems
  import opened Artifacts
  import opened Projects
  import opened ProjectStates
  import FlatCodec
  import FlatRoundTrip
  import JsonCodec

  /** What a state file holds once its text is parsed: a property table or a JSON document. */
  datatype Document = PropertiesDocument(table: FlatCodec.Table) | JsonDocument(dto: JsonCodec.ProjectStateDto)

  /** `IReactorStateRepository` and its two implementations. */
  datatype Repository = PropertiesRepository | JsonRepository

  /** The state file of `project` for the repository's format. */
  function StatePath(r: Repository, project: ProjectInfo): (p: Path)
    ensures p.absolute == BuildPath(project).absolute && |p.names| == |BuildPath(project).names| + 1
    ensures p.names[..|BuildPath(project).names|] == BuildPath(project).names
  {
    match r
    case PropertiesRepository => FlatCodec.PropertiesPath(project)
    case JsonRepository => JsonCodec.JsonPath(project)
  }

  /** Whether `read` finds a state file to load: the properties format also wants the build directory. */
  predicate HasStateFile(r: Repository, fs: FileSystem<Document>, project: ProjectInfo)
  {
    && IsReadable(fs, StatePath(r, project))
    && (r.PropertiesRepository? ==> IsDirectory(fs, BuildPath(project)))
  }

  /** A parsed state file decoded for `project`; a document of the other format fails as an I/O error. */
  function DecodeDocument(r: Repository, project: ProjectInfo, doc: Document): (res: Result<ProjectState>)
    ensures res.Ok? ==> res.value.project == project
  {
    match (r, doc)
    case (PropertiesRepository, PropertiesDocument(t)) => FlatCodec.Decode(project, t)
    case (JsonRepository, JsonDocument(d)) => JsonCodec.Decode(project, d)
    case _ => Err(IOFailure("malformed " + Render(StatePath(r, project))))
  }

  /**
   * `read`: no state (`null`) exactly when there is no state file to load;
   * otherwise the file decoded for `project`, or the exception decoding throws.
   */
  function Read(r: Repository, fs: FileSystem<Document>, project: ProjectInfo): (res: Result<Option<ProjectState>>)
    ensures res == Ok(None) <==> !HasStateFile(r, fs, project)
    ensures res.Ok? && res.value.Some? ==> res.value.value.project == project
  {
    if !HasStateFile(r, fs, project) then Ok(None)
    else
      var doc :- ReadFile(fs, StatePath(r, project));
      var s :- DecodeDocument(r, project, doc);
      Ok(Some(s))
  }

  /** The document `save` writes, in the repository's format; `order` is the attached set's iteration order. */
  function Serialize(r: Repository, s: ProjectState, order: seq<Artifact>): Result<Document>
  {
    match r
    case PropertiesRepository =>
      var t :- FlatCodec.EncodeFlat(s, order);
      Ok(PropertiesDocument(t))
    case JsonRepository =>
      var d :- JsonCodec.Encode(s);
      Ok(JsonDocument(d))
  }

  /**
   * Where `save` can make the build directory: it exists; or, for the
   * properties format, its parent does and no file is in its place; or, for
   * JSON, no file is in the place of it or of an ancestor.
   */
  predicate CanMakeBuildDirectory(r: Repository, fs: FileSystem<Document>, project: ProjectInfo)
  {
    var b := BuildPath(project);
    || IsDirectory(fs, b)
    || (r.JsonRepository? && !BlockedByFile(fs, b))
    || (r.PropertiesRepository? && !ParentMissing(fs, b) && !FileAt(fs, Located(fs, b)))
  }

  /** Where `save` can write: the build directory can be made and the state file is not a directory. */
  predicate CanSave(r: Repository, fs: FileSystem<Document>, project: ProjectInfo)
  {
    CanMakeBuildDirectory(r, fs, project) && !IsDirectory(fs, StatePath(r, project))
  }

  /**
   * The first step of `save`: the build directory is made when it is not a
   * directory, only the last level for the properties format (which fails
   * when the parent is missing or a file is in the way), every missing
   * level for JSON (which fails when a file is in the way of one).
   */
  function MakeBuildDirectory(r: Repository, fs: FileSystem<Document>, project: ProjectInfo): (res: Result<FileSystem<Document>>)
    ensures res.Ok? ==> IsDirectory(res.value, BuildPath(project))
    ensures res.Err? <==> !CanMakeBuildDirectory(r, fs, project)
  {
    EnsureDirectory(fs, BuildPath(project), r.JsonRepository?)
  }

  /**
   * `save`: the build directory first, then the state is encoded and written.
   * A failure after the directory is made leaves the directory in place.
   */
  function Save(r: Repository, fs: FileSystem<Document>, s: ProjectState, order: seq<Artifact>): (res: Saved<Document>)
    ensures res.outcome.Pass? <==> CanSave(r, fs, s.project) && Serialize(r, s, order).Ok?
    ensures res.outcome.Pass? ==> ReadFile(res.files, StatePath(r, s.project)) == Ok(Serialize(r, s, order).value)
    ensures res.outcome.Pass? ==> IsDirectory(res.files, BuildPath(s.project)) && IsReadable(res.files, StatePath(r, s.project))
  {
    match MakeBuildDirectory(r, fs, s.project)
    case Err(e) => Saved(fs, Fail(e))
    case Ok(fs1) =>
      match Serialize(r, s, order)
      case Err(e) => Saved(fs1, Fail(e))
      case Ok(doc) =>
        StateFileInBuildDirectory(r, fs1, s.project);
        StateFileNotMade(r, fs, fs1, s.project);
        match WriteFile(fs1, StatePath(r, s.project), doc)
        case Err(e) => Saved(fs1, Fail(e))
        case Ok(fs2) => Saved(fs2, Pass)
  }

  /** `delete`: `Files.deleteIfExists` on the state file. */
  function Delete(r: Repository, fs: FileSystem<Document>, project: ProjectInfo): (res: FileSystem<Document>)
    ensures !IsReadable(res, StatePath(r, project))
    ensures res.directories == fs.directories
  {
    DeleteIfExists(fs, StatePath(r, project))
  }

  /** The state file's parent, located, is the build directory, located. */
  lemma StateFileInBuildDirectory(r: Repository, fs: FileSystem<Document>, project: ProjectInfo)
    ensures |Located(fs, StatePath(r, project)).names| > 0
    ensures Parent(Located(fs, StatePath(r, project))) == Located(fs, BuildPath(project))
  {
    var p, b := StatePath(r, project), BuildPath(project);
    assert p.names == b.names + [p.names[|b.names|]];
  }

  /** Making the build directory never makes the state file a directory. */
  lemma StateFileNotMade(r: Repository, fs: FileSystem<Document>, fs1: FileSystem<Document>, project: ProjectInfo)
    requires MakeBuildDirectory(r, fs, project) == Ok(fs1)
    ensures IsDirectory(fs1, StatePath(r, project)) == IsDirectory(fs, StatePath(r, project))
  {
    StateFileInBuildDirectory(r, fs, project);
  }

  /** What each format can store and read back unchanged. */
  ghost predicate Storable(r: Repository, s: ProjectState)
  {
    var base := s.project.basedir;
    match r
    case PropertiesRepository => FlatRoundTrip.Encodable(s) && s.mainArtifact.file.Some?
    case JsonRepository =>
      && JsonCodec.JsonStorable(base, s.pom) && JsonCodec.JsonStorable(base, s.mainArtifact)
      && (forall a | a in s.attachedArtifacts :: JsonCodec.JsonStorable(base, a))
  }

  /**
   * The format's encoding succeeds on a storable state and decodes back to
   * it; the properties decoder as written gives it back up to the POM path.
   */
  lemma SerializeRoundTrip(r: Repository, s: ProjectState, order: seq<Artifact>)
    requires Storable(r, s) && Enumerates(order, s.attachedArtifacts)
    ensures Serialize(r, s, order).Ok?
    ensures r.PropertiesRepository? ==> FlatCodec.Decode(s.project, Serialize(r, s, order).value.table) == Ok(s)
    ensures r.PropertiesRepository? ==>
      FlatCodec.DecodeAsWritten(s.project, Serialize(r, s, order).value.table) == Ok(FlatRoundTrip.AsWrittenState(s))
    ensures r.JsonRepository? ==> JsonCodec.Decode(s.project, Serialize(r, s, order).value.dto) == Ok(s)
  {
    match r
    case PropertiesRepository =>
      FlatRoundTrip.RoundTrip(s, order);
      FlatRoundTrip.AsWrittenRoundTrip(s, order);
    case JsonRepository => JsonCodec.RoundTrip(s);
  }

  /**
   * The cache's contract: after `save` of a storable state, `read` for the
   * same module gives that state back, in either format. The properties
   * file read as written gives it back up to the POM path.
   */
  lemma {:induction false} SaveThenRead(r: Repository, fs: FileSystem<Document>, s: ProjectState, order: seq<Artifact>)
    requires Storable(r, s) && Enumerates(order, s.attachedArtifacts)
    requires CanSave(r, fs, s.project)
    ensures Save(r, fs, s, order).outcome == Pass
    ensures Read(r, Save(r, fs, s, order).files, s.project) == Ok(Some(s))
    ensures r.PropertiesRepository? ==>
      var doc := ReadFile(Save(r, fs, s, order).files, StatePath(r, s.project));
      && doc.Ok? && doc.value.PropertiesDocument?
      && FlatCodec.DecodeAsWritten(s.project, doc.value.table) == Ok(FlatRoundTrip.AsWrittenState(s))
  {
    SerializeRoundTrip(r, s, order);
    var saved := Save(r, fs, s, order);
    var doc := Serialize(r, s, order).value;
    assert HasStateFile(r, saved.files, s.project);
    assert ReadFile(saved.files, StatePath(r, s.project)) == Ok(doc);
    assert DecodeDocument(r, s.project, doc) == Ok(s);
  }

  /** After `delete`, `read` finds no state. */
  lemma DeleteThenRead(r: Repository, fs: FileSystem<Document>, project: ProjectInfo)
    ensures Read(r, Delete(r, fs, project), project) == Ok(None)
  {
  }

  /** `save` touches no file other than the state file. */
  lemma SaveKeepsOtherFiles(r: Repository, fs: FileSystem<Document>, s: ProjectState, order: seq<Artifact>, q: Path)
    requires q != Located(fs, StatePath(r, s.project))
    ensures (q in Save(r, fs, s, order).files.contents) == (q in fs.contents)
    ensures q in fs.contents ==> Save(r, fs, s, order).files.contents[q] == fs.contents[q]
  {
  }
}
