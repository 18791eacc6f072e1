/**
 * The `install-local` goal of the plugin: it reads the extension's
 * coordinates from the plugin's own properties resource and registers the
 * extension in the top-level project's `.mvn/extensions.xml`, creating the
 * file when there is none and keeping the extensions already registered.
 */
module Plugin {
  import opened Wrappers
  import opened Paths
  import opened FileSystems
  import opened Artifacts

  /** The class-path resource the plugin's properties are packaged in. */
  const PropertiesFileName := "reactorstate-maven-plugin.properties"
  /** The property holding the extension's artifact coordinates. */
  const ExtensionArtifactKey := "extension.artifact"
  /** Where Maven looks for core extensions, relative to the top-level project's base directory. */
  const ExtensionsFileName := Path(false, [".mvn", "extensions.xml"])

  /** `ReactorStatePluginProperties`: the extension's artifact. */
  datatype PluginProperties = PluginProperties(extensionArtifact: Artifact)

  /**
   * `ReactorStatePluginProperties.create`: `resource` is the property table
   * loaded from the resource, or the exception loading it threw. A missing
   * key hands `null` to the artifact constructor, which throws a null
   * pointer exception; coordinates it cannot parse make it throw an illegal
   * argument exception.
   */
  function CreateProperties(resource: Result<map<string, string>>): (r: Result<PluginProperties>)
    ensures resource.Err? ==> r == Err(resource.error)
    ensures resource.Ok? && ExtensionArtifactKey !in resource.value ==> r.Err? && r.error.NullPointer?
    ensures resource.Ok? && ExtensionArtifactKey in resource.value ==>
      (r.Ok? <==> ParseCoordinates(resource.value[ExtensionArtifactKey]).Some?)
    ensures r.Ok? ==> ValidCoordinates(r.value.extensionArtifact.coords)
    ensures r.Ok? ==> r.value.extensionArtifact.file.None? && r.value.extensionArtifact.properties == map[]
    ensures r.Ok? ==> ParseCoordinates(resource.value[ExtensionArtifactKey]) == Some(r.value.extensionArtifact.coords)
  {
    var table :- resource;
    if ExtensionArtifactKey !in table then Err(NullPointer(ExtensionArtifactKey))
    else
      match ParseCoordinates(table[ExtensionArtifactKey])
      case None => Err(IllegalArgument(table[ExtensionArtifactKey]))
      case Some(c) => Ok(PluginProperties(Artifact(c, None, map[])))
  }

  /** A resource that holds an artifact's id yields exactly that artifact's coordinates. */
  lemma CreatePropertiesOfId(c: Coordinates, table: map<string, string>)
    requires ValidCoordinates(c)
    requires ExtensionArtifactKey in table && table[ExtensionArtifactKey] == ToId(c)
    ensures CreateProperties(Ok(table)) == Ok(PluginProperties(Artifact(c, None, map[])))
  {
    ParseToId(c);
  }

  /**
   * `getExtensionArtifact(classifier)`: the stored coordinates with the
   * classifier replaced when one is given (kept when it is `null`), without
   * file or properties.
   */
  function GetExtensionArtifact(p: PluginProperties, classifier: Option<string>): (a: Artifact)
    ensures a.coords.groupId == p.extensionArtifact.coords.groupId
    ensures a.coords.artifactId == p.extensionArtifact.coords.artifactId
    ensures a.coords.extension == p.extensionArtifact.coords.extension
    ensures a.coords.version == p.extensionArtifact.coords.version
    ensures a.coords.classifier == classifier.GetOr(p.extensionArtifact.coords.classifier)
    ensures a.file.None? && a.properties == map[]
  {
    var c := p.extensionArtifact.coords;
    Artifact(Coordinates(c.groupId, c.artifactId, c.extension, classifier.GetOr(c.classifier), c.version), None, map[])
  }

  /** `getExtensionArtifact()`: the stored coordinates unchanged, classifier included. */
  function GetDefaultExtensionArtifact(p: PluginProperties): (a: Artifact)
    ensures a.coords == p.extensionArtifact.coords
    ensures a.file.None? && a.properties == map[]
    ensures forall classifier: string {:trigger GetExtensionArtifact(p, Some(classifier))} ::
      GetExtensionArtifact(p, Some(classifier)) == a.(coords := a.coords.(classifier := classifier))
  {
    GetExtensionArtifact(p, None)
  }

  /** A `CoreExtension` entry of `extensions.xml`. */
  datatype CoreExtension = CoreExtension(groupId: string, artifactId: string, version: string)

  /**
   * What `.mvn/extensions.xml` holds once parsed: a file `createFile` left
   * empty, which does not parse, or a document listing extensions.
   */
  datatype ExtensionsFile = EmptyFile | ExtensionsDocument(extensions: seq<CoreExtension>)

  /** `CoreExtensions`: the list of extensions the goal appends to in place. */
  class CoreExtensions {
    var extensions: seq<CoreExtension>

    constructor (extensions: seq<CoreExtension>)
      ensures this.extensions == extensions
    {
      this.extensions := extensions;
    }

    /** `addExtension`: appends one entry. */
    method AddExtension(e: CoreExtension)
      modifies this
      ensures extensions == old(extensions) + [e]
    {
      extensions := extensions + [e];
    }
  }

  /** `.mvn/extensions.xml` under the top-level project's base directory. */
  function ExtensionsPath(basedir: Path): (p: Path)
    ensures |p.names| >= 2
  {
    Resolve(basedir, ExtensionsFileName)
  }

  /** `Files.exists`: a file or a directory is there. */
  predicate Exists<C>(fs: FileSystem<C>, p: Path)
  {
    Located(fs, p) in fs.contents || Located(fs, p) in fs.readable || IsDirectory(fs, p)
  }

  /**
   * How the goal ends: normally, with a `MojoFailureException` carrying a
   * message, or with an exception that escapes it unchanged.
   */
  datatype MojoOutcome = Completed | MojoFailure(message: string) | Escaped(error: Error)

  /** The file system after the goal, and how it ended. */
  datatype Installed = Installed(files: FileSystem<ExtensionsFile>, outcome: MojoOutcome)

  /** The first step of the goal: the extension's artifact, as `getExtensionArtifact()` gives it. */
  function ExtensionArtifact(resource: Result<map<string, string>>): (r: Result<Artifact>)
    ensures r.Ok? <==> CreateProperties(resource).Ok?
    ensures r.Ok? ==> r.value.coords == CreateProperties(resource).value.extensionArtifact.coords
    ensures r.Err? ==> r.error == CreateProperties(resource).error
  {
    var p :- CreateProperties(resource);
    Ok(GetDefaultExtensionArtifact(p))
  }

  /**
   * A failure of the first step: only an I/O failure is caught and turned
   * into a goal failure; the other exceptions of `create` escape.
   */
  function ArtifactFailure(e: Error): (r: MojoOutcome)
    ensures e.IOFailure? <==> r == MojoFailure("Cannot determine extension artifact")
    ensures !e.IOFailure? ==> r == Escaped(e)
  {
    if e.IOFailure? then MojoFailure("Cannot determine extension artifact") else Escaped(e)
  }

  /** The entry the goal registers for the extension's artifact: its group, artifact id and version. */
  function ExtensionFor(a: Artifact): CoreExtension
  {
    CoreExtension(a.coords.groupId, a.coords.artifactId, a.coords.version)
  }

  /** The check the registration loop evidently means: same group and same artifact id. */
  predicate SameExtension(e: CoreExtension, c: CoreExtension)
  {
    e.groupId == c.groupId && e.artifactId == c.artifactId
  }

  /**
   * The check as written: the second comparison repeats the group
   * comparison, so the artifact id plays no part and every entry the
   * intended check accepts is accepted.
   */
  predicate SameExtensionAsWritten(e: CoreExtension, c: CoreExtension)
    ensures SameExtensionAsWritten(e, c) <==> e.groupId == c.groupId
    ensures SameExtension(e, c) ==> SameExtensionAsWritten(e, c)
  {
    e.groupId == c.groupId && e.groupId == c.groupId
  }

  /** Whether the list already holds an entry for the extension. */
  predicate Registered(e: CoreExtension, extensions: seq<CoreExtension>)
  {
    exists i | 0 <= i < |extensions| :: SameExtension(e, extensions[i])
  }

  /**
   * Whether the loop as written finds an entry and returns: exactly when some
   * entry has the extension's group, whatever its artifact id.
   */
  predicate RegisteredAsWritten(e: CoreExtension, extensions: seq<CoreExtension>)
    ensures RegisteredAsWritten(e, extensions) <==> exists x | x in extensions :: x.groupId == e.groupId
    ensures Registered(e, extensions) ==> RegisteredAsWritten(e, extensions)
  {
    exists i | 0 <= i < |extensions| :: SameExtensionAsWritten(e, extensions[i])
  }

  /**
   * As written, any entry of the extension's group counts as the extension:
   * a file listing only another extension of the same group makes the goal
   * return without registering, and the extension's artifact id is then
   * nowhere in the file.
   */
  lemma AsWrittenSkipsSiblingExtension()
    ensures var e := CoreExtension("de.syquel.maven.reactorstate", "reactorstate-maven-extension", "1.0.0");
      var sibling := CoreExtension("de.syquel.maven.reactorstate", "another-extension", "1.0.0");
      && RegisteredAsWritten(e, [sibling])
      && !Registered(e, [sibling])
      && (forall i | 0 <= i < |[sibling]| :: [sibling][i].artifactId != e.artifactId)
  {
    var e := CoreExtension("de.syquel.maven.reactorstate", "reactorstate-maven-extension", "1.0.0");
    var sibling := CoreExtension("de.syquel.maven.reactorstate", "another-extension", "1.0.0");
    assert SameExtensionAsWritten(e, [sibling][0]);
  }

  /** The result of reading the extensions file: the file system afterwards and the list, or the failure's message. */
  datatype Fetched =
    | Fetched(files: FileSystem<ExtensionsFile>, extensions: seq<CoreExtension>)
    | FetchFailed(files: FileSystem<ExtensionsFile>, message: string)

  /** The parent of a located path is the located parent. */
  lemma LocatedParent<C>(fs: FileSystem<C>, p: Path)
    requires |p.names| > 0
    ensures |Located(fs, p).names| > 0 && Parent(Located(fs, p)) == Located(fs, Parent(p))
  {
    if !p.absolute {
      assert Located(fs, p).names == fs.cwd.names + p.names;
      assert (fs.cwd.names + p.names)[..|fs.cwd.names + p.names| - 1] == fs.cwd.names + p.names[..|p.names| - 1];
    }
  }

  /**
   * `fetchCoreExtensions`: when nothing is at the path, the directories and
   * an empty file are created and the list is empty, and a file in the way
   * of the directories is a goal failure; otherwise the file is read, and a
   * file that is missing, a directory or not a document is a goal failure.
   */
  function Fetch(fs: FileSystem<ExtensionsFile>, basedir: Path): (f: Fetched)
    ensures !Exists(fs, ExtensionsPath(basedir)) && !BlockedByFile(fs, Parent(ExtensionsPath(basedir))) ==>
      && f == Fetched(f.files, [])
      && ReadFile(f.files, ExtensionsPath(basedir)) == Ok(EmptyFile)
      && f.files.cwd == fs.cwd && fs.directories <= f.files.directories
    ensures !Exists(fs, ExtensionsPath(basedir)) && BlockedByFile(fs, Parent(ExtensionsPath(basedir))) ==>
      f == FetchFailed(fs, "Cannot create Maven core extensions")
    ensures Exists(fs, ExtensionsPath(basedir)) ==> f.files == fs
    ensures Exists(fs, ExtensionsPath(basedir)) ==>
      (f.Fetched? <==> ReadFile(fs, ExtensionsPath(basedir)).Ok? && ReadFile(fs, ExtensionsPath(basedir)).value.ExtensionsDocument?)
    ensures Exists(fs, ExtensionsPath(basedir)) && f.Fetched? ==>
      f.extensions == ReadFile(fs, ExtensionsPath(basedir)).value.extensions
    ensures Exists(fs, ExtensionsPath(basedir)) && f.FetchFailed? ==> f.message == "Cannot read Maven core extensions"
  {
    var path := ExtensionsPath(basedir);
    if !Exists(fs, path) then
      match CreateDirectories(fs, Parent(path))
      case Err(_) => FetchFailed(fs, "Cannot create Maven core extensions")
      case Ok(fs1) =>
        LocatedParent(fs, path);
        LocatedParent(fs1, path);
        match WriteFile(fs1, path, EmptyFile)
        case Err(_) => FetchFailed(fs1, "Cannot create Maven core extensions")
        case Ok(fs2) => Fetched(fs2, [])
    else
      var read := ReadFile(fs, path);
      if read.Ok? && read.value.ExtensionsDocument? then Fetched(fs, read.value.extensions)
      else FetchFailed(fs, "Cannot read Maven core extensions")
  }

  /** `persistCoreExtensions`: the list written as the file's document. */
  function Persist(fs: FileSystem<ExtensionsFile>, basedir: Path, extensions: seq<CoreExtension>): (r: Installed)
    ensures r.outcome.Completed? <==> !ParentMissing(fs, ExtensionsPath(basedir)) && !IsDirectory(fs, ExtensionsPath(basedir))
    ensures r.outcome.Completed? ==> ReadFile(r.files, ExtensionsPath(basedir)) == Ok(ExtensionsDocument(extensions))
    ensures !r.outcome.Completed? ==> r == Installed(fs, MojoFailure("Cannot write Maven core extensions"))
  {
    match WriteFile(fs, ExtensionsPath(basedir), ExtensionsDocument(extensions))
    case Err(_) => Installed(fs, MojoFailure("Cannot write Maven core extensions"))
    case Ok(fs1) => Installed(fs1, Completed)
  }

  /** The registration loop of `execute`: whether some listed entry is the extension. */
  method FindExtension(extensions: seq<CoreExtension>, e: CoreExtension) returns (found: bool)
    ensures found <==> Registered(e, extensions)
  {
    var i := 0;
    while i < |extensions|
      invariant 0 <= i <= |extensions|
      invariant forall j | 0 <= j < i :: !SameExtension(e, extensions[j])
    {
      if SameExtension(e, extensions[i]) {
        return true;
      }
      i := i + 1;
    }
    return false;
  }

  /**
   * `execute`: the extension's artifact first (a failure changes nothing),
   * then the current list; an entry for the extension ends the goal
   * without a write, otherwise the entry is appended and the list written.
   * The scan, `FindExtension`, uses the evidently intended check on group and artifact id.
   */
  method Execute(resource: Result<map<string, string>>, fs: FileSystem<ExtensionsFile>, basedir: Path)
    returns (r: Installed)
    ensures ExtensionArtifact(resource).Err? ==> r == Installed(fs, ArtifactFailure(ExtensionArtifact(resource).error))
    ensures ExtensionArtifact(resource).Ok? && Fetch(fs, basedir).FetchFailed? ==>
      r == Installed(Fetch(fs, basedir).files, MojoFailure(Fetch(fs, basedir).message))
    ensures ExtensionArtifact(resource).Ok? && Fetch(fs, basedir).Fetched? ==>
      var e := ExtensionFor(ExtensionArtifact(resource).value);
      var before := Fetch(fs, basedir).extensions;
      && (Registered(e, before) ==> r == Installed(Fetch(fs, basedir).files, Completed))
      && (!Registered(e, before) ==> r == Persist(Fetch(fs, basedir).files, basedir, before + [e]))
    ensures r.outcome.Completed? ==>
      && ExtensionArtifact(resource).Ok? && Fetch(fs, basedir).Fetched?
      && ReadFile(r.files, ExtensionsPath(basedir)).Ok?
      && ReadFile(r.files, ExtensionsPath(basedir)).value.ExtensionsDocument?
      && Registered(ExtensionFor(ExtensionArtifact(resource).value), ReadFile(r.files, ExtensionsPath(basedir)).value.extensions)
      && Fetch(fs, basedir).extensions <= ReadFile(r.files, ExtensionsPath(basedir)).value.extensions
  {
    var artifact := ExtensionArtifact(resource);
    if artifact.Err? {
      return Installed(fs, ArtifactFailure(artifact.error));
    }
    var fetched := Fetch(fs, basedir);
    if fetched.FetchFailed? {
      return Installed(fetched.files, MojoFailure(fetched.message));
    }
    var e := ExtensionFor(artifact.value);
    if fetched.extensions != [] {
      FetchedDocumentReadable(fs, basedir);
    }
    r := Register(fetched.files, basedir, fetched.extensions, e);
  }

  /**
   * The part of `execute` after the fetch: the scan, then either the end of
   * the goal or the entry appended and the list persisted. `files` holds the
   * fetched list whenever that list is not empty.
   */
  method Register(files: FileSystem<ExtensionsFile>, basedir: Path, extensions: seq<CoreExtension>, e: CoreExtension)
    returns (r: Installed)
    requires extensions != [] ==> ReadFile(files, ExtensionsPath(basedir)) == Ok(ExtensionsDocument(extensions))
    ensures Registered(e, extensions) ==> r == Installed(files, Completed)
    ensures !Registered(e, extensions) ==> r == Persist(files, basedir, extensions + [e])
    ensures r.outcome.Completed? ==>
      && ReadFile(r.files, ExtensionsPath(basedir)).Ok?
      && ReadFile(r.files, ExtensionsPath(basedir)).value.ExtensionsDocument?
      && Registered(e, ReadFile(r.files, ExtensionsPath(basedir)).value.extensions)
      && extensions <= ReadFile(r.files, ExtensionsPath(basedir)).value.extensions
  {
    var coreExtensions := new CoreExtensions(extensions);
    var found := FindExtension(coreExtensions.extensions, e);
    if found {
      return Installed(files, Completed);
    }
    coreExtensions.AddExtension(e);
    var extended := coreExtensions.extensions;
    assert SameExtension(e, extended[|extended| - 1]);
    r := Persist(files, basedir, extended);
  }

  /** A list read from an existing file is that file's document, and reading the file again gives it back. */
  lemma FetchedDocumentReadable(fs: FileSystem<ExtensionsFile>, basedir: Path)
    requires Fetch(fs, basedir).Fetched? && Fetch(fs, basedir).extensions != []
    ensures ReadFile(Fetch(fs, basedir).files, ExtensionsPath(basedir)) ==
      Ok(ExtensionsDocument(Fetch(fs, basedir).extensions))
  {
  }

  /**
   * Once the file lists the extension, the next run reads that list back
   * unchanged, so by `Execute`'s contract it finds the entry and ends
   * without touching the file system.
   */
  lemma RegisteredStaysPut(fs: FileSystem<ExtensionsFile>, basedir: Path, e: CoreExtension, extensions: seq<CoreExtension>)
    requires ReadFile(fs, ExtensionsPath(basedir)) == Ok(ExtensionsDocument(extensions))
    requires Registered(e, extensions)
    ensures Fetch(fs, basedir) == Fetched(fs, extensions)
  {
  }
}
