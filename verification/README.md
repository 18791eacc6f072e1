# reactorstate-maven in Dafny

reactorstate-maven lets a Maven build of one module resume from what an
earlier build produced. After a module is built, its build outputs are
written to a state file in the module's build directory: the POM, the main
artifact and the attached artifacts, each with its path relative to the
module's base directory, and each artifact's properties. A later build reads
these state files back. It reads them for the session's modules and, from
the top-level project, for every module of the workspace. It then either
restores them onto the session's modules (the `restore` goal) or serves them
to dependency resolution through a workspace reader (the `ide` extension).
The `install-local` goal registers that extension in `.mvn/extensions.xml`.

The model covers these parts:

- **Two repositories** (`Repositories`). The properties repository
  (`FlatCodec`, with its round trip in `FlatRoundTrip`) and the JSON
  repository (`JsonCodec`) each read, save and delete one module's state.
  The repository interface is a datatype with one constructor per
  implementation.
- **The runtime state manager** (`RuntimeManager`). It captures the state
  of every module of the running build and writes each state file in the
  older properties layout without artifact properties (`LegacyCodec`).
- **The saved state manager** (`SavedManager`, `Workspace`). It discovers
  the workspace's modules depth first, loads every state file in that older
  layout, and restores the states onto the session's modules.
- **The shared module-to-state map** (`StateManagers`) and the artifact
  state records (`ProjectStates`).
- **The workspace reader** (`WorkspaceReaders`). It indexes every saved
  artifact by its versionless id and answers `findArtifact` and
  `findVersions`.
- **The `install-local` goal and the plugin's properties** (`Plugin`).

Below these sit models of the library behaviour the code relies on. Each is
stated as far as the code depends on it:

- Aether artifact ids and coordinate parsing (`Artifacts`, `Text`);
- `java.nio.file.Path` resolution and relativisation (`Paths`);
- a file system of directories and readable files holding parsed documents
  (`FileSystems`);
- Maven projects (`Projects`);
- iteration orders of hash sets (`Collections`).

Iterating over a `HashSet` or a `HashMap` visits its elements in an order
the code does not control. Every such loop is therefore a method with a
ghost out-parameter `order`. The method's contract states that `order`
enumerates the set, and it states the result as a function of `order`. The
lemmas then state what holds for every order.

## Model

| member | source | states |
|---|---|---|
| Artifacts.ParseCoordinates | reactorstate-maven-common/src/main/java/de/syquel/maven/reactorstate/common/persistence/PropertiesReactorStateRepository.java:198-204 | `new DefaultArtifact(coordinates)` accepts `group:artifact[:extension[:classifier]]:version` and gives back coordinates whose group, artifact, extension and version are non-empty, and none of whose fields holds `:` or blanks (the classifier is empty when absent); any other text is refused |
| Artifacts.ParseToId | reactorstate-maven-common/src/main/java/de/syquel/maven/reactorstate/common/persistence/PropertiesReactorStateRepository.java:46-52 | reading back an id written by `toId` (lines 171-173) gives the same coordinates, for all valid coordinates; this is what lets the state file name artifacts by id |
| Artifacts.ToIdInjective | reactorstate-maven-common/src/main/java/de/syquel/maven/reactorstate/common/persistence/PropertiesReactorStateRepository.java:165-179 | two different valid coordinates never share an id, so the ids the writer uses as keys never collide |
| Artifacts.VersionlessIdInjective | reactorstate-maven-extension/src/main/java/de/syquel/maven/reactorstate/extension/workspacereader/ReactorStateWorkspaceReader.java:91-93 | equal versionless ids mean the same group, artifact, extension and classifier, so the reader's lookup keys separate artifacts exactly up to the version |
| Artifacts.BuildArtifact | reactorstate-maven-common/src/main/java/de/syquel/maven/reactorstate/common/persistence/PropertiesReactorStateRepository.java:198-204 | the artifact has the parsed coordinates, the given file and the given properties; it fails exactly when the coordinates do not parse |
| Artifacts.ToPomArtifact | reactorstate-maven-common/src/main/java/de/syquel/maven/reactorstate/common/persistence/PropertiesReactorStateRepository.java:58-59 | the POM has the artifact's group, artifact id and version with extension `pom` and no classifier; a POM artifact is handed back unchanged, any other gives a new artifact without file or properties |
| Artifacts.PomIdDiffers | reactorstate-maven-common/src/main/java/de/syquel/maven/reactorstate/common/persistence/PropertiesReactorStateRepository.java:58-62 | when the POM is a different artifact its id differs from the main artifact's id, so the POM entry and the main entry are two entries |
| Paths.Relativize | reactorstate-maven-common/src/main/java/de/syquel/maven/reactorstate/common/persistence/PropertiesReactorStateRepository.java:166 | `base.relativize(file)` is a relative path, made of valid names when the file's path is |
| Paths.ResolveRelativize | reactorstate-maven-common/src/main/java/de/syquel/maven/reactorstate/common/persistence/PropertiesReactorStateRepository.java:166-174 | for a file under the base directory, resolving the relativized path against the base gives the file back; both readers depend on this (lines 47 and 73) |
| Paths.ParseRender | reactorstate-maven-common/src/main/java/de/syquel/maven/reactorstate/common/persistence/PropertiesReactorStateRepository.java:73 | `Paths.get(p.toString())` gives back `p` for every path of valid names |
| Projects.BuildPath | reactorstate-maven-common/src/main/java/de/syquel/maven/reactorstate/common/AbstractReactorStateManager.java:32-37 | the build directory lies under the base directory unless its setting is absolute, in which case it is that setting |
| FileSystems.CreateDirectory | reactorstate-maven-common/src/main/java/de/syquel/maven/reactorstate/common/persistence/PropertiesReactorStateRepository.java:91-93 | `Files.createDirectory` fails exactly when the parent directory is missing or something, a file or a directory, is already at the path; otherwise it adds the directory and changes nothing else |
| FileSystems.CreateDirectories | reactorstate-maven-common/src/main/java/de/syquel/maven/reactorstate/common/persistence/json/JsonReactorStateRepository.java:56-58 | `Files.createDirectories` fails exactly when the path or one of its ancestors is a regular file; otherwise the directory is in place, no file changes, and only the path and its ancestors become directories |
| FileSystems.WriteFile | reactorstate-maven-common/src/main/java/de/syquel/maven/reactorstate/common/persistence/PropertiesReactorStateRepository.java:97-100 | writing fails exactly when the parent directory is missing or the path is a directory; otherwise the file reads back as what was written and every other file is unchanged |
| FileSystems.DeleteIfExists | reactorstate-maven-common/src/main/java/de/syquel/maven/reactorstate/common/persistence/PropertiesReactorStateRepository.java:104-107 | after `Files.deleteIfExists` the file is not readable; deleting a missing file changes nothing |
| ProjectStates.ArtifactState.constructor | reactorstate-maven-common/src/main/java/de/syquel/maven/reactorstate/common/data/MavenArtifactState.java:33-35 | a new artifact state holds its artifact and no repository metadata |
| ProjectStates.ArtifactState.SetArtifactRepositoryMetadata | reactorstate-maven-common/src/main/java/de/syquel/maven/reactorstate/common/data/MavenArtifactState.java:45-47 | sets the artifact-level metadata and leaves the other two slots unchanged |
| ProjectStates.ArtifactState.SetGroupRepositoryMetadata | reactorstate-maven-common/src/main/java/de/syquel/maven/reactorstate/common/data/MavenArtifactState.java:53-55 | sets the group-level metadata and leaves the other two slots unchanged |
| ProjectStates.ArtifactState.SetSnapshotRepositoryMetadata | reactorstate-maven-common/src/main/java/de/syquel/maven/reactorstate/common/data/MavenArtifactState.java:61-63 | sets the snapshot metadata and leaves the other two slots unchanged |
| ProjectStates.ArtifactState.Equals | reactorstate-maven-common/src/main/java/de/syquel/maven/reactorstate/common/data/MavenArtifactState.java:65-78 | two states are equal exactly when the other is non-null and holds an equal artifact; equal states have equal hash codes, so the metadata never separates them |
| ProjectStates.ArtifactState.HashCode | reactorstate-maven-common/src/main/java/de/syquel/maven/reactorstate/common/data/MavenArtifactState.java:75-78 | the hash is `Objects.hash` of the artifact alone: the list hash, from 1 in 32-bit arithmetic, of the artifact's hash |
| FlatCodec.ContributeArtifactProperties | reactorstate-maven-common/src/main/java/de/syquel/maven/reactorstate/common/persistence/PropertiesReactorStateRepository.java:186-192 | the loop adds one entry per property of the artifact, under `property.<id>.` followed by the property's name, and keeps every entry already in the table |
| FlatCodec.PutArtifactEntries | reactorstate-maven-common/src/main/java/de/syquel/maven/reactorstate/common/persistence/PropertiesReactorStateRepository.java:179-180 | one attached artifact adds its path entry and then its property entries; a missing file fails as a null dereference |
| FlatCodec.BuildProjectStateProperties | reactorstate-maven-common/src/main/java/de/syquel/maven/reactorstate/common/persistence/PropertiesReactorStateRepository.java:159-184 | the table built is the writer's table for the order in which the attached set was visited, or the exception the writer throws |
| FlatCodec.BuildHeadProperties | reactorstate-maven-common/src/main/java/de/syquel/maven/reactorstate/common/persistence/PropertiesReactorStateRepository.java:164-176 | the POM entry, its properties, the `main-artifact` sentinel, the main entry (empty text for a main artifact without file) and its properties, in that order |
| FlatCodec.PutAttachedEntries | reactorstate-maven-common/src/main/java/de/syquel/maven/reactorstate/common/persistence/PropertiesReactorStateRepository.java:178-181 | the attached artifacts' entries in the order the set was visited, stopping at the first artifact without a file |
| FlatCodec.ExtractArtifactProperties | reactorstate-maven-common/src/main/java/de/syquel/maven/reactorstate/common/persistence/PropertiesReactorStateRepository.java:143-157 | the entries under `property.` are moved out: they are returned and the table keeps exactly the other entries |
| FlatCodec.FindArtifactProperties | reactorstate-maven-common/src/main/java/de/syquel/maven/reactorstate/common/persistence/PropertiesReactorStateRepository.java:124-141 | an artifact's properties are the entries under its prefix, with the prefix cut off |
| FlatCodec.ReadStateProperties | reactorstate-maven-common/src/main/java/de/syquel/maven/reactorstate/common/persistence/PropertiesReactorStateRepository.java:40-84 | the project state read from a loaded table is the corrected decoding of that table, with the POM path resolved against the base directory like every other path, or the exception reading throws |
| FlatCodec.DecodeAsWritten | reactorstate-maven-common/src/main/java/de/syquel/maven/reactorstate/common/persistence/PropertiesReactorStateRepository.java:40-84 | `read` as written fails exactly when the corrected reading fails and agrees with it everywhere except a separate POM's file, which it keeps as the stored relative path where the corrected reading resolves it |
| FlatCodec.ReadAttachedArtifact | reactorstate-maven-common/src/main/java/de/syquel/maven/reactorstate/common/persistence/PropertiesReactorStateRepository.java:72-78 | one remaining entry becomes an artifact with the key's coordinates, the path resolved against the base directory and the properties found under its prefix |
| FlatCodec.ReadAttachedArtifacts | reactorstate-maven-common/src/main/java/de/syquel/maven/reactorstate/common/persistence/PropertiesReactorStateRepository.java:70-79 | every remaining entry becomes an attached artifact; the whole read fails with the error of an entry whose key does not parse |
| FlatCodec.DecodeAttachedFails | reactorstate-maven-common/src/main/java/de/syquel/maven/reactorstate/common/persistence/PropertiesReactorStateRepository.java:77 | one entry whose key is not a coordinate makes the whole read fail with that entry's error |
| FlatRoundTrip.PropertyEntriesShape | reactorstate-maven-common/src/main/java/de/syquel/maven/reactorstate/common/persistence/PropertiesReactorStateRepository.java:186-196 | the property entries of an artifact are exactly one entry per property, each under the artifact's prefix followed by its name |
| FlatRoundTrip.KeysApart | reactorstate-maven-common/src/main/java/de/syquel/maven/reactorstate/common/persistence/PropertiesReactorStateRepository.java:159-184 | in a state the writer can store, two artifacts with different coordinates write disjoint sets of keys, so no `put` overwrites another artifact's entry |
| FlatRoundTrip.EncodeShaped | reactorstate-maven-common/src/main/java/de/syquel/maven/reactorstate/common/persistence/PropertiesReactorStateRepository.java:159-184 | for every order of the attached set, the table holds the sentinel, one path entry per artifact and its property entries, and nothing else |
| FlatRoundTrip.FoundProperties | reactorstate-maven-common/src/main/java/de/syquel/maven/reactorstate/common/persistence/PropertiesReactorStateRepository.java:124-141 | reading the properties of any artifact of the state gives back exactly the properties it was written with |
| FlatRoundTrip.EntryDecodes | reactorstate-maven-common/src/main/java/de/syquel/maven/reactorstate/common/persistence/PropertiesReactorStateRepository.java:71-78 | each artifact's entry decodes to that artifact with its path resolved against the reading base directory |
| FlatRoundTrip.PomDecodes | reactorstate-maven-common/src/main/java/de/syquel/maven/reactorstate/common/persistence/PropertiesReactorStateRepository.java:57-67 | the POM entry decodes to the saved POM, and is then removed from the table |
| FlatRoundTrip.AttachedDecodes | reactorstate-maven-common/src/main/java/de/syquel/maven/reactorstate/common/persistence/PropertiesReactorStateRepository.java:69-79 | the entries left after the main artifact and the POM decode to exactly the saved attached artifacts |
| FlatRoundTrip.DecodeShaped | reactorstate-maven-common/src/main/java/de/syquel/maven/reactorstate/common/persistence/PropertiesReactorStateRepository.java:33-84 | a table of that shape decodes to the saved state, with every path resolved against the base directory |
| FlatRoundTrip.RoundTrip | reactorstate-maven-common/src/main/java/de/syquel/maven/reactorstate/common/persistence/PropertiesReactorStateRepository.java:33-184 | reading back what `save` wrote gives the saved state, for every order of the attached set, when every path entry is resolved against the base directory |
| FlatRoundTrip.MainWithoutFileWrittenEmpty | reactorstate-maven-common/src/main/java/de/syquel/maven/reactorstate/common/persistence/PropertiesReactorStateRepository.java:174 | a main artifact without file is written as the empty path |
| FlatRoundTrip.MainWithoutFileBecomesBase | reactorstate-maven-common/src/main/java/de/syquel/maven/reactorstate/common/persistence/PropertiesReactorStateRepository.java:47 | that empty path is read back as the base directory itself, so a main artifact without file comes back with one |
| FlatRoundTrip.ClassifierExtendsPrefix | reactorstate-maven-common/src/main/java/de/syquel/maven/reactorstate/common/persistence/PropertiesReactorStateRepository.java:123-141 | for an unclassified artifact and one whose classifier is its version, `.` and more, the two coordinates differ, yet the first prefix is a prefix of the second, and every property entry of the second is read into the first under the name `<rest>:<version>.<name>` |
| FlatRoundTrip.AsWrittenPomPathStaysRelative | reactorstate-maven-common/src/main/java/de/syquel/maven/reactorstate/common/persistence/PropertiesReactorStateRepository.java:61 | as written, the POM of a non-POM main artifact comes back with its relative path unresolved, so the read state differs from the saved one |
| FlatRoundTrip.AsWrittenRoundTrip | reactorstate-maven-common/src/main/java/de/syquel/maven/reactorstate/common/persistence/PropertiesReactorStateRepository.java:33-101 | as written, reading back what `save` wrote gives every artifact back with its file and properties, for every order of the attached set, except that a POM distinct from the main artifact keeps its path relative to the base directory |
| FlatRoundTrip.SentinelNamesMain | reactorstate-maven-common/src/main/java/de/syquel/maven/reactorstate/common/persistence/PropertiesReactorStateRepository.java:173 | whenever writing succeeds, the `main-artifact` entry holds the main artifact's id |
| FlatRoundTrip.DecodedPom | reactorstate-maven-common/src/main/java/de/syquel/maven/reactorstate/common/persistence/PropertiesReactorStateRepository.java:58-67 | every state read has a POM with the main artifact's POM coordinates; it is the main artifact itself exactly when that is a POM |
| FlatRoundTrip.DecodeNeedsSentinel | reactorstate-maven-common/src/main/java/de/syquel/maven/reactorstate/common/persistence/PropertiesReactorStateRepository.java:46-55 | a read succeeds only if the sentinel names an entry of the table whose key parses to the main artifact's coordinates, and the main artifact then has a file |
| FlatRoundTrip.OneAttachedPerEntry | reactorstate-maven-common/src/main/java/de/syquel/maven/reactorstate/common/persistence/PropertiesReactorStateRepository.java:70-79 | every remaining entry yields an attached artifact; there are at most as many artifacts as entries, and exactly as many when every key is the id of its own coordinates |
| LegacyCodec.BuildProjectStateProperties | reactorstate-maven-common/src/main/java/de/syquel/maven/reactorstate/common/RuntimeReactorStateManager.java:78-97 | the runtime manager's table is the older layout for the order in which the attached set was visited, or the exception the writer throws |
| LegacyCodec.BuildHeadProperties | reactorstate-maven-common/src/main/java/de/syquel/maven/reactorstate/common/RuntimeReactorStateManager.java:83-90 | the POM entry, the sentinel and the main entry of the older layout, with the empty path for a main artifact without file |
| LegacyCodec.PutAttachedPathEntries | reactorstate-maven-common/src/main/java/de/syquel/maven/reactorstate/common/RuntimeReactorStateManager.java:92-94 | one path entry per attached artifact, in the order the set was visited |
| LegacyCodec.EncodeLegacyIsFlat | reactorstate-maven-common/src/main/java/de/syquel/maven/reactorstate/common/RuntimeReactorStateManager.java:78-97 | the older layout is the repository's layout of the same state with every artifact's properties dropped |
| LegacyCodec.LegacyEncodingShape | reactorstate-maven-common/src/main/java/de/syquel/maven/reactorstate/common/RuntimeReactorStateManager.java:78-97 | the older table holds the sentinel naming the main artifact and one entry per artifact holding its relative path, and nothing else; no key starts with `property.` |
| LegacyCodec.LoadArtifact | reactorstate-maven-common/src/main/java/de/syquel/maven/reactorstate/common/SavedReactorStateManager.java:162-174 | an artifact whose file is not readable is skipped, a readable one is built from its id and file without properties, and an id that does not parse fails |
| LegacyCodec.LoadHead | reactorstate-maven-common/src/main/java/de/syquel/maven/reactorstate/common/SavedReactorStateManager.java:126-145 | the main artifact comes from the entry the sentinel names and must have a readable file, else the load fails with "Main Artifact is missing in saved state"; a separate POM comes from the entry under its own id |
| LegacyCodec.LoadAsWritten | reactorstate-maven-common/src/main/java/de/syquel/maven/reactorstate/common/SavedReactorStateManager.java:113-160 | `loadProjectState` as written fails exactly when the corrected load fails, and its attached set is the corrected one plus a null for each entry whose file is gone |
| LegacyCodec.LoadState | reactorstate-maven-common/src/main/java/de/syquel/maven/reactorstate/common/SavedReactorStateManager.java:113-160 | a module without a build directory or a readable state file has no state; otherwise its state is the corrected load of its state file, for that module, with unreadable attached artifacts left out instead of added as null |
| LegacyCodec.LoadAttachedArtifacts | reactorstate-maven-common/src/main/java/de/syquel/maven/reactorstate/common/SavedReactorStateManager.java:148-155 | the corrected loop gives the loaded artifacts of the remaining entries, leaving out those whose files are gone where line 154 adds null, or the first error |
| LegacyCodec.LoadAttachedFails | reactorstate-maven-common/src/main/java/de/syquel/maven/reactorstate/common/SavedReactorStateManager.java:153 | one entry with a readable file and a bad id fails the whole load with that entry's error |
| LegacyCodec.LoadProjectState | reactorstate-maven-common/src/main/java/de/syquel/maven/reactorstate/common/SavedReactorStateManager.java:113-160 | the method computes exactly the corrected load of the module's state, whose attached set holds no null |
| LegacyCodec.LoadAttachedIsDecodeAttached | reactorstate-maven-common/src/main/java/de/syquel/maven/reactorstate/common/SavedReactorStateManager.java:148-155 | when every remaining file is readable, loading the attached artifacts is the repository's decoding with no base directory and no properties |
| LegacyCodec.LoadIsUnresolvedDecode | reactorstate-maven-common/src/main/java/de/syquel/maven/reactorstate/common/SavedReactorStateManager.java:113-160 | when every stored file is readable, loading a state file is the repository's read with nothing resolved against the base directory |
| LegacyCodec.LegacyRoundTrip | reactorstate-maven-common/src/main/java/de/syquel/maven/reactorstate/common/SavedReactorStateManager.java:113-160 | loading what the runtime manager wrote gives the saved state with relative paths and without properties, for every order of the attached set, when the stored files are readable |
| LegacyCodec.AsWrittenKeepsNull | reactorstate-maven-common/src/main/java/de/syquel/maven/reactorstate/common/SavedReactorStateManager.java:148-155 | as written, an attached entry whose file is gone puts a `null` into the attached set |
| LegacyCodec.LoadedAttachedAreReadable | reactorstate-maven-common/src/main/java/de/syquel/maven/reactorstate/common/SavedReactorStateManager.java:148-155 | the corrected loop keeps exactly the entries whose files are readable and whose ids parse, each as the artifact of that id and file |
| JsonCodec.JsonPath | reactorstate-maven-common/src/main/java/de/syquel/maven/reactorstate/common/persistence/json/JsonReactorStateRepository.java:120-125 | the state file is `reactorstate-maven.json` directly inside the module's build directory |
| JsonCodec.ToDto | reactorstate-maven-common/src/main/java/de/syquel/maven/reactorstate/common/persistence/json/JsonReactorStateRepository.java:109-118 | a record holds the artifact's id, its properties and its path relative to the base directory, or no path for an artifact without file |
| JsonCodec.FromDto | reactorstate-maven-common/src/main/java/de/syquel/maven/reactorstate/common/persistence/json/JsonReactorStateRepository.java:86-94 | a record becomes an artifact with the parsed coordinates and the record's properties, with the path resolved against the base directory, or no file |
| JsonCodec.Encode | reactorstate-maven-common/src/main/java/de/syquel/maven/reactorstate/common/persistence/json/JsonReactorStateRepository.java:96-107 | the document carries the project's id |
| JsonCodec.Decode | reactorstate-maven-common/src/main/java/de/syquel/maven/reactorstate/common/persistence/json/JsonReactorStateRepository.java:74-84 | the state read is the state of the module it is read for |
| JsonCodec.RecordRoundTrip | reactorstate-maven-common/src/main/java/de/syquel/maven/reactorstate/common/persistence/json/JsonReactorStateRepository.java:86-118 | reading back one record gives the artifact it was written from, with or without a file |
| JsonCodec.RecordInjective | reactorstate-maven-common/src/main/java/de/syquel/maven/reactorstate/common/persistence/json/JsonReactorStateRepository.java:102-103 | two different storable artifacts never write the same record, so the record set loses no attached artifact |
| JsonCodec.AttachedRecordsCounted | reactorstate-maven-common/src/main/java/de/syquel/maven/reactorstate/common/persistence/json/JsonReactorStateRepository.java:102-103 | there are as many attached records as attached artifacts |
| JsonCodec.RoundTrip | reactorstate-maven-common/src/main/java/de/syquel/maven/reactorstate/common/persistence/json/JsonReactorStateRepository.java:74-107 | reading back the document `save` builds gives the saved state exactly |
| JsonCodec.ProjectIdIgnored | reactorstate-maven-common/src/main/java/de/syquel/maven/reactorstate/common/persistence/json/JsonReactorStateRepository.java:97 | the stored project id plays no part in reading |
| JsonCodec.PomReadIndependently | reactorstate-maven-common/src/main/java/de/syquel/maven/reactorstate/common/persistence/json/JsonReactorStateRepository.java:77-78 | the POM is read from its own record, independently of the main artifact |
| Repositories.StatePath | reactorstate-maven-common/src/main/java/de/syquel/maven/reactorstate/common/persistence/json/JsonReactorStateRepository.java:120-125 | the state file is a file directly inside the module's build directory |
| Repositories.DecodeDocument | reactorstate-maven-common/src/main/java/de/syquel/maven/reactorstate/common/persistence/json/JsonReactorStateRepository.java:48 | a decoded document is a state of the module it is read for; a properties table is decoded with the corrected reading of the POM path |
| Repositories.Read | reactorstate-maven-common/src/main/java/de/syquel/maven/reactorstate/common/persistence/PropertiesReactorStateRepository.java:33-38 | there is no state exactly when there is no state file (for the properties format, also when there is no build directory); a state read is the module's own; a properties file is decoded with the corrected reading of the POM path |
| Repositories.MakeBuildDirectory | reactorstate-maven-common/src/main/java/de/syquel/maven/reactorstate/common/persistence/PropertiesReactorStateRepository.java:90-93 | afterwards the build directory exists; it fails exactly when it is not a directory and cannot be created: for the properties repository its parent is missing or a file is in its place, for JSON a file is in the place of it or of an ancestor |
| Repositories.Save | reactorstate-maven-common/src/main/java/de/syquel/maven/reactorstate/common/persistence/PropertiesReactorStateRepository.java:87-101 | saving succeeds exactly when the build directory can be made, the state file is not a directory and the state can be serialised; the state file then holds the serialised state |
| Repositories.Delete | reactorstate-maven-common/src/main/java/de/syquel/maven/reactorstate/common/persistence/PropertiesReactorStateRepository.java:104-107 | after deleting, the module's state file is gone and no directory changes |
| Repositories.SerializeRoundTrip | reactorstate-maven-common/src/main/java/de/syquel/maven/reactorstate/common/persistence/PropertiesReactorStateRepository.java:95 | the serialised state decodes back to the state, in both formats; the properties decoder as written gives it back except that a POM distinct from the main artifact keeps its path relative to the base directory |
| Repositories.SaveThenRead | reactorstate-maven-common/src/main/java/de/syquel/maven/reactorstate/common/persistence/PropertiesReactorStateRepository.java:33-101 | after saving a storable state where the build directory can be made and the state file is not a directory, reading that module gives the state back, in both formats, with the corrected properties reader; the saved properties file decoded as written gives the state back except for a separate POM's relative path |
| Repositories.DeleteThenRead | reactorstate-maven-common/src/main/java/de/syquel/maven/reactorstate/common/persistence/PropertiesReactorStateRepository.java:104-107 | after deleting, reading that module finds no state |
| Repositories.SaveKeepsOtherFiles | reactorstate-maven-common/src/main/java/de/syquel/maven/reactorstate/common/persistence/PropertiesReactorStateRepository.java:97-100 | saving changes no file other than the module's state file |
| StateManagers.Index | reactorstate-maven-common/src/main/java/de/syquel/maven/reactorstate/common/AbstractReactorStateManager.java:18-22 | the map holds exactly the modules of the states given, each under its own module, and each value is one of the states given |
| StateManagers.IndexLastWins | reactorstate-maven-common/src/main/java/de/syquel/maven/reactorstate/common/AbstractReactorStateManager.java:19-21 | a state that no later state of the same module follows is the one the map holds |
| StateManagers.IndexSize | reactorstate-maven-common/src/main/java/de/syquel/maven/reactorstate/common/AbstractReactorStateManager.java:18-22 | the map holds at most as many states as were given, and exactly as many when no two are for the same module |
| StateManagers.IndexHoldsEach | reactorstate-maven-common/src/main/java/de/syquel/maven/reactorstate/common/AbstractReactorStateManager.java:18-22 | every module of the given set has an entry, holding one of the set's states |
| StateManagers.IndexOfDistinct | reactorstate-maven-common/src/main/java/de/syquel/maven/reactorstate/common/AbstractReactorStateManager.java:18-22 | when the set has one state per module, each module's entry is its state |
| StateManagers.IndexSizeOfSet | reactorstate-maven-common/src/main/java/de/syquel/maven/reactorstate/common/AbstractReactorStateManager.java:18-22 | the map has at most as many entries as the set has states |
| StateManagers.IndexSizeOfDistinct | reactorstate-maven-common/src/main/java/de/syquel/maven/reactorstate/common/AbstractReactorStateManager.java:18-22 | with one state per module, the map has one entry per state |
| StateManagers.PutAll | reactorstate-maven-common/src/main/java/de/syquel/maven/reactorstate/common/AbstractReactorStateManager.java:19-21 | the map the constructor fills is the map of the set's states in the order the set was visited |
| StateManagers.StateManager.constructor | reactorstate-maven-common/src/main/java/de/syquel/maven/reactorstate/common/AbstractReactorStateManager.java:18-22 | every given state is under its module, each module holds one of the given states, and there are no more entries than states |
| StateManagers.StateManager.GetProjectStates | reactorstate-maven-common/src/main/java/de/syquel/maven/reactorstate/common/AbstractReactorStateManager.java:24-26 | the set returned is exactly the states held, one per module |
| StateManagers.StateManager.GetProjectState | reactorstate-maven-common/src/main/java/de/syquel/maven/reactorstate/common/AbstractReactorStateManager.java:28-30 | the state held for the module, or none exactly when the module has no entry |
| RuntimeManager.BuildProjectState | reactorstate-maven-common/src/main/java/de/syquel/maven/reactorstate/common/RuntimeReactorStateManager.java:58-76 | the POM has the main artifact's POM coordinates and the module's descriptor file; a module whose artifact has extension `pom` gets the POM as main artifact, any other its own artifact; the attached set holds exactly the attached artifacts |
| RuntimeManager.CaptureAll | reactorstate-maven-common/src/main/java/de/syquel/maven/reactorstate/common/RuntimeReactorStateManager.java:27-31 | the set built holds the captured state of each module of the session, and one state per module when the session's modules are distinct |
| RuntimeManager.CapturedOnePerModule | reactorstate-maven-common/src/main/java/de/syquel/maven/reactorstate/common/RuntimeReactorStateManager.java:26-34 | with distinct modules no two captured states belong to the same module |
| RuntimeManager.DistinctSessionIndexed | reactorstate-maven-common/src/main/java/de/syquel/maven/reactorstate/common/RuntimeReactorStateManager.java:26-34 | with distinct modules the map holds every module's captured state under that module |
| RuntimeManager.Create | reactorstate-maven-common/src/main/java/de/syquel/maven/reactorstate/common/RuntimeReactorStateManager.java:26-34 | the new manager holds the captured states; with distinct modules it has exactly one entry per module, holding that module's captured state |
| RuntimeManager.SaveOne | reactorstate-maven-common/src/main/java/de/syquel/maven/reactorstate/common/RuntimeReactorStateManager.java:42-56 | saving succeeds exactly when the build directory can be made (its parent exists and no file is in its place), the state file is not a directory and the table can be built; the state file then holds the older layout of the state, and no file that was readable stops being readable |
| RuntimeManager.SaveOneKeeps | reactorstate-maven-common/src/main/java/de/syquel/maven/reactorstate/common/RuntimeReactorStateManager.java:52-55 | saving one state changes no file other than its state file |
| RuntimeManager.SaveEachStops | reactorstate-maven-common/src/main/java/de/syquel/maven/reactorstate/common/RuntimeReactorStateManager.java:36-40 | after the first state that fails to save, no further state is saved |
| RuntimeManager.SaveAllWritesEach | reactorstate-maven-common/src/main/java/de/syquel/maven/reactorstate/common/RuntimeReactorStateManager.java:36-40 | when saving every state succeeds and their state files are distinct, every state file holds its own state |
| RuntimeManager.SaveAllKeeps | reactorstate-maven-common/src/main/java/de/syquel/maven/reactorstate/common/RuntimeReactorStateManager.java:36-40 | saving every state changes no file other than the state files |
| RuntimeManager.SaveProjectState | reactorstate-maven-common/src/main/java/de/syquel/maven/reactorstate/common/RuntimeReactorStateManager.java:42-56 | the method saves exactly as specified, for the order in which the attached set was visited |
| RuntimeManager.SaveProjectStates | reactorstate-maven-common/src/main/java/de/syquel/maven/reactorstate/common/RuntimeReactorStateManager.java:36-40 | every held state is saved in the order the set was visited, stopping at the first failure |
| RuntimeManager.SaveThenLoad | reactorstate-maven-common/src/main/java/de/syquel/maven/reactorstate/common/RuntimeReactorStateManager.java:42-56 | what the runtime manager saves where it can save, the saved state manager loads back as the stored state with relative paths and without properties |
| SavedManager.LoadEach | reactorstate-maven-common/src/main/java/de/syquel/maven/reactorstate/common/SavedReactorStateManager.java:50-56 | loading succeeds exactly when every module loads without an exception |
| SavedManager.LoadEachMembers | reactorstate-maven-common/src/main/java/de/syquel/maven/reactorstate/common/SavedReactorStateManager.java:50-56 | every state loaded is the state of one of the modules |
| SavedManager.LoadEachHoldsEach | reactorstate-maven-common/src/main/java/de/syquel/maven/reactorstate/common/SavedReactorStateManager.java:50-56 | every module that has a state contributes it |
| SavedManager.LoadEachStops | reactorstate-maven-common/src/main/java/de/syquel/maven/reactorstate/common/SavedReactorStateManager.java:50-56 | after the first module that fails, no further module is loaded |
| SavedManager.LoadAllMembers | reactorstate-maven-common/src/main/java/de/syquel/maven/reactorstate/common/SavedReactorStateManager.java:50-56 | every state loaded belongs to one of the modules and is read from that module's own state file |
| SavedManager.LoadAllHoldsEach | reactorstate-maven-common/src/main/java/de/syquel/maven/reactorstate/common/SavedReactorStateManager.java:50-56 | every module whose state file loads contributes its state |
| SavedManager.LoadProjectStates | reactorstate-maven-common/src/main/java/de/syquel/maven/reactorstate/common/SavedReactorStateManager.java:50-56 | the loop loads the states of the modules in the order the set was visited |
| SavedManager.CreateSaved | reactorstate-maven-common/src/main/java/de/syquel/maven/reactorstate/common/SavedReactorStateManager.java:38-59 | the manager holds the states loaded from the discovered modules; a discovery failure or a failed load fails the creation |
| SavedManager.CreatedFindsLoaded | reactorstate-maven-common/src/main/java/de/syquel/maven/reactorstate/common/SavedReactorStateManager.java:50-58 | the created manager has an entry for every module whose state file loads, and every entry is a state loaded from one of the modules |
| SavedManager.MissingState | reactorstate-maven-common/src/main/java/de/syquel/maven/reactorstate/common/SavedReactorStateManager.java:66-68 | a module without a state is an illegal state |
| SavedManager.Reattached | reactorstate-maven-common/src/main/java/de/syquel/maven/reactorstate/common/SavedReactorStateManager.java:78 | a reattached artifact has the restored artifact's extension, classifier and file on the module's own group, artifact id and version |
| SavedManager.ReattachedAll | reactorstate-maven-common/src/main/java/de/syquel/maven/reactorstate/common/SavedReactorStateManager.java:74-80 | the restored attached artifacts are the reattached artifacts, one per saved attached artifact, in iteration order |
| SavedManager.RestoreProject | reactorstate-maven-common/src/main/java/de/syquel/maven/reactorstate/common/SavedReactorStateManager.java:70-80 | the module gets the saved main file and exactly the saved attached artifacts, reattached in the order the set was visited |
| SavedManager.RestoreProjectStates | reactorstate-maven-common/src/main/java/de/syquel/maven/reactorstate/common/SavedReactorStateManager.java:61-82 | the restore passes exactly when every module has a state; every module restored gets its saved state, and the others are untouched; a failure names a module without a state |
| SavedManager.RestoreThenCapture | reactorstate-maven-common/src/main/java/de/syquel/maven/reactorstate/common/SavedReactorStateManager.java:61-82 | a restored module captured again by the running build carries the saved attached artifacts, and the saved main file unless its artifact is a POM |
| Workspace.BuildModule | reactorstate-maven-common/src/main/java/de/syquel/maven/reactorstate/common/SavedReactorStateManager.java:92-94 | a module is built from the descriptor `basedir/module/pom.xml`, and the build fails exactly when no project is described there |
| Workspace.Parent | reactorstate-maven-common/src/main/java/de/syquel/maven/reactorstate/common/SavedReactorStateManager.java:105 | the parent is the project of the module's parent reference, when the builder knows it |
| Workspace.SessionProjects | reactorstate-maven-common/src/main/java/de/syquel/maven/reactorstate/common/SavedReactorStateManager.java:41 | the set holds only projects of the session, each under its own identity |
| Workspace.SessionProjectsHold | reactorstate-maven-common/src/main/java/de/syquel/maven/reactorstate/common/SavedReactorStateManager.java:41 | every module of the session is in the set |
| Workspace.SessionProjectsFirstWins | reactorstate-maven-common/src/main/java/de/syquel/maven/reactorstate/common/SavedReactorStateManager.java:41 | a module that no earlier module equals is held as itself |
| Workspace.Contributed | reactorstate-maven-common/src/main/java/de/syquel/maven/reactorstate/common/SavedReactorStateManager.java:84-111 | discovery keeps every project already discovered, as the same object |
| Workspace.ContributedModules | reactorstate-maven-common/src/main/java/de/syquel/maven/reactorstate/common/SavedReactorStateManager.java:91-103 | the loop over the declared modules keeps every project already discovered |
| Workspace.ContributedAfterModules | reactorstate-maven-common/src/main/java/de/syquel/maven/reactorstate/common/SavedReactorStateManager.java:105-110 | after the modules, an undiscovered parent is added and explored, and otherwise nothing more happens |
| Workspace.Discover | reactorstate-maven-common/src/main/java/de/syquel/maven/reactorstate/common/SavedReactorStateManager.java:41-48 | without an execution root with a parent, the projects are the session's; otherwise they extend the session's |
| Workspace.ContributedIsClosed | reactorstate-maven-common/src/main/java/de/syquel/maven/reactorstate/common/SavedReactorStateManager.java:84-111 | after discovery the project and every project it added have all their declared modules discovered, and their parents too |
| Workspace.ContributedModulesAreClosed | reactorstate-maven-common/src/main/java/de/syquel/maven/reactorstate/common/SavedReactorStateManager.java:91-103 | after the loop every remaining declared module is discovered, and every project added is closed in the same way |
| Workspace.Discovery.constructor | reactorstate-maven-common/src/main/java/de/syquel/maven/reactorstate/common/SavedReactorStateManager.java:41 | discovery starts from the session's projects |
| Workspace.Discovery.Contribute | reactorstate-maven-common/src/main/java/de/syquel/maven/reactorstate/common/SavedReactorStateManager.java:84-111 | the method discovers exactly what the recursive definition does, and fails when it does |
| Workspace.Discovery.ContributeParent | reactorstate-maven-common/src/main/java/de/syquel/maven/reactorstate/common/SavedReactorStateManager.java:105-110 | the parent step discovers exactly what the definition does |
| Workspace.Discovery.ContributeModules | reactorstate-maven-common/src/main/java/de/syquel/maven/reactorstate/common/SavedReactorStateManager.java:91-103 | the modules loop discovers exactly what the definition does |
| Workspace.Discovery.ContributeModule | reactorstate-maven-common/src/main/java/de/syquel/maven/reactorstate/common/SavedReactorStateManager.java:92-102 | one declared module: built, added and explored when new, skipped when already discovered |
| Workspace.StubSessionFindsAllProjects | reactorstate-maven-common/src/test/java/de/syquel/maven/reactorstate/common/SavedReactorStateManagerTest.java:95-132 | on the stub workspace, a session of `module2` alone finds the top-level project and all three modules |
| WorkspaceReaders.ArtifactIndex | reactorstate-maven-extension/src/main/java/de/syquel/maven/reactorstate/extension/workspacereader/ReactorStateWorkspaceReader.java:91-93 | the lookup map holds exactly the versionless ids of the artifacts added, each under its own id |
| WorkspaceReaders.ArtifactIndexLastWins | reactorstate-maven-extension/src/main/java/de/syquel/maven/reactorstate/extension/workspacereader/ReactorStateWorkspaceReader.java:91-93 | an artifact that no later artifact with the same versionless id follows is the one held |
| WorkspaceReaders.SameBaseIdSameKey | reactorstate-maven-extension/src/main/java/de/syquel/maven/reactorstate/extension/workspacereader/ReactorStateWorkspaceReader.java:73-74 | an artifact with the same base id as the query is held under the query's versionless id |
| WorkspaceReaders.StateArtifacts | reactorstate-maven-extension/src/main/java/de/syquel/maven/reactorstate/extension/workspacereader/ReactorStateWorkspaceReader.java:56-63 | for each state visited, its POM, main artifact and attached artifacts are added, so at least two artifacts per state |
| WorkspaceReaders.StateArtifactsHold | reactorstate-maven-extension/src/main/java/de/syquel/maven/reactorstate/extension/workspacereader/ReactorStateWorkspaceReader.java:56-63 | the POM, the main artifact and every attached artifact of every visited state are added |
| WorkspaceReaders.HeldStatesCover | reactorstate-maven-extension/src/main/java/de/syquel/maven/reactorstate/extension/workspacereader/ReactorStateWorkspaceReader.java:56 | iterating the manager's states visits one state for every module loaded |
| WorkspaceReaders.AcquireFailure | reactorstate-maven-extension/src/main/java/de/syquel/maven/reactorstate/extension/workspacereader/ReactorStateWorkspaceReader.java:50-54 | a project-building or I/O failure becomes "Cannot acquire saved reactor state"; other exceptions pass through |
| WorkspaceReaders.ReactorStateWorkspaceReader.constructor | reactorstate-maven-extension/src/main/java/de/syquel/maven/reactorstate/extension/workspacereader/ReactorStateWorkspaceReader.java:39-45 | a new reader has the given repository and an empty lookup map |
| WorkspaceReaders.ReactorStateWorkspaceReader.GetRepository | reactorstate-maven-extension/src/main/java/de/syquel/maven/reactorstate/extension/workspacereader/ReactorStateWorkspaceReader.java:66-69 | the repository is the reader's own |
| WorkspaceReaders.ReactorStateWorkspaceReader.Add | reactorstate-maven-extension/src/main/java/de/syquel/maven/reactorstate/extension/workspacereader/ReactorStateWorkspaceReader.java:91-93 | the artifact is put under its versionless id |
| WorkspaceReaders.ReactorStateWorkspaceReader.AddState | reactorstate-maven-extension/src/main/java/de/syquel/maven/reactorstate/extension/workspacereader/ReactorStateWorkspaceReader.java:57-62 | adds the POM, the main artifact and then the attached artifacts, in the order the set was visited |
| WorkspaceReaders.ReactorStateWorkspaceReader.AddStates | reactorstate-maven-extension/src/main/java/de/syquel/maven/reactorstate/extension/workspacereader/ReactorStateWorkspaceReader.java:56-63 | adds the artifacts of every state held, in the order the set was visited |
| WorkspaceReaders.ReactorStateWorkspaceReader.AfterProjectsRead | reactorstate-maven-extension/src/main/java/de/syquel/maven/reactorstate/extension/workspacereader/ReactorStateWorkspaceReader.java:47-64 | when loading succeeds, the artifacts of a state for every loaded module are added; when it fails, nothing is added |
| WorkspaceReaders.ReactorStateWorkspaceReader.FindArtifact | reactorstate-maven-extension/src/main/java/de/syquel/maven/reactorstate/extension/workspacereader/ReactorStateWorkspaceReader.java:71-79 | a file found belongs to an added artifact with the query's base id |
| WorkspaceReaders.ReactorStateWorkspaceReader.FindVersions | reactorstate-maven-extension/src/main/java/de/syquel/maven/reactorstate/extension/workspacereader/ReactorStateWorkspaceReader.java:81-89 | at most one version, that of an added artifact with the query's base id, and exactly one whenever `findArtifact` finds a file |
| WorkspaceReaders.ReactorStateWorkspaceReader.FindsLastAdded | reactorstate-maven-extension/src/main/java/de/syquel/maven/reactorstate/extension/workspacereader/ReactorStateWorkspaceReader.java:71-89 | the last artifact added under the query's key answers both lookups when it has the query's base id |
| WorkspaceReaders.ReactorStateWorkspaceReader.FindsNothingUnknown | reactorstate-maven-extension/src/main/java/de/syquel/maven/reactorstate/extension/workspacereader/ReactorStateWorkspaceReader.java:71-89 | a query with a versionless id under which nothing was added finds no file and no version |
| Plugin.CreateProperties | reactorstate-maven-plugin/src/main/java/de/syquel/maven/reactorstate/plugin/config/ReactorStatePluginProperties.java:45-56 | a resource that cannot be loaded fails; a missing key fails as a null dereference; otherwise the extension's artifact is the parsed coordinates, without file or properties, and bad coordinates fail |
| Plugin.CreatePropertiesOfId | reactorstate-maven-plugin/src/main/java/de/syquel/maven/reactorstate/plugin/config/ReactorStatePluginProperties.java:51-52 | a resource naming the id of valid coordinates gives exactly that artifact |
| Plugin.GetExtensionArtifact | reactorstate-maven-plugin/src/main/java/de/syquel/maven/reactorstate/plugin/config/ReactorStatePluginProperties.java:71-76 | the artifact keeps the group, artifact id, extension and version, and takes the classifier given or else the stored one |
| Plugin.GetDefaultExtensionArtifact | reactorstate-maven-plugin/src/main/java/de/syquel/maven/reactorstate/plugin/config/ReactorStatePluginProperties.java:61-63 | the default artifact has the stored coordinates, and differs from any classified artifact only in the classifier |
| Plugin.CoreExtensions.AddExtension | reactorstate-maven-plugin/src/main/java/de/syquel/maven/reactorstate/plugin/ReactorStateInstallLocalMojo.java:88 | the extension is appended after those already listed |
| Plugin.ExtensionsPath | reactorstate-maven-plugin/src/main/java/de/syquel/maven/reactorstate/plugin/ReactorStateInstallLocalMojo.java:37 | the extensions file lies in a directory below the top-level project's base directory |
| Plugin.ExtensionArtifact | reactorstate-maven-plugin/src/main/java/de/syquel/maven/reactorstate/plugin/ReactorStateInstallLocalMojo.java:64-70 | the goal's artifact is the properties' extension artifact, and fails exactly when they cannot be created |
| Plugin.ArtifactFailure | reactorstate-maven-plugin/src/main/java/de/syquel/maven/reactorstate/plugin/ReactorStateInstallLocalMojo.java:68-70 | an I/O failure becomes "Cannot determine extension artifact"; other exceptions pass through |
| Plugin.AsWrittenSkipsSiblingExtension | reactorstate-maven-plugin/src/main/java/de/syquel/maven/reactorstate/plugin/ReactorStateInstallLocalMojo.java:78-86 | as written, a file listing only another extension of the same group counts as already holding this extension, so it is never registered |
| Plugin.SameExtensionAsWritten | reactorstate-maven-plugin/src/main/java/de/syquel/maven/reactorstate/plugin/ReactorStateInstallLocalMojo.java:80 | as written, an entry matches exactly when its group is the extension's, whatever its artifact id, so it accepts every entry the intended check accepts |
| Plugin.RegisteredAsWritten | reactorstate-maven-plugin/src/main/java/de/syquel/maven/reactorstate/plugin/ReactorStateInstallLocalMojo.java:78-86 | as written, the loop returns exactly when some listed entry has the extension's group, and whenever the intended check would |
| Plugin.Fetch | reactorstate-maven-plugin/src/main/java/de/syquel/maven/reactorstate/plugin/ReactorStateInstallLocalMojo.java:100-124 | a missing file is created empty and gives no extensions, or fails with "Cannot create Maven core extensions" when a file is in the way of its directories; an existing file is left alone and gives its extensions, or "Cannot read Maven core extensions" when it does not parse |
| Plugin.Persist | reactorstate-maven-plugin/src/main/java/de/syquel/maven/reactorstate/plugin/ReactorStateInstallLocalMojo.java:132-141 | writing succeeds exactly when the directory exists and the path is not a directory, and the file then holds the extensions given; otherwise "Cannot write Maven core extensions" |
| Plugin.FindExtension | reactorstate-maven-plugin/src/main/java/de/syquel/maven/reactorstate/plugin/ReactorStateInstallLocalMojo.java:78-86 | the registration loop finds an entry exactly when the list holds one with the extension's group and artifact id (the corrected check) |
| Plugin.Register | reactorstate-maven-plugin/src/main/java/de/syquel/maven/reactorstate/plugin/ReactorStateInstallLocalMojo.java:78-91 | after the fetch, a registered extension ends the goal with the file as it is; otherwise the list with the entry appended is persisted; on success the file registers the extension and keeps the listed entries in order |
| Plugin.Execute | reactorstate-maven-plugin/src/main/java/de/syquel/maven/reactorstate/plugin/ReactorStateInstallLocalMojo.java:62-92 | an extension already registered leaves the file as fetched; otherwise it is appended and persisted; on success the file registers the extension and keeps every extension it listed before, in order. The scan uses the corrected check (same group and same artifact id), not line 80's repeated group comparison |
| Plugin.FetchedDocumentReadable | reactorstate-maven-plugin/src/main/java/de/syquel/maven/reactorstate/plugin/ReactorStateInstallLocalMojo.java:100-124 | a non-empty list fetched is what the file holds |
| Plugin.RegisteredStaysPut | reactorstate-maven-plugin/src/main/java/de/syquel/maven/reactorstate/plugin/ReactorStateInstallLocalMojo.java:78-86 | a file that already registers the extension is fetched unchanged, with its own extensions |

## Left out

- Text syntax is left out. A state file holds its parsed document: a property table, a JSON record, or the list of core extensions. Escaping in `Properties.store`/`load` is left out, and so are JSON and XML syntax, the `modelEncoding` the goal sets and the state file's comment line.
- Logging is left out, including the "already registered" and "Registered" messages of `install-local`.
- The lifecycle glue (the save extension, the `save` and `restore` goals) and the delegating IDE workspace reader are not part of this model. They only call the operations modelled here.
- `RepositoryUtils.toArtifact` and `toArtifacts` are taken as the identity between Maven's and Aether's artifacts.
- `MavenProjectHelper.attachArtifact` is taken as appending an artifact that keeps the restored artifact's extension. Maven's mapping from type to extension through artifact handlers is not modelled.
- `IReactorStateRepository` is a datatype with one constructor per implementation, and every operation dispatches on it. There is no dynamic dispatch.
- `pom != mainArtifact` compares objects. The model reads it as "`toPomArtifact` handed its argument back". That happens exactly for an artifact with extension `pom` and no classifier.
- Paths follow `java.nio.file.Path` on Unix without normalisation. The round trips are proved for files that lie under the module's base directory. Paths that reach a file elsewhere through `..` are not covered.
- `FlatRoundTrip.RoundTrip` and `Repositories.SaveThenRead` assume that no artifact's property prefix `property.<id>.` is a prefix of another's. Otherwise reading the properties of one artifact also picks up those of the other. Within one module, whose artifacts share group, artifact id and version, this happens when an artifact without classifier and one of the same extension whose classifier begins with the version followed by `.` both exist (`g:a:jar:1` and `g:a:jar:1.x:1`): the program then reads the classified artifact's properties into the unclassified one as well, under names of the form `x:1.<name>` (`FlatRoundTrip.ClassifierExtendsPrefix`).
- `JsonCodec.FromDto` reads a record's properties as given. A `null` property map in a hand-edited JSON file is not modelled.
- `Workspace.Parent` treats a parent the project builder cannot resolve as absent, as `getParent()` returns `null` for it.
- `FileSystems.DeleteIfExists` removes only a file. A directory at the path, which `Files.deleteIfExists` removes when it is empty and refuses when it is not, is left in place.
- `Repositories.DecodeDocument` reads a state file of the other format as an I/O error. It also decodes a properties table with the corrected reading of the POM path (`FlatCodec.Decode`), not line 61's unresolved `Paths.get`; `FlatCodec.DecodeAsWritten` is that reading.
- `Repositories.Read` uses the corrected properties decoder, so for a module whose main artifact is not a POM it gives the POM's file resolved against the base directory, where the program gives the stored relative path.
- `Repositories.SerializeRoundTrip` and `Repositories.SaveThenRead` state the full round trip for the corrected properties reader only; for the reader as written they state the round trip up to a separate POM's relative path (`FlatRoundTrip.AsWrittenState`).
- `FlatCodec.ReadStateProperties` computes the corrected decoding: it resolves the POM path against the base directory, which line 61 does not.
- `LegacyCodec.LoadState`, `LegacyCodec.LoadAttachedArtifacts` and `LegacyCodec.LoadProjectState` model the corrected loop of lines 148-155: an attached entry whose file is gone is left out, where the program adds the `null` that `buildArtifact` returns. `LegacyCodec.LoadAsWritten` keeps those nulls.
- `SavedManager.CreateSaved` and `SavedManager.RestoreProjectStates` therefore work on states without nulls. As written, a state file with an attached entry whose file is gone makes `restoreProjectStates` throw a `NullPointerException` at line 78; the model does not produce that failure.
- `Plugin.Execute` scans with the corrected check (same group and same artifact id). As written, line 80 compares the groups twice, so any extension of the same group counts as registered (`Plugin.RegisteredAsWritten`).
- `SavedManager.CreateSaved`: on a failed discovery the contract says only that the creation fails, not which exception it fails with.
- `WorkspaceReaders.ReactorStateWorkspaceReader.constructor` takes the workspace repository's key as a parameter. `new WorkspaceRepository()` draws a random one.
- `Plugin.CreateProperties` takes the loaded class-path resource, or the I/O failure loading it, as a parameter.
- `FileSystems.WriteFile`, `FileSystems.CreateDirectory` and `FileSystems.CreateDirectories` fail only for the shape of the file system: a missing parent, a file or directory in the way. Permission, read-only and disk-full failures, and other environmental I/O errors of `Files.newBufferedWriter`, `Files.createDirectory` and `Files.createDirectories`, are not modelled. So `Repositories.Save`, `RuntimeManager.SaveOne` and `Plugin.Persist` succeed in some cases where the program throws an `IOException`.
- `RuntimeManager.BuildProjectState` always gives the POM the module's descriptor file. A project whose `getFile()` is `null` cannot be expressed, because `Projects.ProjectInfo.file` is not optional.
- `Plugin.Fetch` produces "Cannot create Maven core extensions" only for a file in the way of the `.mvn` directory. Other I/O failures of `Files.createDirectories` and `Files.createFile`, such as missing permissions, are not modelled.
- `Plugin.CoreExtensions.constructor` models only the three coordinates of a core extension. Its other fields are not kept.
- `Plugin.ExtensionsPath`: the contract states only that the file has a parent directory to create. The names `.mvn/extensions.xml` are its definition.
- `ProjectStates.ArtifactState.Equals`: `getClass()` is not modelled, because there are no subclasses.
- `ProjectStates.ArtifactState.HashCode` computes the hash in 32-bit arithmetic over the coordinates and the file's path string. The exact value of `File.hashCode` on other platforms is not modelled. Strings are hashed over Unicode characters, not over UTF-16 code units as `String.hashCode` does, so a text holding a character outside the Basic Multilingual Plane hashes differently.
- `StateManagers.StateManager.GetProjectStates` returns a value. The fresh `HashSet` the method allocates has no identity in the model.
- `data.MavenProjectState` is the value `ProjectStates.ArtifactStates`. It has no operation besides its constructor and getters, so no row names it.

## Findings

| source | as written | input that shows it | evidently intended | confidence | as-written member | corrected member |
|---|---|---|---|---|---|---|
| reactorstate-maven-common/src/main/java/de/syquel/maven/reactorstate/common/persistence/PropertiesReactorStateRepository.java:59-62 | the POM path is `Paths.get` of the stored text, not resolved against the base directory as lines 47 and 73 do | a module `/ws/m` with a `jar` main artifact and POM file `/ws/m/pom.xml`: `save` stores `pom.xml`, and `read` gives back the relative path `pom.xml` | resolve the POM path against the base directory, so that reading back what `save` wrote gives the saved state | not executed | FlatRoundTrip.AsWrittenPomPathStaysRelative | FlatRoundTrip.RoundTrip |
| reactorstate-maven-common/src/main/java/de/syquel/maven/reactorstate/common/SavedReactorStateManager.java:148-155 | `buildArtifact` returns `null` for an attached artifact whose file is gone ("Ignoring."), and the loop adds that `null` to the attached set | a state file with an attached entry whose file has been deleted | leave the missing artifact out of the set, as the warning says | not executed | LegacyCodec.AsWrittenKeepsNull | LegacyCodec.LoadedAttachedAreReadable |
| reactorstate-maven-plugin/src/main/java/de/syquel/maven/reactorstate/plugin/ReactorStateInstallLocalMojo.java:80 | `sameArtifactId` compares the group ids again, not the artifact ids | `.mvn/extensions.xml` listing only `de.syquel.maven.reactorstate:another-extension:1.0.0`: the goal says "already registered" and does not register the extension | compare the artifact ids, so that only an entry for this extension counts as registered | not executed | Plugin.AsWrittenSkipsSiblingExtension | Plugin.Execute |
