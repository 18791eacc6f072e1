/**
 * The persisted record of one module's outputs, in the two shapes the code
 * base has: over plain artifacts, and over artifact states that can carry
 * repository metadata.
 */
module ProjectStates {
  import opened Wrappers
  import opened Paths
  import opened Artifacts
  import opened Projects

  /**
   * `common.MavenProjectState`. Its attached artifacts are a value: the copy the
   * Java constructor takes, and the read-only view its getter hands out, are
   * what a Dafny set already is.
   */
  datatype ProjectState = ProjectState(
    project: ProjectInfo, pom: Artifact, mainArtifact: Artifact, attachedArtifacts: set<Artifact>)

  /** An opaque repository metadata document. */
  datatype Metadata = Metadata(document: string)

  /** `String.hashCode()` in 32-bit arithmetic: `h = 31 * h + c` over the characters. */
  function StringHash(s: string): bv32
  {
    if |s| == 0 then 0
    else 31 * StringHash(s[..|s| - 1]) + ((s[|s| - 1] as int) as bv32)
  }

  /** The hash of a file: its path string's hash mixed with a constant, as on Unix. */
  function FileHash(file: Option<Path>): bv32
  {
    match file
    case None => 0
    case Some(p) => StringHash(Render(p)) ^ 1234321
  }

  /**
   * `Arrays.hashCode` of the values `Objects.hash` is given: from 1, each
   * value added to 31 times the hash so far, in 32-bit arithmetic.
   */
  function ObjectsHash(values: seq<bv32>): bv32
  {
    if |values| == 0 then 1
    else 31 * ObjectsHash(values[..|values| - 1]) + values[|values| - 1]
  }

  /** The Aether artifact hash over the coordinates and the file. */
  function ArtifactHash(a: Artifact): bv32
  {
    var h := 17;
    var h := 31 * h + StringHash(a.coords.groupId);
    var h := 31 * h + StringHash(a.coords.artifactId);
    var h := 31 * h + StringHash(a.coords.extension);
    var h := 31 * h + StringHash(a.coords.classifier);
    var h := 31 * h + StringHash(a.coords.version);
    31 * h + FileHash(a.file)
  }

  /**
   * `data.MavenArtifactState`: a fixed artifact and three metadata slots that
   * start empty and are set independently.
   */
  class ArtifactState {
    const artifact: Artifact
    var artifactRepositoryMetadata: Option<Metadata>
    var groupRepositoryMetadata: Option<Metadata>
    var snapshotRepositoryMetadata: Option<Metadata>

    constructor (artifact: Artifact)
      ensures this.artifact == artifact
      ensures artifactRepositoryMetadata.None? && groupRepositoryMetadata.None?
      ensures snapshotRepositoryMetadata.None?
    {
      this.artifact := artifact;
      artifactRepositoryMetadata := None;
      groupRepositoryMetadata := None;
      snapshotRepositoryMetadata := None;
    }

    method SetArtifactRepositoryMetadata(m: Option<Metadata>)
      modifies this`artifactRepositoryMetadata
      ensures artifactRepositoryMetadata == m
      ensures groupRepositoryMetadata == old(groupRepositoryMetadata)
      ensures snapshotRepositoryMetadata == old(snapshotRepositoryMetadata)
    {
      artifactRepositoryMetadata := m;
    }

    method SetGroupRepositoryMetadata(m: Option<Metadata>)
      modifies this`groupRepositoryMetadata
      ensures groupRepositoryMetadata == m
      ensures artifactRepositoryMetadata == old(artifactRepositoryMetadata)
      ensures snapshotRepositoryMetadata == old(snapshotRepositoryMetadata)
    {
      groupRepositoryMetadata := m;
    }

    method SetSnapshotRepositoryMetadata(m: Option<Metadata>)
      modifies this`snapshotRepositoryMetadata
      ensures snapshotRepositoryMetadata == m
      ensures artifactRepositoryMetadata == old(artifactRepositoryMetadata)
      ensures groupRepositoryMetadata == old(groupRepositoryMetadata)
    {
      snapshotRepositoryMetadata := m;
    }

    /** `hashCode()`: `Objects.hash(artifact)`, the list hash of the artifact's hash alone. */
    function HashCode(): (h: bv32)
      ensures h == ObjectsHash([ArtifactHash(artifact)])
    {
      31 + ArtifactHash(artifact)
    }

    /**
     * `equals(o)`: the same object, or another state of an equal artifact;
     * never null. The metadata slots play no part, so equal states hash alike.
     */
    predicate Equals(o: ArtifactState?)
      ensures Equals(o) <==> o != null && o.artifact == artifact
      ensures Equals(o) ==> HashCode() == o.HashCode()
    {
      this == o || (o != null && artifact == o.artifact)
    }
  }

  /**
   * `data.MavenProjectState`: like `ProjectState`, but the main and attached
   * outputs are artifact states. The set holds the caller's objects; being a
   * value, later changes to the caller's set cannot reach it.
   */
  datatype ArtifactStates = ArtifactStates(
    project: ProjectInfo, pom: Artifact, mainArtifactState: ArtifactState,
    attachedArtifactStates: set<ArtifactState>)
}
