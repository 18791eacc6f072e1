/**
 * Maven modules as the host build tool presents them: the immutable facts read
 * from a module's descriptor, and the live module whose outputs a build sets.
 */
module Projects {
  import opened Wrappers
  import opened Paths
  import opened Artifacts

  /** `MavenProject.equals` compares group, artifact and version only. */
  datatype ProjectKey = ProjectKey(groupId: string, artifactId: string, version: string)

  /**
   * What a module's descriptor declares: its identity and packaging, its base
   * directory, its build directory setting, its descriptor file, the relative
   * paths of its child modules and its parent module.
   */
  datatype ProjectInfo = ProjectInfo(
    key: ProjectKey,
    packaging: string,
    basedir: Path,
    buildDirectory: string,
    file: Path,
    modules: seq<string>,
    parent: Option<ProjectKey>)

  /** `MavenProject.getId()`: `group:artifact:packaging:version`. */
  function ProjectId(p: ProjectInfo): string
  {
    p.key.groupId + ":" + p.key.artifactId + ":" + p.packaging + ":" + p.key.version
  }

  /** `resolveProjectBuildPath`: the base directory resolved with the build directory setting. */
  function BuildPath(p: ProjectInfo): (r: Path)
    ensures !Parse(p.buildDirectory).absolute ==>
      r.absolute == p.basedir.absolute && p.basedir.names <= r.names
    ensures Parse(p.buildDirectory).absolute ==> r == Parse(p.buildDirectory)
  {
    Resolve(p.basedir, Parse(p.buildDirectory))
  }

  /**
   * A module of the running build: its main artifact (whose file a build or a
   * restore sets) and its list of attached artifacts, both in Aether form.
   */
  class LiveProject {
    const info: ProjectInfo
    var artifact: Artifact
    var attachedArtifacts: seq<Artifact>

    constructor (info: ProjectInfo, artifact: Artifact, attachedArtifacts: seq<Artifact>)
      ensures this.info == info && this.artifact == artifact
      ensures this.attachedArtifacts == attachedArtifacts
    {
      this.info := info;
      this.artifact := artifact;
      this.attachedArtifacts := attachedArtifacts;
    }
  }
}
