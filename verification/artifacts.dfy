/**
 * Maven artifacts as the Aether library represents them: five coordinates, an
 * optional file and a property map, with the textual ids the state files use.
 */
module Artifacts {
  import opened Wrappers
  import Text
  import opened Paths

  datatype Coordinates = Coordinates(
    groupId: string, artifactId: string, extension: string, classifier: string, version: string)

  /** `org.eclipse.aether.artifact.Artifact`; `file == None` is a null file. */
  datatype Artifact = Artifact(coords: Coordinates, file: Option<Path>, properties: map<string, string>)

  /** A coordinate that `DefaultArtifact`'s pattern accepts: non-empty, no `:` and no blank. */
  predicate Field(s: string)
  {
    s != "" && ':' !in s && ' ' !in s
  }

  /** Coordinates that survive `toId` followed by `new DefaultArtifact(id)`. */
  predicate ValidCoordinates(c: Coordinates)
  {
    Field(c.groupId) && Field(c.artifactId) && Field(c.extension) && Field(c.version)
    && ':' !in c.classifier && ' ' !in c.classifier
  }

  function IdParts(c: Coordinates): seq<string>
  {
    [c.groupId, c.artifactId, c.extension] + (if c.classifier == "" then [] else [c.classifier]) + [c.version]
  }

  /** `ArtifactIdUtils.toId`: `group:artifact:extension[:classifier]:version`. */
  function ToId(c: Coordinates): string
  {
    Text.Join(IdParts(c), ':')
  }

  function VersionlessParts(c: Coordinates): seq<string>
  {
    [c.groupId, c.artifactId, c.extension] + (if c.classifier == "" then [] else [c.classifier])
  }

  /** `ArtifactIdUtils.toVersionlessId`: `group:artifact:extension[:classifier]`. */
  function ToVersionlessId(c: Coordinates): string
  {
    Text.Join(VersionlessParts(c), ':')
  }

  /** An empty extension group in the coordinate pattern falls back to `jar`. */
  function ExtensionOrJar(e: string): string
  {
    if e == "" then "jar" else e
  }

  /**
   * `new DefaultArtifact(String)`: the pattern
   * `group:artifact[:extension[:classifier]]:version`; `None` where the
   * constructor throws `IllegalArgumentException`.
   */
  function ParseCoordinates(text: string): (r: Option<Coordinates>)
    ensures r.Some? ==> ValidCoordinates(r.value)
  {
    if ' ' in text then None
    else
      var parts := Text.Split(text, ':');
      Text.SplitAvoids(text, ':', ' ');
      if |parts| == 3 && parts[0] != "" && parts[1] != "" && parts[2] != "" then
        Some(Coordinates(parts[0], parts[1], "jar", "", parts[2]))
      else if |parts| == 4 && parts[0] != "" && parts[1] != "" && parts[3] != "" then
        Some(Coordinates(parts[0], parts[1], ExtensionOrJar(parts[2]), "", parts[3]))
      else if |parts| == 5 && parts[0] != "" && parts[1] != "" && parts[3] != "" && parts[4] != "" then
        Some(Coordinates(parts[0], parts[1], ExtensionOrJar(parts[2]), parts[3], parts[4]))
      else None
  }

  /** Reading back an id written by `toId` gives the same coordinates. */
  lemma ParseToId(c: Coordinates)
    requires ValidCoordinates(c)
    ensures ParseCoordinates(ToId(c)) == Some(c)
  {
    var parts := IdParts(c);
    Text.SplitJoin(parts, ':');
    Text.JoinAvoids(parts, ':', ' ');
  }

  /** On valid coordinates `toId` is injective. */
  lemma ToIdInjective(c1: Coordinates, c2: Coordinates)
    requires ValidCoordinates(c1) && ValidCoordinates(c2) && ToId(c1) == ToId(c2)
    ensures c1 == c2
  {
    ParseToId(c1);
    ParseToId(c2);
  }

  /** On valid coordinates equal versionless ids mean equal coordinates apart from the version. */
  lemma VersionlessIdInjective(c1: Coordinates, c2: Coordinates)
    requires ValidCoordinates(c1) && ValidCoordinates(c2) && ToVersionlessId(c1) == ToVersionlessId(c2)
    ensures c1.groupId == c2.groupId && c1.artifactId == c2.artifactId
    ensures c1.extension == c2.extension && c1.classifier == c2.classifier
  {
    Text.SplitJoin(VersionlessParts(c1), ':');
    Text.SplitJoin(VersionlessParts(c2), ':');
    var p1, p2 := VersionlessParts(c1), VersionlessParts(c2);
    assert p1 == p2;
    assert p1[2] == c1.extension && p2[2] == c2.extension;
    assert |p1| == 3 <==> c1.classifier == "";
    assert |p2| == 3 <==> c2.classifier == "";
    if c1.classifier != "" {
      assert p1[3] == c1.classifier && p2[3] == c2.classifier;
    }
  }

  /** `new DefaultArtifact(coordinates, properties).setFile(file)`. */
  function BuildArtifact(coordinates: string, file: Path, properties: map<string, string>): (r: Result<Artifact>)
    ensures r.Ok? <==> ParseCoordinates(coordinates).Some?
    ensures r.Ok? ==>
      r.value.coords == ParseCoordinates(coordinates).value
      && r.value.file == Some(file) && r.value.properties == properties
  {
    match ParseCoordinates(coordinates)
    case None => Err(IllegalArgument("Bad artifact coordinates"))
    case Some(c) => Ok(Artifact(c, Some(file), properties))
  }

  /** The artifact is its own POM: `toPomArtifact` hands it back unchanged. */
  predicate IsPomArtifact(a: Artifact)
  {
    a.coords.classifier == "" && a.coords.extension == "pom"
  }

  function PomCoordinates(c: Coordinates): Coordinates
  {
    Coordinates(c.groupId, c.artifactId, "pom", "", c.version)
  }

  /** `ArtifactDescriptorUtils.toPomArtifact`. */
  function ToPomArtifact(a: Artifact): (pom: Artifact)
    ensures pom.coords == PomCoordinates(a.coords) && IsPomArtifact(pom)
    ensures IsPomArtifact(a) ==> pom == a
    ensures !IsPomArtifact(a) ==> pom.file.None? && pom.properties == map[]
  {
    if IsPomArtifact(a) then a else Artifact(PomCoordinates(a.coords), None, map[])
  }

  /** A POM distinct from its artifact also has a distinct id. */
  lemma PomIdDiffers(a: Artifact)
    requires ValidCoordinates(a.coords) && !IsPomArtifact(a)
    ensures ToId(ToPomArtifact(a).coords) != ToId(a.coords)
  {
    if ToId(ToPomArtifact(a).coords) == ToId(a.coords) {
      ToIdInjective(ToPomArtifact(a).coords, a.coords);
    }
  }

  predicate IsDigits(s: string)
  {
    forall i :: 0 <= i < |s| ==> '0' <= s[i] <= '9'
  }

  /**
   * The index of the `-` before the build number when `v` ends in a snapshot
   * timestamp `yyyyMMdd.HHmmss-N` that is the whole version or follows a `-`.
   */
  predicate TimestampAt(v: string, j: int)
  {
    && 15 <= j < |v| - 1
    && v[j] == '-' && IsDigits(v[j + 1..])
    && IsDigits(v[j - 15..j - 7]) && v[j - 7] == '.' && IsDigits(v[j - 6..j])
    && (j == 15 || v[j - 16] == '-')
  }

  function LastIndexOf(s: string, x: char): (j: int)
    ensures -1 <= j < |s|
    ensures j >= 0 ==> s[j] == x && x !in s[j + 1..]
    ensures j < 0 ==> x !in s
  {
    if |s| == 0 then -1
    else if s[|s| - 1] == x then |s| - 1
    else LastIndexOf(s[..|s| - 1], x)
  }

  /**
   * `getBaseVersion()`: a timestamped snapshot version `1.0-20200101.120000-3`
   * becomes `1.0-SNAPSHOT`; version ranges and all other versions stay as they are.
   */
  function BaseVersion(v: string): string
  {
    if |v| > 0 && (v[0] == '[' || v[0] == '(') then v
    else
      var j := LastIndexOf(v, '-');
      if j >= 0 && TimestampAt(v, j) then v[..j - 15] + "SNAPSHOT" else v
  }

  /** `ArtifactIdUtils.equalsBaseId`; a missing (null) second artifact never matches. */
  predicate EqualsBaseId(c: Coordinates, other: Option<Artifact>)
  {
    && other.Some?
    && c.groupId == other.value.coords.groupId
    && c.artifactId == other.value.coords.artifactId
    && c.extension == other.value.coords.extension
    && c.classifier == other.value.coords.classifier
    && BaseVersion(c.version) == BaseVersion(other.value.coords.version)
  }
}
