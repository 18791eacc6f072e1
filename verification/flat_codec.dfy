/**
 * The flat key-value state file of `PropertiesReactorStateRepository`: one
 * entry per artifact mapping its id to its path relative to the module's base
 * directory, a `main-artifact` entry naming the main artifact, and one
 * `property.<id>.<name>` entry per artifact property.
 */
module FlatCodec {
  import opened Wrappers
  import opened Collections
  import opened Paths
  import opened Artifacts
  import opened Projects
  import opened ProjectStates

  /** The entries of a `java.util.Properties` table. */
  type Table = map<string, string>

  const StateFileName := "reactorstate-maven.properties"
  const MainArtifactKey := "main-artifact"
  const PropertyPrefix := "property."

  /** The state file of a module: `reactorstate-maven.properties` in its build directory. */
  function PropertiesPath(p: ProjectInfo): Path
  {
    Resolve(BuildPath(p), Path(false, [StateFileName]))
  }

  /** `buildArtifactPropertiesPrefix`. */
  function ArtifactPropertiesPrefix(coordinates: string): string
  {
    PropertyPrefix + coordinates + "."
  }

  /** The property entries of `a` for the property names in `names`. */
  function EntriesFor(a: Artifact, names: set<string>): Table
  {
    var prefix := ArtifactPropertiesPrefix(ToId(a.coords));
    PrefixCancels(prefix);
    map name | name in names && name in a.properties :: prefix + name := a.properties[name]
  }

  /** The entry keys an artifact's properties are written under. */
  function PropertyEntries(a: Artifact): Table
  {
    EntriesFor(a, a.properties.Keys)
  }

  /** Distinct names under one prefix give distinct keys. */
  lemma PrefixCancels(prefix: string)
    ensures forall name: string :: (prefix + name)[|prefix|..] == name
  {
  }

  lemma EntriesForStep(t: Table, a: Artifact, names: set<string>, name: string)
    requires name in a.properties
    ensures t + EntriesFor(a, names + {name}) ==
      (t + EntriesFor(a, names))[ArtifactPropertiesPrefix(ToId(a.coords)) + name := a.properties[name]]
  {
    var key := ArtifactPropertiesPrefix(ToId(a.coords)) + name;
    EntriesForAdd(a, names, name);
    var e := EntriesFor(a, names);
    assert t + e[key := a.properties[name]] == (t + e)[key := a.properties[name]];
  }

  /** One more property name: one more entry, under the prefix followed by the name. */
  lemma EntriesForAdd(a: Artifact, names: set<string>, name: string)
    requires name in a.properties
    ensures EntriesFor(a, names + {name}) ==
      EntriesFor(a, names)[ArtifactPropertiesPrefix(ToId(a.coords)) + name := a.properties[name]]
  {
    var prefix := ArtifactPropertiesPrefix(ToId(a.coords));
    PrefixCancels(prefix);
    var lhs := EntriesFor(a, names + {name});
    var rhs := EntriesFor(a, names)[prefix + name := a.properties[name]];
    assert lhs.Keys == rhs.Keys;
    forall k | k in lhs
      ensures lhs[k] == rhs[k]
    {
      var n :| n in names + {name} && n in a.properties && k == prefix + n;
    }
  }

  /** The path entry of the POM or an attached artifact: a missing file is a null dereference. */
  function PathText(base: Path, a: Artifact): Result<string>
  {
    match a.file
    case None => Err(NullPointer("artifact file of " + ToId(a.coords)))
    case Some(f) => RelativeText(base, f)
  }

  /** The path entry of the main artifact: a missing file is written as the empty string. */
  function MainPathText(base: Path, a: Artifact): Result<string>
  {
    match a.file
    case None => Ok("")
    case Some(f) => RelativeText(base, f)
  }

  /** One artifact's path entry followed by its property entries. */
  function PutArtifact(t: Table, base: Path, a: Artifact): Result<Table>
  {
    var text :- PathText(base, a);
    Ok(t[ToId(a.coords) := text] + PropertyEntries(a))
  }

  /** The attached artifacts' entries, in the order the set is iterated. */
  function PutAttached(t: Table, base: Path, order: seq<Artifact>): Result<Table>
    decreases |order|
  {
    if |order| == 0 then Ok(t)
    else
      var t' :- PutArtifact(t, base, order[0]);
      PutAttached(t', base, order[1..])
  }

  /** The entries written before the attached artifacts: POM, sentinel, main artifact. */
  function EncodeHead(s: ProjectState): Result<Table>
  {
    var base := s.project.basedir;
    var t :- PutArtifact(map[], base, s.pom);
    var mainText :- MainPathText(base, s.mainArtifact);
    var mainId := ToId(s.mainArtifact.coords);
    Ok(t[MainArtifactKey := mainId][mainId := mainText] + PropertyEntries(s.mainArtifact))
  }

  /**
   * `buildProjectStateProperties`, with the attached artifacts visited in
   * `order`: where two entries share a key the later one wins.
   */
  function EncodeFlat(s: ProjectState, order: seq<Artifact>): Result<Table>
  {
    var head :- EncodeHead(s);
    PutAttached(head, s.project.basedir, order)
  }

  lemma {:induction false} PutAttachedAppend(t: Table, base: Path, p: seq<Artifact>, q: seq<Artifact>)
    ensures PutAttached(t, base, p + q) ==
      (match PutAttached(t, base, p)
       case Err(e) => Err(e)
       case Ok(t') => PutAttached(t', base, q))
    decreases |p|
  {
    if |p| > 0 {
      assert (p + q)[0] == p[0] && (p + q)[1..] == p[1..] + q;
      match PutArtifact(t, base, p[0])
      case Err(e) =>
      case Ok(t') => PutAttachedAppend(t', base, p[1..], q);
    } else {
      assert p + q == q;
    }
  }

  /** `contributeProjectStateArtifactProperties`: adds one entry per artifact property. */
  method ContributeArtifactProperties(a: Artifact, t: Table) returns (r: Table)
    ensures r == t + PropertyEntries(a)
  {
    var prefix := ArtifactPropertiesPrefix(ToId(a.coords));
    r := t;
    ghost var done: set<string> := {};
    var remaining := a.properties.Keys;
    while remaining != {}
      invariant remaining <= a.properties.Keys
      invariant done == a.properties.Keys - remaining
      invariant r == t + EntriesFor(a, done)
      decreases remaining
    {
      var name :| name in remaining;
      EntriesForStep(t, a, done, name);
      r := r[prefix + name := a.properties[name]];
      remaining := remaining - {name};
      done := done + {name};
    }
  }

  /** The `put` of one artifact's path entry followed by its property entries. */
  method PutArtifactEntries(t: Table, base: Path, a: Artifact) returns (r: Result<Table>)
    ensures r == PutArtifact(t, base, a)
  {
    var text := PathText(base, a);
    if text.Err? {
      return Err(text.error);
    }
    var table := t[ToId(a.coords) := text.value];
    table := ContributeArtifactProperties(a, table);
    r := Ok(table);
  }

  /**
   * `buildProjectStateProperties`: iterates the attached set in some order,
   * returned as `order`, and stops at the first exception.
   */
  method BuildProjectStateProperties(s: ProjectState) returns (r: Result<Table>, ghost order: seq<Artifact>)
    ensures Enumerates(order, s.attachedArtifacts)
    ensures r == EncodeFlat(s, order)
  {
    var head := BuildHeadProperties(s);
    if head.Err? {
      order := EnumerationOf(s.attachedArtifacts);
      return Err(head.error), order;
    }
    r, order := PutAttachedEntries(head.value, s.project.basedir, s.attachedArtifacts);
  }

  /** The first part of `buildProjectStateProperties`: the POM, the sentinel and the main artifact. */
  method BuildHeadProperties(s: ProjectState) returns (r: Result<Table>)
    ensures r == EncodeHead(s)
  {
    var base := s.project.basedir;
    var withPom := PutArtifactEntries(map[], base, s.pom);
    if withPom.Err? {
      return Err(withPom.error);
    }
    var table := withPom.value;
    var mainText := MainPathText(base, s.mainArtifact);
    if mainText.Err? {
      return Err(mainText.error);
    }
    var mainId := ToId(s.mainArtifact.coords);
    table := table[MainArtifactKey := mainId];
    table := table[mainId := mainText.value];
    table := ContributeArtifactProperties(s.mainArtifact, table);
    r := Ok(table);
  }

  /** The loop of `buildProjectStateProperties` over the attached artifacts, visited in `order`. */
  method PutAttachedEntries(head: Table, base: Path, attached: set<Artifact>) returns (r: Result<Table>, ghost order: seq<Artifact>)
    ensures Enumerates(order, attached)
    ensures r == PutAttached(head, base, order)
  {
    var table := head;
    order := [];
    var remaining := attached;
    while remaining != {}
      invariant remaining <= attached
      invariant Enumerates(order, attached - remaining)
      invariant PutAttached(head, base, order) == Ok(table)
      decreases remaining
    {
      var a :| a in remaining;
      ghost var done := attached - remaining;
      PutAttachedAppend(head, base, order, [a]);
      EnumeratesConcat(order, done, [a], {a});
      var next := PutArtifactEntries(table, base, a);
      if next.Err? {
        ghost var rest := EnumerationOf(remaining - {a});
        PutAttachedAppend(head, base, order + [a], rest);
        EnumeratesConcat(order + [a], done + {a}, rest, remaining - {a});
        assert done + {a} + (remaining - {a}) == attached;
        order := order + [a] + rest;
        return Err(next.error), order;
      }
      table := next.value;
      order := order + [a];
      remaining := remaining - {a};
      assert attached - remaining == done + {a};
    }
    assert attached - remaining == attached;
    r := Ok(table);
  }

  /** `extractArtifactProperties`: the entries under `property.`. */
  function ArtifactPropertyEntries(t: Table): Table
  {
    map k | k in t && PropertyPrefix <= k :: t[k]
  }

  lemma PrefixSplit(prefix: string)
    ensures forall k: string :: prefix <= k ==> k == prefix + k[|prefix|..]
  {
    forall k: string | prefix <= k
      ensures k == prefix + k[|prefix|..]
    {
      assert k == k[..|prefix|] + k[|prefix|..];
    }
  }

  /** `findArtifactProperties`: the entries under the artifact's prefix, with the prefix cut off. */
  function FindProperties(coordinates: string, props: Table): Table
  {
    var prefix := ArtifactPropertiesPrefix(coordinates);
    PrefixSplit(prefix);
    map k | k in props && prefix <= k :: k[|prefix|..] := props[k]
  }

  /** One remaining entry decoded into an attached artifact. */
  function AttachedEntry(base: Path, coordinates: string, path: string, props: Table): Result<Artifact>
  {
    BuildArtifact(coordinates, Resolve(base, Parse(path)), FindProperties(coordinates, props))
  }

  /** Every entry left after the main artifact and the POM is an attached artifact. */
  function DecodeAttached(base: Path, rest: Table, props: Table): Result<set<Artifact>>
  {
    if forall k :: k in rest ==> ParseCoordinates(k).Some? then
      Ok(set k | k in rest :: AttachedEntry(base, k, rest[k], props).value)
    else
      Err(IllegalArgument("Bad artifact coordinates"))
  }

  /**
   * The POM entry: none when `toPomArtifact` hands the main artifact back,
   * else the entry under the POM's id, with its path resolved against the
   * base directory or, when `resolvePom` is false, taken as it stands.
   */
  function DecodePom(base: Path, main: Artifact, rest: Table, props: Table, resolvePom: bool): Result<(Artifact, Table)>
  {
    if IsPomArtifact(main) then Ok((main, rest))
    else
      var pomId := ToId(PomCoordinates(main.coords));
      if pomId !in rest then Err(NullPointer("entry " + pomId))
      else
        var path := if resolvePom then Resolve(base, Parse(rest[pomId])) else Parse(rest[pomId]);
        Ok((Artifact(PomCoordinates(main.coords), Some(path), FindProperties(pomId, props)), rest - {pomId}))
  }

  /**
   * `read` after the table is loaded: stored paths are resolved against
   * `base`, the POM path too when `resolvePom` holds.
   */
  function DecodeState(project: ProjectInfo, base: Path, t: Table, resolvePom: bool): Result<ProjectState>
  {
    var props := ArtifactPropertyEntries(t);
    var rest := t - props.Keys;
    if MainArtifactKey !in rest then Err(NullPointer("entry " + MainArtifactKey))
    else
      var mainId := rest[MainArtifactKey];
      if mainId !in rest then Err(NullPointer("entry " + mainId))
      else
        var main :- BuildArtifact(mainId, Resolve(base, Parse(rest[mainId])), FindProperties(mainId, props));
        var pomAndRest :- DecodePom(base, main, rest - {MainArtifactKey, mainId}, props, resolvePom);
        var attached :- DecodeAttached(base, pomAndRest.1, props);
        Ok(ProjectState(project, pomAndRest.0, main, attached))
  }

  /**
   * `read` as written: the POM path is `Paths.get` of the stored text, not
   * resolved. It fails exactly when the corrected reading does, and differs
   * from it only in a separate POM's file, which that reading resolves.
   */
  function DecodeAsWritten(project: ProjectInfo, t: Table): (r: Result<ProjectState>)
    ensures r.Ok? <==> Decode(project, t).Ok?
    ensures r.Ok? ==>
      var d := Decode(project, t).value;
      && r.value.(pom := d.pom) == d
      && (IsPomArtifact(d.mainArtifact) ==> r.value == d)
      && (!IsPomArtifact(d.mainArtifact) ==>
            r.value.pom.file.Some? && d.pom == r.value.pom.(file := Some(Resolve(project.basedir, r.value.pom.file.value))))
  {
    DecodeState(project, project.basedir, t, false)
  }

  /** `read` with every stored path, the POM's included, resolved against the base directory. */
  function Decode(project: ProjectInfo, t: Table): Result<ProjectState>
  {
    DecodeState(project, project.basedir, t, true)
  }

  /** `extractArtifactProperties`: moves the `property.` entries out of the table. */
  method ExtractArtifactProperties(t: Table) returns (props: Table, rest: Table)
    ensures props == ArtifactPropertyEntries(t)
    ensures rest == t - props.Keys
  {
    props := map[];
    rest := t;
    var names := t.Keys;
    while names != {}
      invariant names <= t.Keys
      invariant forall k :: k in props <==> k in t && k !in names && PropertyPrefix <= k
      invariant forall k :: k in props ==> props[k] == t[k]
      invariant forall k :: k in rest <==> k in t && k !in props
      invariant forall k :: k in rest ==> rest[k] == t[k]
      decreases names
    {
      var name :| name in names;
      if PropertyPrefix <= name {
        props := props[name := t[name]];
        rest := rest - {name};
      }
      names := names - {name};
    }
  }

  /** `findArtifactProperties`: collects the entries under one artifact's prefix. */
  method FindArtifactProperties(coordinates: string, props: Table) returns (r: Table)
    ensures r == FindProperties(coordinates, props)
  {
    var prefix := ArtifactPropertiesPrefix(coordinates);
    PrefixSplit(prefix);
    PrefixCancels(prefix);
    r := map[];
    var keys := props.Keys;
    while keys != {}
      invariant keys <= props.Keys
      invariant forall k :: k in props && k !in keys && prefix <= k ==> k[|prefix|..] in r && r[k[|prefix|..]] == props[k]
      invariant forall n :: n in r ==> prefix + n in props && prefix + n !in keys && r[n] == props[prefix + n]
      decreases keys
    {
      var key :| key in keys;
      if prefix <= key {
        r := r[key[|prefix|..] := props[key]];
      }
      keys := keys - {key};
    }
  }

  /** `read` once the table is loaded: decodes it into a project state. */
  method ReadStateProperties(project: ProjectInfo, t: Table) returns (r: Result<ProjectState>)
    ensures r == Decode(project, t)
  {
    var base := project.basedir;
    var props, table := ExtractArtifactProperties(t);
    if MainArtifactKey !in table {
      return Err(NullPointer("entry " + MainArtifactKey));
    }
    var mainId := table[MainArtifactKey];
    if mainId !in table {
      return Err(NullPointer("entry " + mainId));
    }
    var mainPath := Resolve(base, Parse(table[mainId]));
    var mainProps := FindArtifactProperties(mainId, props);
    table := table - {MainArtifactKey, mainId};
    var built := BuildArtifact(mainId, mainPath, mainProps);
    if built.Err? {
      return Err(built.error);
    }
    var main := built.value;
    var pom := main;
    if !IsPomArtifact(main) {
      var pomId := ToId(PomCoordinates(main.coords));
      if pomId !in table {
        return Err(NullPointer("entry " + pomId));
      }
      var pomPath := Resolve(base, Parse(table[pomId]));
      table := table - {pomId};
      var pomProps := FindArtifactProperties(pomId, props);
      pom := Artifact(PomCoordinates(main.coords), Some(pomPath), pomProps);
    }
    assert DecodePom(base, main, t - props.Keys - {MainArtifactKey, mainId}, props, true) == Ok((pom, table));
    var attached := ReadAttachedArtifacts(base, table, props);
    if attached.Err? {
      return Err(attached.error);
    }
    r := Ok(ProjectState(project, pom, main, attached.value));
  }

  /** The attached artifacts decoded from the entries under `keys`, all of whose coordinates parse. */
  ghost function DecodedEntries(base: Path, table: Table, props: Table, keys: set<string>): set<Artifact>
  {
    set k | k in table && k in keys && ParseCoordinates(k).Some? :: AttachedEntry(base, k, table[k], props).value
  }

  lemma DecodedEntriesStep(base: Path, table: Table, props: Table, keys: set<string>, k: string)
    requires k in table && ParseCoordinates(k).Some?
    ensures DecodedEntries(base, table, props, keys + {k})
      == DecodedEntries(base, table, props, keys) + {AttachedEntry(base, k, table[k], props).value}
  {
  }

  lemma DecodedAll(base: Path, table: Table, props: Table)
    requires forall k :: k in table ==> ParseCoordinates(k).Some?
    ensures DecodeAttached(base, table, props) == Ok(DecodedEntries(base, table, props, table.Keys))
  {
    var all := set k | k in table :: AttachedEntry(base, k, table[k], props).value;
    assert DecodedEntries(base, table, props, table.Keys) == all;
  }

  lemma DecodeAttachedFails(base: Path, table: Table, props: Table, k: string)
    requires k in table && ParseCoordinates(k).None?
    ensures DecodeAttached(base, table, props) == Err(AttachedEntry(base, k, table[k], props).error)
  {
  }

  /** The body of `read`'s loop: one remaining entry built into an artifact. */
  method ReadAttachedArtifact(base: Path, coordinates: string, path: string, props: Table) returns (r: Result<Artifact>)
    ensures r == AttachedEntry(base, coordinates, path, props)
  {
    var artifactPath := Resolve(base, Parse(path));
    var artifactProps := FindArtifactProperties(coordinates, props);
    r := BuildArtifact(coordinates, artifactPath, artifactProps);
  }

  /** The loop of `read` over the remaining entries. */
  method ReadAttachedArtifacts(base: Path, table: Table, props: Table) returns (r: Result<set<Artifact>>)
    ensures r == DecodeAttached(base, table, props)
  {
    var attached: set<Artifact> := {};
    var remaining := table.Keys;
    while remaining != {}
      invariant remaining <= table.Keys
      invariant forall k :: k in table && k !in remaining ==> ParseCoordinates(k).Some?
      invariant attached == DecodedEntries(base, table, props, table.Keys - remaining)
      decreases remaining
    {
      var k :| k in remaining;
      var next := ReadAttachedArtifact(base, k, table[k], props);
      if next.Err? {
        DecodeAttachedFails(base, table, props, k);
        return Err(next.error);
      }
      DecodedEntriesStep(base, table, props, table.Keys - remaining, k);
      attached := attached + {next.value};
      assert table.Keys - (remaining - {k}) == (table.Keys - remaining) + {k};
      remaining := remaining - {k};
    }
    assert table.Keys - remaining == table.Keys;
    DecodedAll(base, table, props);
    r := Ok(attached);
  }
}
