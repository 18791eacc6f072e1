/**
 * The older flat state file, written by `RuntimeReactorStateManager` and read
 * by `SavedReactorStateManager`: path entries and the `main-artifact`
 * sentinel only, no property entries; read back with every path as stored
 * and with a readability check on each artifact file.
 */
module LegacyCodec {
  import opened Wrappers
  import opened Collections
  import opened Paths
  import opened FileSystems
  import opened Artifacts
  import opened Projects
  import opened ProjectStates
  import opened FlatCodec
  import opened FlatRoundTrip

  /** One artifact's path entry. */
  function PutPath(t: Table, base: Path, a: Artifact): Result<Table>
  {
    var text :- PathText(base, a);
    Ok(t[ToId(a.coords) := text])
  }

  /** The attached artifacts' path entries, in the order the set is iterated. */
  function PutAttachedPaths(t: Table, base: Path, order: seq<Artifact>): Result<Table>
    decreases |order|
  {
    if |order| == 0 then Ok(t)
    else
      var t' :- PutPath(t, base, order[0]);
      PutAttachedPaths(t', base, order[1..])
  }

  /** The entries written before the attached artifacts: POM, sentinel, main artifact. */
  function LegacyHead(s: ProjectState): Result<Table>
  {
    var base := s.project.basedir;
    var t :- PutPath(map[], base, s.pom);
    var mainText :- MainPathText(base, s.mainArtifact);
    var mainId := ToId(s.mainArtifact.coords);
    Ok(t[MainArtifactKey := mainId][mainId := mainText])
  }

  /** `buildProjectStateProperties` with the attached artifacts visited in `order`. */
  function EncodeLegacy(s: ProjectState, order: seq<Artifact>): Result<Table>
  {
    var head :- LegacyHead(s);
    PutAttachedPaths(head, s.project.basedir, order)
  }

  lemma {:induction false} PutAttachedPathsAppend(t: Table, base: Path, p: seq<Artifact>, q: seq<Artifact>)
    ensures PutAttachedPaths(t, base, p + q) ==
      (match PutAttachedPaths(t, base, p)
       case Err(e) => Err(e)
       case Ok(t') => PutAttachedPaths(t', base, q))
    decreases |p|
  {
    if |p| > 0 {
      assert (p + q)[0] == p[0] && (p + q)[1..] == p[1..] + q;
      match PutPath(t, base, p[0])
      case Err(e) =>
      case Ok(t') => PutAttachedPathsAppend(t', base, p[1..], q);
    } else {
      assert p + q == q;
    }
  }

  /**
   * `RuntimeReactorStateManager.buildProjectStateProperties`: iterates the
   * attached set in some order, returned as `order`, and stops at the first
   * exception.
   */
  method BuildProjectStateProperties(s: ProjectState) returns (r: Result<Table>, ghost order: seq<Artifact>)
    ensures Enumerates(order, s.attachedArtifacts)
    ensures r == EncodeLegacy(s, order)
  {
    var head := BuildHeadProperties(s);
    if head.Err? {
      order := EnumerationOf(s.attachedArtifacts);
      return Err(head.error), order;
    }
    r, order := PutAttachedPathEntries(head.value, s.project.basedir, s.attachedArtifacts);
  }

  /** The first part of `buildProjectStateProperties`: the POM, the sentinel and the main artifact. */
  method BuildHeadProperties(s: ProjectState) returns (r: Result<Table>)
    ensures r == LegacyHead(s)
  {
    var base := s.project.basedir;
    var pomText := PathText(base, s.pom);
    if pomText.Err? {
      return Err(pomText.error);
    }
    var table := map[ToId(s.pom.coords) := pomText.value];
    var mainText := MainPathText(base, s.mainArtifact);
    if mainText.Err? {
      return Err(mainText.error);
    }
    var mainId := ToId(s.mainArtifact.coords);
    table := table[MainArtifactKey := mainId];
    table := table[mainId := mainText.value];
    r := Ok(table);
  }

  /** The loop of `buildProjectStateProperties` over the attached artifacts, visited in `order`. */
  method PutAttachedPathEntries(head: Table, base: Path, attached: set<Artifact>) returns (r: Result<Table>, ghost order: seq<Artifact>)
    ensures Enumerates(order, attached)
    ensures r == PutAttachedPaths(head, base, order)
  {
    var table := head;
    order := [];
    var remaining := attached;
    while remaining != {}
      invariant remaining <= attached
      invariant Enumerates(order, attached - remaining)
      invariant PutAttachedPaths(head, base, order) == Ok(table)
      decreases remaining
    {
      var a :| a in remaining;
      ghost var done := attached - remaining;
      PutAttachedPathsAppend(head, base, order, [a]);
      EnumeratesConcat(order, done, [a], {a});
      var text := PathText(base, a);
      if text.Err? {
        ghost var rest := EnumerationOf(remaining - {a});
        PutAttachedPathsAppend(head, base, order + [a], rest);
        EnumeratesConcat(order + [a], done + {a}, rest, remaining - {a});
        assert done + {a} + (remaining - {a}) == attached;
        order := order + [a] + rest;
        return Err(text.error), order;
      }
      table := table[ToId(a.coords) := text.value];
      order := order + [a];
      remaining := remaining - {a};
      assert attached - remaining == done + {a};
    }
    assert attached - remaining == attached;
    r := Ok(table);
  }

  /** An artifact without its properties: all the older file keeps of it besides its path. */
  function Unpropertied(a: Artifact): Artifact
  {
    a.(properties := map[])
  }

  function UnpropertiedSeq(order: seq<Artifact>): seq<Artifact>
  {
    seq(|order|, i requires 0 <= i < |order| => Unpropertied(order[i]))
  }

  function UnpropertiedState(s: ProjectState): ProjectState
  {
    ProjectState(s.project, Unpropertied(s.pom), Unpropertied(s.mainArtifact),
      set a | a in s.attachedArtifacts :: Unpropertied(a))
  }

  lemma PutPathIsPutArtifact(t: Table, base: Path, a: Artifact)
    ensures PutPath(t, base, a) == PutArtifact(t, base, Unpropertied(a))
  {
    assert PropertyEntries(Unpropertied(a)) == map[];
    if PathText(base, a).Ok? {
      var t' := t[ToId(a.coords) := PathText(base, a).value];
      assert t' + map[] == t';
    }
  }

  lemma {:induction false} PutAttachedPathsIsPutAttached(t: Table, base: Path, order: seq<Artifact>)
    ensures PutAttachedPaths(t, base, order) == PutAttached(t, base, UnpropertiedSeq(order))
    decreases |order|
  {
    if |order| > 0 {
      PutPathIsPutArtifact(t, base, order[0]);
      assert UnpropertiedSeq(order)[1..] == UnpropertiedSeq(order[1..]);
      match PutPath(t, base, order[0])
      case Err(e) =>
      case Ok(t') => PutAttachedPathsIsPutAttached(t', base, order[1..]);
    }
  }

  lemma LegacyHeadIsEncodeHead(s: ProjectState)
    ensures LegacyHead(s) == EncodeHead(UnpropertiedState(s))
  {
    var base := s.project.basedir;
    var pom, main := Unpropertied(s.pom), Unpropertied(s.mainArtifact);
    assert UnpropertiedState(s).pom == pom && UnpropertiedState(s).mainArtifact == main;
    PutPathIsPutArtifact(map[], base, s.pom);
    assert MainPathText(base, main) == MainPathText(base, s.mainArtifact);
    if LegacyHead(s).Ok? {
      var head := LegacyHead(s).value;
      assert PropertyEntries(main) == map[];
      assert head + map[] == head;
    }
  }

  /** The older encoding is the current one applied to the state with its properties dropped. */
  lemma EncodeLegacyIsFlat(s: ProjectState, order: seq<Artifact>)
    ensures EncodeLegacy(s, order) == EncodeFlat(UnpropertiedState(s), UnpropertiedSeq(order))
  {
    LegacyHeadIsEncodeHead(s);
    if LegacyHead(s).Ok? {
      PutAttachedPathsIsPutAttached(LegacyHead(s).value, s.project.basedir, order);
    }
  }

  /**
   * The states the older file holds faithfully: every file under the base
   * directory, only the main artifact without a file, the POM derived from
   * the main artifact (the same file when it is the main artifact), and one
   * attached artifact per id, apart from the POM's and the main artifact's.
   */
  ghost predicate LegacyEncodable(s: ProjectState)
  {
    && AllStorable(s.project.basedir, AllArtifacts(s))
    && s.pom.file.Some?
    && (forall a | a in s.attachedArtifacts :: a.file.Some?)
    && s.pom.coords == PomCoordinates(s.mainArtifact.coords)
    && (IsPomArtifact(s.mainArtifact) ==> s.pom.file == s.mainArtifact.file)
    && (forall a | a in s.attachedArtifacts :: a.coords != s.mainArtifact.coords && a.coords != s.pom.coords)
    && (forall a, b | a in s.attachedArtifacts && b in s.attachedArtifacts && a.coords == b.coords :: a == b)
  }

  lemma UnpropertiedAll(s: ProjectState, x: Artifact)
    requires x in AllArtifacts(UnpropertiedState(s))
    ensures exists a :: a in AllArtifacts(s) && x == Unpropertied(a)
  {
    if x != Unpropertied(s.pom) && x != Unpropertied(s.mainArtifact) {
      var a :| a in s.attachedArtifacts && x == Unpropertied(a);
    }
  }

  lemma UnpropertiedEncodable(s: ProjectState)
    requires LegacyEncodable(s)
    ensures Encodable(UnpropertiedState(s))
  {
    UnpropertiedStorable(s);
    UnpropertiedApart(s);
    UnpropertiedAttached(s);
    UnpropertiedBare(s);
  }

  lemma UnpropertiedAttached(s: ProjectState)
    requires LegacyEncodable(s)
    ensures forall x | x in UnpropertiedState(s).attachedArtifacts ::
      x.file.Some? && x.coords != s.mainArtifact.coords && x.coords != s.pom.coords
  {
    forall x | x in UnpropertiedState(s).attachedArtifacts
      ensures x.file.Some? && x.coords != s.mainArtifact.coords && x.coords != s.pom.coords
    {
      var a :| a in s.attachedArtifacts && x == Unpropertied(a);
    }
  }

  lemma UnpropertiedBare(s: ProjectState)
    ensures forall x | x in AllArtifacts(UnpropertiedState(s)) :: x.properties == map[]
  {
    forall x | x in AllArtifacts(UnpropertiedState(s))
      ensures x.properties == map[]
    {
      UnpropertiedAll(s, x);
    }
  }

  lemma UnpropertiedStorable(s: ProjectState)
    requires LegacyEncodable(s)
    ensures forall x | x in AllArtifacts(UnpropertiedState(s)) :: Storable(s.project.basedir, x)
  {
    forall x | x in AllArtifacts(UnpropertiedState(s))
      ensures Storable(s.project.basedir, x)
    {
      UnpropertiedAll(s, x);
    }
  }

  lemma UnpropertiedApart(s: ProjectState)
    requires LegacyEncodable(s)
    ensures forall x, y | x in UnpropertiedState(s).attachedArtifacts && y in UnpropertiedState(s).attachedArtifacts && x.coords == y.coords :: x == y
  {
    var u := UnpropertiedState(s);
    forall x, y | x in u.attachedArtifacts && y in u.attachedArtifacts && x.coords == y.coords
      ensures x == y
    {
      var a :| a in s.attachedArtifacts && x == Unpropertied(a);
      var b :| b in s.attachedArtifacts && y == Unpropertied(b);
    }
  }

  lemma UnpropertiedEnumerates(s: ProjectState, order: seq<Artifact>)
    requires LegacyEncodable(s) && Enumerates(order, s.attachedArtifacts)
    ensures Enumerates(UnpropertiedSeq(order), UnpropertiedState(s).attachedArtifacts)
  {
    var o := UnpropertiedSeq(order);
    forall i, j | 0 <= i < j < |o|
      ensures o[i] != o[j]
    {
      assert order[i] in s.attachedArtifacts && order[j] in s.attachedArtifacts;
    }
    forall x
      ensures x in o <==> x in UnpropertiedState(s).attachedArtifacts
    {
      if x in o {
        var i :| 0 <= i < |o| && o[i] == x;
        assert order[i] in s.attachedArtifacts;
      }
      if x in UnpropertiedState(s).attachedArtifacts {
        var a :| a in s.attachedArtifacts && x == Unpropertied(a);
        var i :| 0 <= i < |order| && order[i] == a;
        assert o[i] == x;
      }
    }
  }

  /** The encoded table of the state with properties dropped, and its shape. */
  lemma LegacyTableShaped(s: ProjectState, order: seq<Artifact>)
    requires LegacyEncodable(s) && Enumerates(order, s.attachedArtifacts)
    ensures Encodable(UnpropertiedState(s))
    ensures EncodeLegacy(s, order).Ok?
    ensures MainArtifactKey in EncodeLegacy(s, order).value
    ensures Shaped(EncodeLegacy(s, order).value, UnpropertiedState(s), AllArtifacts(UnpropertiedState(s)))
  {
    UnpropertiedEncodable(s);
    UnpropertiedEnumerates(s, order);
    EncodeLegacyIsFlat(s, order);
    EncodeShaped(UnpropertiedState(s), UnpropertiedSeq(order));
  }

  /** In a table shaped for artifacts without properties, every key but the sentinel is an id. */
  lemma PlainKeyIsId(u: ProjectState, t: Table, k: string)
    requires Shaped(t, u, AllArtifacts(u)) && k in t && k != MainArtifactKey
    requires forall b | b in AllArtifacts(u) :: b.properties == map[]
    ensures exists b :: b in AllArtifacts(u) && k == ToId(b.coords)
  {
    assert IsKey(t, k);
    var b :| b in AllArtifacts(u) && k in EntryKeys(b);
    assert PropertyEntries(b) == map[];
  }

  lemma UnpropertiedHasNone(s: ProjectState)
    ensures forall b | b in AllArtifacts(UnpropertiedState(s)) :: b.properties == map[]
  {
    forall b | b in AllArtifacts(UnpropertiedState(s))
      ensures b.properties == map[]
    {
      UnpropertiedAll(s, b);
    }
  }

  /** An entry of the older table: the sentinel, or an artifact id that is not a property key. */
  lemma LegacyKeyIsId(s: ProjectState, t: Table, k: string)
    requires LegacyEncodable(s)
    requires Shaped(t, UnpropertiedState(s), AllArtifacts(UnpropertiedState(s))) && k in t
    ensures !(PropertyPrefix <= k)
    ensures k != MainArtifactKey ==>
      exists a :: a in AllArtifacts(s) && k == ToId(a.coords) && t[k] == EntryText(s.project.basedir, a)
  {
    var u := UnpropertiedState(s);
    var base := s.project.basedir;
    if k == MainArtifactKey {
      SentinelIsNotProperty();
    } else {
      UnpropertiedHasNone(s);
      PlainKeyIsId(u, t, k);
      var b :| b in AllArtifacts(u) && k == ToId(b.coords);
      UnpropertiedAll(s, b);
      var a :| a in AllArtifacts(s) && b == Unpropertied(a);
      assert Storable(base, b) && Holds(t, base, b);
    }
  }

  /**
   * The older encoding holds the POM entry, the sentinel naming the main
   * artifact, the main entry (`""` without a file) and one entry per
   * attached artifact, each id mapped to the path relative to the base
   * directory, and no property entries; a main artifact that is the POM
   * shares the POM's key.
   */
  lemma LegacyEncodingShape(s: ProjectState, order: seq<Artifact>)
    requires LegacyEncodable(s) && Enumerates(order, s.attachedArtifacts)
    ensures EncodeLegacy(s, order).Ok?
    ensures var t := EncodeLegacy(s, order).value;
      && MainArtifactKey in t && t[MainArtifactKey] == ToId(s.mainArtifact.coords)
      && (forall a | a in AllArtifacts(s) ::
            ToId(a.coords) in t && t[ToId(a.coords)] == EntryText(s.project.basedir, a))
      && (forall k | k in t ::
            && !(PropertyPrefix <= k)
            && (k == MainArtifactKey || exists a :: a in AllArtifacts(s) && k == ToId(a.coords)))
  {
    var u := UnpropertiedState(s);
    var base := s.project.basedir;
    LegacyTableShaped(s, order);
    var t := EncodeLegacy(s, order).value;
    forall a | a in AllArtifacts(s)
      ensures ToId(a.coords) in t && t[ToId(a.coords)] == EntryText(base, a)
    {
      assert Unpropertied(a) in AllArtifacts(u);
      assert Holds(t, base, Unpropertied(a));
    }
    forall k | k in t
      ensures !(PropertyPrefix <= k)
      ensures k == MainArtifactKey || exists a :: a in AllArtifacts(s) && k == ToId(a.coords)
    {
      LegacyKeyIsId(s, t, k);
    }
  }

  /**
   * `buildArtifact`: `None` (Java's null) for a file that is not readable,
   * otherwise the artifact with that file and no properties, or an error for
   * an id that does not parse.
   */
  function LoadArtifact(fs: FileSystem<Table>, id: string, path: Path): (r: Result<Option<Artifact>>)
    ensures r == Ok(None) <==> !IsReadable(fs, path)
    ensures r.Err? <==> IsReadable(fs, path) && ParseCoordinates(id).None?
    ensures r.Ok? && r.value.Some? ==>
      r.value.value == Artifact(ParseCoordinates(id).value, Some(path), map[])
  {
    if !IsReadable(fs, path) then Ok(None)
    else
      var a :- BuildArtifact(id, path, map[]);
      Ok(Some(a))
  }

  /** What `loadProjectState` takes out first: the main artifact, the POM and the entries left. */
  datatype Head = Head(main: Artifact, pom: Artifact, rest: Table)

  /**
   * The sentinel and main entry, then the POM entry when `toPomArtifact`
   * gives a separate POM. Paths are taken as stored; only the main file is
   * checked for readability.
   */
  function LoadHead(fs: FileSystem<Table>, t: Table): (r: Result<Head>)
    ensures MainArtifactKey !in t ==> r.Err? && r.error.NullPointer?
    ensures MainArtifactKey in t && t[MainArtifactKey] in t && !IsReadable(fs, Parse(t[t[MainArtifactKey]])) ==>
      r == Err(IllegalState("Main Artifact is missing in saved state"))
    ensures r.Ok? ==>
      && MainArtifactKey in t && t[MainArtifactKey] in t
      && IsReadable(fs, Parse(t[t[MainArtifactKey]]))
      && ParseCoordinates(t[MainArtifactKey]).Some?
      && r.value.main == Artifact(ParseCoordinates(t[MainArtifactKey]).value, Some(Parse(t[t[MainArtifactKey]])), map[])
    ensures r.Ok? && IsPomArtifact(r.value.main) ==> r.value.pom == r.value.main
    ensures r.Ok? && !IsPomArtifact(r.value.main) ==>
      var pomId := ToId(PomCoordinates(r.value.main.coords));
      && pomId in t && pomId != MainArtifactKey && pomId != t[MainArtifactKey]
      && r.value.pom == Artifact(PomCoordinates(r.value.main.coords), Some(Parse(t[pomId])), map[])
  {
    if MainArtifactKey !in t then Err(NullPointer("entry " + MainArtifactKey))
    else
      var mainId := t[MainArtifactKey];
      if mainId !in t then Err(NullPointer("entry " + mainId))
      else
        var rest := t - {MainArtifactKey, mainId};
        var main :- LoadArtifact(fs, mainId, Parse(t[mainId]));
        if main.None? then Err(IllegalState("Main Artifact is missing in saved state"))
        else if IsPomArtifact(main.value) then Ok(Head(main.value, main.value, rest))
        else
          var pomId := ToId(PomCoordinates(main.value.coords));
          if pomId !in rest then Err(NullPointer("entry " + pomId))
          else Ok(Head(main.value, Artifact(PomCoordinates(main.value.coords), Some(Parse(rest[pomId])), map[]), rest - {pomId}))
  }

  /** Every entry left, through `buildArtifact`: as written, a null for each unreadable file. */
  function LoadEntries(fs: FileSystem<Table>, rest: Table): Result<set<Option<Artifact>>>
  {
    if forall k | k in rest :: LoadArtifact(fs, k, Parse(rest[k])).Ok? then
      Ok(set k | k in rest :: LoadArtifact(fs, k, Parse(rest[k])).value)
    else
      Err(IllegalArgument("Bad artifact coordinates"))
  }

  /** The artifacts among possibly null references. */
  function Present(u: set<Option<Artifact>>): set<Artifact>
  {
    set o | o in u && o.Some? :: o.value
  }

  /** The attached artifacts, the nulls for unreadable files left out. */
  function LoadAttached(fs: FileSystem<Table>, rest: Table): Result<set<Artifact>>
  {
    var u :- LoadEntries(fs, rest);
    Ok(Present(u))
  }

  /** A state whose attached set may hold nulls, as `loadProjectState` builds it. */
  datatype LoadedState = LoadedState(
    project: ProjectInfo, pom: Artifact, mainArtifact: Artifact, attachedArtifacts: set<Option<Artifact>>)

  /**
   * `loadProjectState` after the table is read, as written. It fails exactly
   * when the corrected load does, which keeps the same artifacts without
   * the nulls.
   */
  function LoadAsWritten(project: ProjectInfo, fs: FileSystem<Table>, t: Table): (r: Result<LoadedState>)
    ensures r.Ok? <==> Load(project, fs, t).Ok?
    ensures r.Ok? ==> r.value.project == project
    ensures r.Ok? ==>
      Load(project, fs, t).value == ProjectState(project, r.value.pom, r.value.mainArtifact, Present(r.value.attachedArtifacts))
  {
    var head :- LoadHead(fs, t);
    var attached :- LoadEntries(fs, head.rest);
    Ok(LoadedState(project, head.pom, head.main, attached))
  }

  /** `loadProjectState` after the table is read, with unreadable attached artifacts ignored. */
  function Load(project: ProjectInfo, fs: FileSystem<Table>, t: Table): Result<ProjectState>
  {
    var head :- LoadHead(fs, t);
    var attached :- LoadAttached(fs, head.rest);
    Ok(ProjectState(project, head.pom, head.main, attached))
  }

  /** `loadProjectState`: no state (null) without a build directory or a readable state file. */
  function LoadState(project: ProjectInfo, fs: FileSystem<Table>): (r: Result<Option<ProjectState>>)
    ensures !IsDirectory(fs, BuildPath(project)) || !IsReadable(fs, PropertiesPath(project)) ==> r == Ok(None)
    ensures r.Ok? && r.value.Some? ==>
      && ReadFile(fs, PropertiesPath(project)).Ok?
      && Load(project, fs, ReadFile(fs, PropertiesPath(project)).value) == Ok(r.value.value)
      && r.value.value.project == project
  {
    if !IsDirectory(fs, BuildPath(project)) || !IsReadable(fs, PropertiesPath(project)) then Ok(None)
    else
      var t :- ReadFile(fs, PropertiesPath(project));
      var st :- Load(project, fs, t);
      Ok(Some(st))
  }

  /** The loop of `loadProjectState` over the entries left, with unreadable files ignored. */
  method LoadAttachedArtifacts(fs: FileSystem<Table>, table: Table) returns (r: Result<set<Artifact>>)
    ensures r == LoadAttached(fs, table)
  {
    var attached: set<Artifact> := {};
    var remaining := table.Keys;
    while remaining != {}
      invariant remaining <= table.Keys
      invariant forall k | k in table && k !in remaining :: LoadArtifact(fs, k, Parse(table[k])).Ok?
      invariant attached == Present(LoadedEntries(fs, table, table.Keys - remaining))
      decreases remaining
    {
      var k :| k in remaining;
      var loaded := LoadArtifact(fs, k, Parse(table[k]));
      if loaded.Err? {
        LoadAttachedFails(fs, table, k);
        return Err(loaded.error);
      }
      LoadedEntriesStep(fs, table, table.Keys - remaining, k);
      PresentAdd(LoadedEntries(fs, table, table.Keys - remaining), loaded.value);
      if loaded.value.Some? {
        attached := attached + {loaded.value.value};
      }
      assert table.Keys - (remaining - {k}) == (table.Keys - remaining) + {k};
      remaining := remaining - {k};
    }
    assert table.Keys - remaining == table.Keys;
    LoadedAll(fs, table);
    r := Ok(attached);
  }

  /** What the entries under `keys` load as, each a file's artifact or null. */
  ghost function LoadedEntries(fs: FileSystem<Table>, table: Table, keys: set<string>): set<Option<Artifact>>
  {
    set k | k in table && k in keys && LoadArtifact(fs, k, Parse(table[k])).Ok? :: LoadArtifact(fs, k, Parse(table[k])).value
  }

  lemma LoadedEntriesStep(fs: FileSystem<Table>, table: Table, keys: set<string>, k: string)
    requires k in table && LoadArtifact(fs, k, Parse(table[k])).Ok?
    ensures LoadedEntries(fs, table, keys + {k})
      == LoadedEntries(fs, table, keys) + {LoadArtifact(fs, k, Parse(table[k])).value}
  {
  }

  lemma PresentAdd(u: set<Option<Artifact>>, o: Option<Artifact>)
    ensures Present(u + {o}) == Present(u) + (if o.Some? then {o.value} else {})
  {
  }

  lemma LoadedAll(fs: FileSystem<Table>, table: Table)
    requires forall k | k in table :: LoadArtifact(fs, k, Parse(table[k])).Ok?
    ensures LoadAttached(fs, table) == Ok(Present(LoadedEntries(fs, table, table.Keys)))
  {
    var all := set k | k in table :: LoadArtifact(fs, k, Parse(table[k])).value;
    assert LoadedEntries(fs, table, table.Keys) == all;
  }

  lemma LoadAttachedFails(fs: FileSystem<Table>, table: Table, k: string)
    requires k in table && LoadArtifact(fs, k, Parse(table[k])).Err?
    ensures LoadAttached(fs, table) == Err(LoadArtifact(fs, k, Parse(table[k])).error)
  {
  }

  /**
   * `SavedReactorStateManager.loadProjectState`: the guard on the build
   * directory and the state file, then the entries taken out one by one,
   * then the loop over the attached entries.
   */
  method LoadProjectState(project: ProjectInfo, fs: FileSystem<Table>) returns (r: Result<Option<ProjectState>>)
    ensures r == LoadState(project, fs)
  {
    var statePath := PropertiesPath(project);
    if !IsDirectory(fs, BuildPath(project)) || !IsReadable(fs, statePath) {
      return Ok(None);
    }
    var read := ReadFile(fs, statePath);
    if read.Err? {
      return Err(read.error);
    }
    var table := read.value;
    if MainArtifactKey !in table {
      return Err(NullPointer("entry " + MainArtifactKey));
    }
    var mainId := table[MainArtifactKey];
    if mainId !in table {
      return Err(NullPointer("entry " + mainId));
    }
    var mainPath := Parse(table[mainId]);
    table := table - {MainArtifactKey};
    table := table - {mainId};
    var built := LoadArtifact(fs, mainId, mainPath);
    if built.Err? {
      return Err(built.error);
    }
    if built.value.None? {
      return Err(IllegalState("Main Artifact is missing in saved state"));
    }
    var main := built.value.value;
    var pom := main;
    if !IsPomArtifact(main) {
      var pomId := ToId(PomCoordinates(main.coords));
      if pomId !in table {
        return Err(NullPointer("entry " + pomId));
      }
      var pomPath := Parse(table[pomId]);
      table := table - {pomId};
      pom := Artifact(PomCoordinates(main.coords), Some(pomPath), map[]);
    }
    assert read.value - {MainArtifactKey, mainId} == read.value - {MainArtifactKey} - {mainId};
    assert LoadHead(fs, read.value) == Ok(Head(main, pom, table));
    var attached := LoadAttachedArtifacts(fs, table);
    if attached.Err? {
      return Err(attached.error);
    }
    r := Ok(Some(ProjectState(project, pom, main, attached.value)));
  }

  /** Taking a path against the empty path leaves it as it is. */
  lemma ResolveEmpty(p: Path)
    ensures Resolve(Empty, p) == p
  {
    assert [] + p.names == p.names;
  }

  /** A readable entry loads to the artifact the current reader builds from it without properties. */
  lemma EntryLoadsAsDecoded(fs: FileSystem<Table>, rest: Table, k: string)
    requires k in rest && IsReadable(fs, Parse(rest[k]))
    ensures LoadArtifact(fs, k, Parse(rest[k])).Ok? <==> ParseCoordinates(k).Some?
    ensures ParseCoordinates(k).Some? ==>
      LoadArtifact(fs, k, Parse(rest[k])).value == Some(AttachedEntry(Empty, k, rest[k], map[]).value)
  {
    ResolveEmpty(Parse(rest[k]));
    assert FindProperties(k, map[]) == map[];
  }

  /** With every file readable, the older loop over the entries left is the current one with no properties. */
  lemma LoadAttachedIsDecodeAttached(fs: FileSystem<Table>, rest: Table)
    requires forall k | k in rest :: IsReadable(fs, Parse(rest[k]))
    ensures LoadAttached(fs, rest) == DecodeAttached(Empty, rest, map[])
  {
    if forall k | k in rest :: ParseCoordinates(k).Some? {
      forall k | k in rest
        ensures LoadArtifact(fs, k, Parse(rest[k])).Ok?
      {
        EntryLoadsAsDecoded(fs, rest, k);
      }
      var loaded := set k | k in rest :: LoadArtifact(fs, k, Parse(rest[k])).value;
      var decoded := set k | k in rest :: AttachedEntry(Empty, k, rest[k], map[]).value;
      assert LoadEntries(fs, rest) == Ok(loaded);
      forall a | a in Present(loaded)
        ensures a in decoded
      {
        var k :| k in rest && Some(a) == LoadArtifact(fs, k, Parse(rest[k])).value;
        EntryLoadsAsDecoded(fs, rest, k);
      }
      forall a | a in decoded
        ensures a in Present(loaded)
      {
        var k :| k in rest && a == AttachedEntry(Empty, k, rest[k], map[]).value;
        EntryLoadsAsDecoded(fs, rest, k);
        assert Some(a) in loaded;
      }
      assert Present(loaded) == decoded;
    } else {
      var k :| k in rest && ParseCoordinates(k).None?;
      EntryLoadsAsDecoded(fs, rest, k);
    }
  }

  /**
   * On a table without property entries whose entries, the sentinel apart,
   * name readable files, the older reader gives what the current reader gives
   * when it takes every stored path as it stands: resolved against the empty
   * path, and the POM path not resolved at all.
   */
  lemma LoadIsUnresolvedDecode(project: ProjectInfo, fs: FileSystem<Table>, t: Table)
    requires forall k | k in t :: !(PropertyPrefix <= k)
    requires forall k | k in t && k != MainArtifactKey :: IsReadable(fs, Parse(t[k]))
    requires MainArtifactKey in t ==> t[MainArtifactKey] != MainArtifactKey
    ensures Load(project, fs, t) == DecodeState(project, Empty, t, false)
  {
    DecodeStateOfHead(project, t);
    if MainArtifactKey in t && t[MainArtifactKey] in t {
      LoadHeadIsDecodedHead(fs, t);
      if DecodedHead(t).Ok? {
        LoadAttachedIsDecodeAttached(fs, DecodedHead(t).value.rest);
      }
    }
  }

  /** The sentinel, main and POM entries as the current reader takes them out, with no properties and no base directory. */
  ghost function DecodedHead(t: Table): Result<Head>
    requires MainArtifactKey in t && t[MainArtifactKey] in t
  {
    var mainId := t[MainArtifactKey];
    var main :- BuildArtifact(mainId, Resolve(Empty, Parse(t[mainId])), FindProperties(mainId, map[]));
    var pomAndRest :- DecodePom(Empty, main, t - {MainArtifactKey, mainId}, map[], false);
    Ok(Head(main, pomAndRest.0, pomAndRest.1))
  }

  /** With the files readable, the older reader takes out the same head, and the entries left name readable files. */
  lemma LoadHeadIsDecodedHead(fs: FileSystem<Table>, t: Table)
    requires MainArtifactKey in t && t[MainArtifactKey] in t && t[MainArtifactKey] != MainArtifactKey
    requires forall k | k in t && k != MainArtifactKey :: IsReadable(fs, Parse(t[k]))
    ensures LoadHead(fs, t) == DecodedHead(t)
    ensures DecodedHead(t).Ok? ==> forall k | k in DecodedHead(t).value.rest :: IsReadable(fs, Parse(DecodedHead(t).value.rest[k]))
  {
    var mainId := t[MainArtifactKey];
    ResolveEmpty(Parse(t[mainId]));
    assert FindProperties(mainId, map[]) == map[];
    assert IsReadable(fs, Parse(t[mainId]));
    match ParseCoordinates(mainId)
    case None =>
    case Some(c) =>
      if !IsPomArtifact(Artifact(c, Some(Parse(t[mainId])), map[])) {
        assert FindProperties(ToId(PomCoordinates(c)), map[]) == map[];
      }
  }

  /** With no property entries, the current reader's result in terms of its head. */
  lemma DecodeStateOfHead(project: ProjectInfo, t: Table)
    requires forall k | k in t :: !(PropertyPrefix <= k)
    ensures DecodeState(project, Empty, t, false) ==
      if MainArtifactKey !in t then Err(NullPointer("entry " + MainArtifactKey))
      else if t[MainArtifactKey] !in t then Err(NullPointer("entry " + t[MainArtifactKey]))
      else
        var head :- DecodedHead(t);
        var attached :- DecodeAttached(Empty, head.rest, map[]);
        Ok(ProjectState(project, head.pom, head.main, attached))
  {
    assert ArtifactPropertyEntries(t) == map[];
    assert t - ArtifactPropertyEntries(t).Keys == t;
  }

  /** An artifact as the older reader gives it back: its file relative to the base directory, no properties. */
  function AsStored(base: Path, a: Artifact): Artifact
    requires a.file.Some? && CanRelativize(base, a.file.value)
  {
    Artifact(a.coords, Some(Relativize(base, a.file.value)), map[])
  }

  /** The state the older reader gives back for an encodable state whose main artifact has a file. */
  ghost function StoredState(s: ProjectState): ProjectState
    requires LegacyEncodable(s) && s.mainArtifact.file.Some?
  {
    var base := s.project.basedir;
    assert s.pom in AllArtifacts(s) && s.mainArtifact in AllArtifacts(s);
    ProjectState(s.project, AsStored(base, s.pom), AsStored(base, s.mainArtifact),
      set a | a in s.attachedArtifacts :: AsStored(base, a))
  }

  /** The files a state's entries name, relative to the base directory, are readable as such. */
  ghost predicate StoredFilesReadable(fs: FileSystem<Table>, s: ProjectState)
    requires LegacyEncodable(s) && s.mainArtifact.file.Some?
  {
    forall a | a in AllArtifacts(s) :: IsReadable(fs, Relativize(s.project.basedir, a.file.value))
  }

  lemma AsStoredIsRelocated(base: Path, a: Artifact)
    requires Storable(base, a) && a.file.Some?
    ensures Relocated(Empty, base, Unpropertied(a)) == AsStored(base, a)
    ensures Unpropertied(a).(file := Some(Parse(EntryText(base, Unpropertied(a))))) == AsStored(base, a)
  {
    ParseRender(Relativize(base, a.file.value));
    ResolveEmpty(Relativize(base, a.file.value));
  }

  lemma StoredIsDecoded(s: ProjectState)
    requires LegacyEncodable(s) && s.mainArtifact.file.Some?
    ensures AllStorable(s.project.basedir, AllArtifacts(UnpropertiedState(s)))
    ensures DecodedState(UnpropertiedState(s), Empty, false) == StoredState(s)
  {
    var base := s.project.basedir;
    UnpropertiedEncodable(s);
    assert s.pom in AllArtifacts(s) && s.mainArtifact in AllArtifacts(s);
    AsStoredIsRelocated(base, s.pom);
    AsStoredIsRelocated(base, s.mainArtifact);
    AttachedAreStored(s);
  }

  /** The attached artifacts the current reader gives back are those the older reader stores. */
  lemma AttachedAreStored(s: ProjectState)
    requires LegacyEncodable(s) && s.mainArtifact.file.Some?
    requires AllStorable(s.project.basedir, AllArtifacts(UnpropertiedState(s)))
    ensures AllStorable(s.project.basedir, UnpropertiedState(s).attachedArtifacts)
    ensures RelocatedSet(Empty, s.project.basedir, UnpropertiedState(s).attachedArtifacts)
      == set a | a in s.attachedArtifacts :: AsStored(s.project.basedir, a)
  {
    var base := s.project.basedir;
    var u := UnpropertiedState(s);
    var relocated := RelocatedSet(Empty, base, u.attachedArtifacts);
    var stored := set a | a in s.attachedArtifacts :: AsStored(base, a);
    forall x | x in relocated
      ensures x in stored
    {
      var b :| b in u.attachedArtifacts && x == Relocated(Empty, base, b);
      var a :| a in s.attachedArtifacts && b == Unpropertied(a);
      assert a in AllArtifacts(s);
      AsStoredIsRelocated(base, a);
    }
    forall x | x in stored
      ensures x in relocated
    {
      var a :| a in s.attachedArtifacts && x == AsStored(base, a);
      assert a in AllArtifacts(s);
      AsStoredIsRelocated(base, a);
      assert Unpropertied(a) in u.attachedArtifacts;
    }
  }

  /**
   * Round trip through the older file, given that the stored relative paths
   * name readable files: every artifact comes back with its coordinates, but
   * with the path relative to the base directory as its file and without its
   * properties.
   */
  lemma LegacyRoundTrip(s: ProjectState, order: seq<Artifact>, fs: FileSystem<Table>)
    requires LegacyEncodable(s) && s.mainArtifact.file.Some? && Enumerates(order, s.attachedArtifacts)
    requires StoredFilesReadable(fs, s)
    ensures EncodeLegacy(s, order).Ok?
    ensures Load(s.project, fs, EncodeLegacy(s, order).value) == Ok(StoredState(s))
  {
    LegacyTableShaped(s, order);
    var t := EncodeLegacy(s, order).value;
    LegacyTableReadable(s, order, fs);
    LoadIsUnresolvedDecode(s.project, fs, t);
    DecodeShaped(UnpropertiedState(s), t, Empty, false);
    StoredIsDecoded(s);
  }

  /** The older table meets what `LoadIsUnresolvedDecode` asks of a table. */
  lemma LegacyTableReadable(s: ProjectState, order: seq<Artifact>, fs: FileSystem<Table>)
    requires LegacyEncodable(s) && s.mainArtifact.file.Some? && Enumerates(order, s.attachedArtifacts)
    requires StoredFilesReadable(fs, s)
    ensures EncodeLegacy(s, order).Ok?
    ensures var t := EncodeLegacy(s, order).value;
      && (forall k | k in t :: !(PropertyPrefix <= k))
      && (forall k | k in t && k != MainArtifactKey :: IsReadable(fs, Parse(t[k])))
      && MainArtifactKey in t && t[MainArtifactKey] != MainArtifactKey
  {
    LegacyTableShaped(s, order);
    var t := EncodeLegacy(s, order).value;
    forall k | k in t
      ensures !(PropertyPrefix <= k)
    {
      LegacyKeyIsId(s, t, k);
    }
    forall k | k in t && k != MainArtifactKey
      ensures IsReadable(fs, Parse(t[k]))
    {
      EntryReadable(s, t, fs, k);
    }
    IdIsNotSentinel(s.mainArtifact.coords);
  }

  lemma EntryReadable(s: ProjectState, t: Table, fs: FileSystem<Table>, k: string)
    requires LegacyEncodable(s) && s.mainArtifact.file.Some? && StoredFilesReadable(fs, s)
    requires Shaped(t, UnpropertiedState(s), AllArtifacts(UnpropertiedState(s))) && k in t && k != MainArtifactKey
    ensures IsReadable(fs, Parse(t[k]))
  {
    var base := s.project.basedir;
    LegacyKeyIsId(s, t, k);
    var a :| a in AllArtifacts(s) && k == ToId(a.coords) && t[k] == EntryText(base, a);
    ParseRender(Relativize(base, a.file.value));
  }

  /**
   * As written, `loadProjectState` adds whatever `buildArtifact` returns, so
   * an entry whose file is no longer readable leaves a null among the
   * attached artifacts, although `buildArtifact` reports it as ignored.
   */
  lemma AsWrittenKeepsNull(project: ProjectInfo, fs: FileSystem<Table>, t: Table, k: string)
    requires LoadAsWritten(project, fs, t).Ok?
    requires k in LoadHead(fs, t).value.rest && !IsReadable(fs, Parse(LoadHead(fs, t).value.rest[k]))
    ensures None in LoadAsWritten(project, fs, t).value.attachedArtifacts
  {
    var rest := LoadHead(fs, t).value.rest;
    assert LoadArtifact(fs, k, Parse(rest[k])).value == None;
  }

  /**
   * Corrected: the attached artifacts are the non-null results only, that
   * is, one artifact per entry left whose file is readable, with the path as
   * stored and no properties.
   */
  lemma LoadedAttachedAreReadable(project: ProjectInfo, fs: FileSystem<Table>, t: Table)
    requires Load(project, fs, t).Ok?
    ensures LoadAsWritten(project, fs, t).Ok?
    ensures Load(project, fs, t).value.attachedArtifacts == Present(LoadAsWritten(project, fs, t).value.attachedArtifacts)
    ensures var rest := LoadHead(fs, t).value.rest;
      forall a :: a in Load(project, fs, t).value.attachedArtifacts <==>
        exists k ::
          && k in rest && IsReadable(fs, Parse(rest[k])) && ParseCoordinates(k).Some?
          && a == Artifact(ParseCoordinates(k).value, Some(Parse(rest[k])), map[])
  {
    var rest := LoadHead(fs, t).value.rest;
    var attached := Load(project, fs, t).value.attachedArtifacts;
    forall a | a in attached
      ensures exists k ::
        && k in rest && IsReadable(fs, Parse(rest[k])) && ParseCoordinates(k).Some?
        && a == Artifact(ParseCoordinates(k).value, Some(Parse(rest[k])), map[])
    {
      var k :| k in rest && Some(a) == LoadArtifact(fs, k, Parse(rest[k])).value;
    }
    forall a, k | k in rest && IsReadable(fs, Parse(rest[k])) && ParseCoordinates(k).Some?
        && a == Artifact(ParseCoordinates(k).value, Some(Parse(rest[k])), map[])
      ensures a in attached
    {
      assert Some(a) in LoadEntries(fs, rest).value;
    }
  }
}
