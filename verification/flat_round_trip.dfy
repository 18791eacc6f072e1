/**
 * What the flat key-value state file keeps: the shape of an encoded table,
 * the decoding of such a table, and the round trip between the two.
 */
module FlatRoundTrip {
  import opened Wrappers
  import opened Collections
  import Text
  import opened Paths
  import opened Artifacts
  import opened Projects
  import opened ProjectStates
  import opened FlatCodec

  /** The prefix an artifact's property entries are written under. */
  function PrefixOf(a: Artifact): string
  {
    ArtifactPropertiesPrefix(ToId(a.coords))
  }

  /** The keys the entries of one artifact occupy. */
  function EntryKeys(a: Artifact): set<string>
  {
    {ToId(a.coords)} + PropertyEntries(a).Keys
  }

  /** The path text an artifact's entry holds: relative to the base, or empty for no file. */
  function EntryText(base: Path, a: Artifact): string
    requires a.file.Some? ==> CanRelativize(base, a.file.value)
  {
    match a.file
    case None => ""
    case Some(f) => Render(Relativize(base, f))
  }

  /** An artifact whose entries survive a round trip through the table. */
  predicate Storable(base: Path, a: Artifact)
  {
    && ValidCoordinates(a.coords)
    && !(PropertyPrefix <= ToId(a.coords))
    && (a.file.Some? ==> ValidPath(a.file.value) && IsUnder(base, a.file.value))
  }

  function AllArtifacts(s: ProjectState): set<Artifact>
  {
    {s.pom, s.mainArtifact} + s.attachedArtifacts
  }

  /**
   * The states the table encodes faithfully: ids that decode, files under the
   * base directory (only the main artifact may have none), the POM that
   * `toPomArtifact` derives from the main artifact, one artifact per id, and
   * no prefix extending or extended by that of an artifact with properties.
   */
  ghost predicate Encodable(s: ProjectState)
  {
    var base := s.project.basedir;
    && (forall a | a in AllArtifacts(s) :: Storable(base, a))
    && s.pom.file.Some?
    && (forall a | a in s.attachedArtifacts :: a.file.Some?)
    && s.pom.coords == PomCoordinates(s.mainArtifact.coords)
    && (IsPomArtifact(s.mainArtifact) ==> s.pom == s.mainArtifact)
    && (forall a | a in s.attachedArtifacts :: a.coords != s.mainArtifact.coords && a.coords != s.pom.coords)
    && (forall a, b | a in s.attachedArtifacts && b in s.attachedArtifacts && a.coords == b.coords :: a == b)
    && (forall a, b | a in AllArtifacts(s) && b in AllArtifacts(s) && b.properties != map[]
          && (PrefixOf(a) <= PrefixOf(b) || PrefixOf(b) <= PrefixOf(a)) :: a.coords == b.coords)
  }

  /** The entries of `a` are in `t` with the values the encoder writes. */
  ghost predicate Holds(t: Table, base: Path, a: Artifact)
    requires Storable(base, a)
  {
    && ToId(a.coords) in t && t[ToId(a.coords)] == EntryText(base, a)
    && forall name :: name in a.properties ==>
      PrefixOf(a) + name in t && t[PrefixOf(a) + name] == a.properties[name]
  }

  /** A key of the table, named so that quantifiers over the keys fire only where a proof asks. */
  predicate IsKey(t: Table, k: string)
  {
    k in t
  }

  /**
   * `t` holds the entries of every artifact in `done`, the sentinel if present
   * names the main artifact, and there is no other key.
   */
  ghost predicate Shaped(t: Table, s: ProjectState, done: set<Artifact>)
  {
    && (MainArtifactKey in t ==> t[MainArtifactKey] == ToId(s.mainArtifact.coords))
    && (forall a | a in done :: Storable(s.project.basedir, a) && Holds(t, s.project.basedir, a))
    && (forall k {:trigger IsKey(t, k)} | IsKey(t, k) ::
          k == MainArtifactKey || exists a :: a in done && k in EntryKeys(a))
  }

  lemma PropertyEntriesShape(a: Artifact)
    ensures forall name :: name in a.properties ==>
      PrefixOf(a) + name in PropertyEntries(a) && PropertyEntries(a)[PrefixOf(a) + name] == a.properties[name]
    ensures forall k :: k in PropertyEntries(a) ==>
      PropertyPrefix <= k && exists name :: name in a.properties && k == PrefixOf(a) + name
  {
    PrefixCancels(PrefixOf(a));
    forall k | k in PropertyEntries(a)
      ensures PropertyPrefix <= k
    {
      var name :| name in a.properties && k == PrefixOf(a) + name;
      assert k == PropertyPrefix + (ToId(a.coords) + "." + name);
    }
  }

  /** An id always holds a `:`, so it is never the sentinel. */
  lemma IdIsNotSentinel(c: Coordinates)
    ensures ToId(c) != MainArtifactKey
  {
    Text.JoinHasSeparator(IdParts(c), ':');
    assert ':' !in MainArtifactKey;
  }

  lemma SentinelIsNotProperty()
    ensures !(PropertyPrefix <= MainArtifactKey)
  {
    assert PropertyPrefix[0] != MainArtifactKey[0];
  }

  /** Of two strings ending in the same text, one prefix extends the other. */
  lemma PrefixesCompare(p: string, q: string, x: string, y: string)
    requires p + x == q + y
    ensures p <= q || q <= p
  {
    if |p| <= |q| {
      assert p == (p + x)[..|p|] == (q + y)[..|p|] == q[..|p|];
    } else {
      assert q == (q + y)[..|q|] == (p + x)[..|q|] == p[..|q|];
    }
  }

  /** Artifacts of an encodable state with the same coordinates are the same artifact. */
  lemma SameCoordinates(s: ProjectState, a: Artifact, b: Artifact)
    requires Encodable(s) && a in AllArtifacts(s) && b in AllArtifacts(s) && a.coords == b.coords
    ensures a == b
  {
    if a == s.pom || a == s.mainArtifact || b == s.pom || b == s.mainArtifact {
      if s.pom.coords == s.mainArtifact.coords {
        assert IsPomArtifact(s.mainArtifact);
      }
    }
  }

  /** Entries of artifacts with different coordinates never share a key, nor take the sentinel's. */
  lemma KeysApart(s: ProjectState, a: Artifact, b: Artifact)
    requires Encodable(s) && a in AllArtifacts(s) && b in AllArtifacts(s) && a.coords != b.coords
    ensures EntryKeys(a) !! EntryKeys(b)
  {
    var base := s.project.basedir;
    PropertyEntriesShape(a);
    PropertyEntriesShape(b);
    if ToId(a.coords) == ToId(b.coords) {
      ToIdInjective(a.coords, b.coords);
    }
    forall k | k in EntryKeys(a) && k in EntryKeys(b)
      ensures false
    {
      if k != ToId(a.coords) && k != ToId(b.coords) {
        var n :| n in a.properties && k == PrefixOf(a) + n;
        var m :| m in b.properties && k == PrefixOf(b) + m;
        PrefixesCompare(PrefixOf(a), PrefixOf(b), n, m);
      }
    }
  }

  lemma SentinelApart(a: Artifact)
    ensures MainArtifactKey !in EntryKeys(a)
  {
    IdIsNotSentinel(a.coords);
    PropertyEntriesShape(a);
    SentinelIsNotProperty();
  }

  /** The entries the encoder writes for one artifact: its path entry, then its property entries. */
  function WithEntries(t: Table, base: Path, a: Artifact): Table
    requires a.file.Some? ==> CanRelativize(base, a.file.value)
  {
    t[ToId(a.coords) := EntryText(base, a)] + PropertyEntries(a)
  }

  lemma HoldsKept(t: Table, base: Path, a: Artifact, x: Artifact)
    requires Storable(base, a) && Storable(base, x)
    requires Holds(t, base, a) && EntryKeys(a) !! EntryKeys(x)
    ensures Holds(WithEntries(t, base, x), base, a)
  {
    PropertyEntriesShape(a);
  }

  lemma HoldsAdded(t: Table, base: Path, x: Artifact)
    requires Storable(base, x)
    ensures Holds(WithEntries(t, base, x), base, x)
  {
    PropertyEntriesShape(x);
    assert ToId(x.coords) !in PropertyEntries(x);
  }

  /** Adding the entries of an artifact whose keys are apart from the others keeps a table shaped. */
  lemma PutOneShaped(s: ProjectState, t: Table, done: set<Artifact>, x: Artifact)
    requires Storable(s.project.basedir, x)
    requires forall a | a in done :: a == x || EntryKeys(a) !! EntryKeys(x)
    requires Shaped(t, s, done)
    ensures Shaped(WithEntries(t, s.project.basedir, x), s, done + {x})
  {
    var base := s.project.basedir;
    var t' := WithEntries(t, base, x);
    SentinelApart(x);
    forall a | a in done && a != x
      ensures Holds(t', base, a)
    {
      HoldsKept(t, base, a, x);
    }
    HoldsAdded(t, base, x);
    forall k | k in t'
      ensures k == MainArtifactKey || exists a :: a in done + {x} && k in EntryKeys(a)
    {
      if k !in t {
        assert k in EntryKeys(x);
      } else {
        assert IsKey(t, k);
      }
    }
  }

  ghost predicate KeysApartIn(u: set<Artifact>)
  {
    forall a, b | a in u && b in u && a != b :: EntryKeys(a) !! EntryKeys(b)
  }

  predicate AllStorable(base: Path, u: set<Artifact>)
  {
    forall a | a in u :: Storable(base, a)
  }

  /** Within an encodable state, distinct artifacts occupy disjoint keys. */
  lemma EncodableApart(s: ProjectState)
    requires Encodable(s)
    ensures KeysApartIn(AllArtifacts(s)) && AllStorable(s.project.basedir, AllArtifacts(s))
  {
    forall a, b | a in AllArtifacts(s) && b in AllArtifacts(s) && a != b
      ensures EntryKeys(a) !! EntryKeys(b)
    {
      if a.coords == b.coords {
        SameCoordinates(s, a, b);
      }
      KeysApart(s, a, b);
    }
  }

  function Elements(order: seq<Artifact>): set<Artifact>
  {
    set i | 0 <= i < |order| :: order[i]
  }

  lemma ElementsCons(order: seq<Artifact>)
    requires |order| > 0
    ensures Elements(order) == {order[0]} + Elements(order[1..])
  {
    assert forall i :: 1 <= i < |order| ==> order[i] == order[1..][i - 1];
    assert forall i :: 0 <= i < |order| - 1 ==> order[1..][i] == order[i + 1];
  }

  /** The attached artifacts' entries, added in any order, keep the table shaped. */
  lemma {:induction false} PutAttachedShaped(s: ProjectState, u: set<Artifact>, t: Table, done: set<Artifact>, order: seq<Artifact>)
    requires KeysApartIn(u) && AllStorable(s.project.basedir, u) && done <= u
    requires forall i :: 0 <= i < |order| ==> order[i] in u && order[i].file.Some?
    requires Shaped(t, s, done)
    ensures PutAttached(t, s.project.basedir, order).Ok?
    ensures Shaped(PutAttached(t, s.project.basedir, order).value, s, done + Elements(order))
    ensures t.Keys <= PutAttached(t, s.project.basedir, order).value.Keys
    decreases |order|
  {
    var base := s.project.basedir;
    if |order| > 0 {
      var x := order[0];
      assert x in u;
      assert forall a | a in done :: a == x || EntryKeys(a) !! EntryKeys(x);
      PutOneShaped(s, t, done, x);
      assert PutArtifact(t, base, x) == Ok(WithEntries(t, base, x));
      PutAttachedShaped(s, u, WithEntries(t, base, x), done + {x}, order[1..]);
      ElementsCons(order);
    } else {
      assert done + Elements(order) == done;
    }
  }

  /** The POM, the sentinel and the main artifact written first. */
  lemma EncodeHeadShaped(s: ProjectState)
    requires KeysApartIn(AllArtifacts(s)) && AllStorable(s.project.basedir, AllArtifacts(s))
    requires s.pom.file.Some?
    ensures EncodeHead(s).Ok?
    ensures MainArtifactKey in EncodeHead(s).value
    ensures Shaped(EncodeHead(s).value, s, {s.pom, s.mainArtifact})
  {
    var base := s.project.basedir;
    assert s.pom in AllArtifacts(s) && s.mainArtifact in AllArtifacts(s);
    var t2 := WithEntries(map[], base, s.pom)[MainArtifactKey := ToId(s.mainArtifact.coords)];
    EncodeHeadEntries(s);
    SentinelShaped(s);
    PutOneShaped(s, t2, {s.pom}, s.mainArtifact);
    SentinelApart(s.mainArtifact);
  }

  /** The head as the POM's entries, the sentinel, then the main artifact's entries. */
  lemma EncodeHeadEntries(s: ProjectState)
    requires Storable(s.project.basedir, s.pom) && Storable(s.project.basedir, s.mainArtifact)
    requires s.pom.file.Some?
    ensures EncodeHead(s) == Ok(WithEntries(WithEntries(map[], s.project.basedir, s.pom)
      [MainArtifactKey := ToId(s.mainArtifact.coords)], s.project.basedir, s.mainArtifact))
  {
  }

  /** The POM's entries and the sentinel: the POM held and nothing else but the sentinel. */
  lemma SentinelShaped(s: ProjectState)
    requires Storable(s.project.basedir, s.pom)
    ensures Shaped(WithEntries(map[], s.project.basedir, s.pom)[MainArtifactKey := ToId(s.mainArtifact.coords)], s, {s.pom})
  {
    var base := s.project.basedir;
    var t1 := WithEntries(map[], base, s.pom);
    PutOneShaped(s, map[], {}, s.pom);
    assert {} + {s.pom} == {s.pom};
    SentinelApart(s.pom);
    var t2 := t1[MainArtifactKey := ToId(s.mainArtifact.coords)];
    assert Holds(t2, base, s.pom);
  }

  /**
   * The encoded table holds the sentinel naming the main artifact and, for
   * the POM, the main artifact and each attached artifact, its id mapped to
   * its path relative to the base directory and its properties under its own
   * prefix, and nothing else.
   */
  lemma EncodeShaped(s: ProjectState, order: seq<Artifact>)
    requires Encodable(s) && Enumerates(order, s.attachedArtifacts)
    ensures EncodeFlat(s, order).Ok?
    ensures MainArtifactKey in EncodeFlat(s, order).value
    ensures Shaped(EncodeFlat(s, order).value, s, AllArtifacts(s))
  {
    EncodableApart(s);
    EncodeHeadShaped(s);
    var head := EncodeHead(s).value;
    PutAttachedShaped(s, AllArtifacts(s), head, {s.pom, s.mainArtifact}, order);
    assert Elements(order) == s.attachedArtifacts;
  }

  /** Decoding the path text of an entry: the file, or the base directory for the empty text. */
  lemma EntryTextResolves(base: Path, a: Artifact)
    requires Storable(base, a)
    ensures Resolve(base, Parse(EntryText(base, a))) == if a.file.Some? then a.file.value else base
  {
    match a.file
    case None =>
      assert Text.Split("", '/') == [""];
      assert Parse("") == Path(false, []);
      assert base.names + [] == base.names;
    case Some(f) =>
      ParseRender(Relativize(base, f));
      ResolveRelativize(base, f);
  }

  /** The artifact as the decoder gives it back: a missing file comes back as the base directory. */
  function Restored(base: Path, a: Artifact): Artifact
  {
    a.(file := Some(if a.file.Some? then a.file.value else base))
  }

  /**
   * The artifact written relative to `base` and read back against `at`: its
   * file is the stored text resolved against `at`.
   */
  function Relocated(at: Path, base: Path, a: Artifact): Artifact
    requires a.file.Some? ==> CanRelativize(base, a.file.value)
  {
    a.(file := Some(Resolve(at, Parse(EntryText(base, a)))))
  }

  /** Read back against the directory it was written from, an artifact is restored. */
  lemma RelocatedHome(base: Path, a: Artifact)
    requires Storable(base, a)
    ensures Relocated(base, base, a) == Restored(base, a)
  {
    EntryTextResolves(base, a);
  }

  lemma PropertyKeyStarts(a: Artifact, name: string)
    ensures PropertyPrefix <= PrefixOf(a) + name
  {
    assert PrefixOf(a) + name == PropertyPrefix + (ToId(a.coords) + "." + name);
  }

  lemma PropertyEntryKey(a: Artifact, k: string)
    requires k in PropertyEntries(a)
    ensures exists name :: name in a.properties && k == PrefixOf(a) + name
  {
  }

  lemma PropertyEntryOf(a: Artifact, name: string)
    requires name in a.properties
    ensures PrefixOf(a) + name in PropertyEntries(a)
    ensures PropertyEntries(a)[PrefixOf(a) + name] == a.properties[name]
  {
    PrefixCancels(PrefixOf(a));
  }

  ghost predicate IsPropertyKey(u: set<Artifact>, k: string)
  {
    exists b, m :: b in u && m in b.properties && k == PrefixOf(b) + m
  }

  ghost predicate IsIdKey(u: set<Artifact>, k: string)
  {
    exists b :: b in u && k == ToId(b.coords)
  }

  /** Only property entries start with `property.`. */
  lemma PropertyKeysOfShaped(s: ProjectState, t: Table, k: string)
    requires AllStorable(s.project.basedir, AllArtifacts(s)) && Shaped(t, s, AllArtifacts(s))
    requires k in t
    ensures PropertyPrefix <= k ==> IsPropertyKey(AllArtifacts(s), k)
    ensures !(PropertyPrefix <= k) ==> k == MainArtifactKey || IsIdKey(AllArtifacts(s), k)
  {
    assert IsKey(t, k);
    if k == MainArtifactKey {
      SentinelIsNotProperty();
    } else {
      var b :| b in AllArtifacts(s) && k in EntryKeys(b);
      if k != ToId(b.coords) {
        PropertyEntryKey(b, k);
        var m :| m in b.properties && k == PrefixOf(b) + m;
        PropertyKeyStarts(b, m);
      }
    }
  }

  lemma FoundPropertyOwner(s: ProjectState, t: Table, a: Artifact, k: string, n: string)
    requires Encodable(s) && Shaped(t, s, AllArtifacts(s)) && a in AllArtifacts(s)
    requires k in t && PropertyPrefix <= k && k == PrefixOf(a) + n
    ensures n in a.properties
  {
    EncodableApart(s);
    PropertyKeysOfShaped(s, t, k);
    var b, m :| b in AllArtifacts(s) && m in b.properties && k == PrefixOf(b) + m;
    PrefixesCompare(PrefixOf(a), PrefixOf(b), n, m);
    SameCoordinates(s, a, b);
    PrefixCancels(PrefixOf(a));
  }

  /**
   * Under prefixes that do not extend one another, `findArtifactProperties`
   * gives each artifact of an encoded table exactly its own properties.
   */
  lemma FoundProperties(s: ProjectState, t: Table, a: Artifact)
    requires Encodable(s) && Shaped(t, s, AllArtifacts(s)) && a in AllArtifacts(s)
    ensures FindProperties(ToId(a.coords), ArtifactPropertyEntries(t)) == a.properties
  {
    var props := ArtifactPropertyEntries(t);
    var found := FindProperties(ToId(a.coords), props);
    var prefix := PrefixOf(a);
    PrefixSplit(prefix);
    PrefixCancels(prefix);
    forall n | n in a.properties
      ensures n in found && found[n] == a.properties[n]
    {
      PropertyKeyStarts(a, n);
      assert prefix + n in props;
      assert prefix <= prefix + n;
    }
    forall n | n in found
      ensures n in a.properties
    {
      var k :| k in props && prefix <= k && n == k[|prefix|..];
      FoundPropertyOwner(s, t, a, k, n);
    }
  }

  /** The entry of an artifact of the state decodes back to that artifact, its file relocated. */
  lemma EntryDecodes(s: ProjectState, t: Table, at: Path, a: Artifact)
    requires Encodable(s) && Shaped(t, s, AllArtifacts(s)) && a in AllArtifacts(s)
    ensures ToId(a.coords) in t && !(PropertyPrefix <= ToId(a.coords))
    ensures t[ToId(a.coords)] == EntryText(s.project.basedir, a)
    ensures AttachedEntry(at, ToId(a.coords), t[ToId(a.coords)], ArtifactPropertyEntries(t))
      == Ok(Relocated(at, s.project.basedir, a))
  {
    EncodableApart(s);
    FoundProperties(s, t, a);
    ParseToId(a.coords);
  }

  /**
   * The state decoding against `at` gives back: every file relocated, except
   * a POM distinct from the main artifact whose path is not resolved, which
   * comes back as the stored text.
   */
  ghost function DecodedState(s: ProjectState, at: Path, resolvePom: bool): ProjectState
    requires AllStorable(s.project.basedir, AllArtifacts(s))
  {
    var base := s.project.basedir;
    assert s.pom in AllArtifacts(s) && s.mainArtifact in AllArtifacts(s);
    var pom :=
      if resolvePom || IsPomArtifact(s.mainArtifact) then Relocated(at, base, s.pom)
      else s.pom.(file := Some(Parse(EntryText(base, s.pom))));
    ProjectState(s.project, pom, Relocated(at, base, s.mainArtifact), RelocatedSet(at, base, s.attachedArtifacts))
  }

  function RelocatedSet(at: Path, base: Path, u: set<Artifact>): set<Artifact>
    requires AllStorable(base, u)
  {
    set a | a in u :: Relocated(at, base, a)
  }

  /** The table left after the property entries, the sentinel and the main entry are removed. */
  function AfterMain(t: Table, main: Artifact): Table
  {
    t - ArtifactPropertyEntries(t).Keys - {MainArtifactKey, ToId(main.coords)}
  }

  lemma PomDecodes(s: ProjectState, t: Table, at: Path, resolvePom: bool)
    requires Encodable(s) && Shaped(t, s, AllArtifacts(s))
    ensures AllStorable(s.project.basedir, AllArtifacts(s))
    ensures DecodePom(at, Relocated(at, s.project.basedir, s.mainArtifact),
      AfterMain(t, s.mainArtifact), ArtifactPropertyEntries(t), resolvePom)
      == Ok((DecodedState(s, at, resolvePom).pom, AfterMain(t, s.mainArtifact) - {ToId(s.pom.coords)}))
  {
    EncodableApart(s);
    if IsPomArtifact(s.mainArtifact) {
      assert AfterMain(t, s.mainArtifact) - {ToId(s.pom.coords)} == AfterMain(t, s.mainArtifact);
    } else {
      SeparatePomDecodes(s, t);
    }
  }

  lemma SeparatePomDecodes(s: ProjectState, t: Table)
    requires Encodable(s) && Shaped(t, s, AllArtifacts(s)) && !IsPomArtifact(s.mainArtifact)
    ensures var pomId := ToId(PomCoordinates(s.mainArtifact.coords));
      && pomId in AfterMain(t, s.mainArtifact)
      && AfterMain(t, s.mainArtifact)[pomId] == EntryText(s.project.basedir, s.pom)
      && FindProperties(pomId, ArtifactPropertyEntries(t)) == s.pom.properties
  {
    PomEntryPresent(s, t);
    FoundProperties(s, t, s.pom);
  }

  lemma PomEntryPresent(s: ProjectState, t: Table)
    requires Encodable(s) && Shaped(t, s, AllArtifacts(s)) && !IsPomArtifact(s.mainArtifact)
    ensures ToId(s.pom.coords) in AfterMain(t, s.mainArtifact)
    ensures AfterMain(t, s.mainArtifact)[ToId(s.pom.coords)] == EntryText(s.project.basedir, s.pom)
  {
    EntryDecodes(s, t, s.project.basedir, s.pom);
    IdIsNotSentinel(s.pom.coords);
    PomIdDiffers(s.mainArtifact);
  }

  /** The entries left after the POM are exactly those of the attached artifacts. */
  function AfterPom(t: Table, s: ProjectState): Table
  {
    AfterMain(t, s.mainArtifact) - {ToId(s.pom.coords)}
  }

  lemma LeftoverIsAttached(s: ProjectState, t: Table, k: string)
    requires Encodable(s) && Shaped(t, s, AllArtifacts(s)) && k in AfterPom(t, s)
    ensures exists a :: a in s.attachedArtifacts && k == ToId(a.coords)
  {
    EncodableApart(s);
    PropertyKeysOfShaped(s, t, k);
    var b :| b in AllArtifacts(s) && k == ToId(b.coords);
  }

  lemma AttachedEntryLeft(s: ProjectState, t: Table, at: Path, a: Artifact)
    requires Encodable(s) && Shaped(t, s, AllArtifacts(s)) && a in s.attachedArtifacts
    ensures ToId(a.coords) in AfterPom(t, s)
    ensures AttachedEntry(at, ToId(a.coords), AfterPom(t, s)[ToId(a.coords)], ArtifactPropertyEntries(t))
      == Ok(Relocated(at, s.project.basedir, a))
  {
    AttachedKeyLeft(s, t, a);
    EntryDecodes(s, t, at, a);
  }

  lemma AttachedKeyLeft(s: ProjectState, t: Table, a: Artifact)
    requires Encodable(s) && Shaped(t, s, AllArtifacts(s)) && a in s.attachedArtifacts
    ensures ToId(a.coords) in AfterPom(t, s)
    ensures AfterPom(t, s)[ToId(a.coords)] == t[ToId(a.coords)]
  {
    var id := ToId(a.coords);
    assert a in AllArtifacts(s);
    assert id in t && !(PropertyPrefix <= id);
    IdIsNotSentinel(a.coords);
    AttachedIdApart(s, a);
    assert id !in ArtifactPropertyEntries(t);
  }

  lemma AttachedIdApart(s: ProjectState, a: Artifact)
    requires Encodable(s) && a in s.attachedArtifacts
    ensures ToId(a.coords) != ToId(s.mainArtifact.coords) && ToId(a.coords) != ToId(s.pom.coords)
  {
    assert a in AllArtifacts(s) && s.pom in AllArtifacts(s) && s.mainArtifact in AllArtifacts(s);
    if ToId(a.coords) == ToId(s.mainArtifact.coords) {
      ToIdInjective(a.coords, s.mainArtifact.coords);
    }
    if ToId(a.coords) == ToId(s.pom.coords) {
      ToIdInjective(a.coords, s.pom.coords);
    }
  }

  lemma AttachedDecodes(s: ProjectState, t: Table, at: Path)
    requires Encodable(s) && Shaped(t, s, AllArtifacts(s))
    ensures AllStorable(s.project.basedir, s.attachedArtifacts)
    ensures DecodeAttached(at, AfterPom(t, s), ArtifactPropertyEntries(t))
      == Ok(RelocatedSet(at, s.project.basedir, s.attachedArtifacts))
  {
    var base := s.project.basedir;
    var props := ArtifactPropertyEntries(t);
    var rest := AfterPom(t, s);
    EncodableApart(s);
    forall k | k in rest
      ensures ParseCoordinates(k).Some?
    {
      LeftoverIsAttached(s, t, k);
      var a :| a in s.attachedArtifacts && k == ToId(a.coords);
      AttachedEntryLeft(s, t, at, a);
    }
    var decoded := set k | k in rest :: AttachedEntry(at, k, rest[k], props).value;
    var relocated := RelocatedSet(at, base, s.attachedArtifacts);
    forall d | d in decoded
      ensures d in relocated
    {
      var k :| k in rest && d == AttachedEntry(at, k, rest[k], props).value;
      LeftoverIsAttached(s, t, k);
      var a :| a in s.attachedArtifacts && k == ToId(a.coords);
      AttachedEntryLeft(s, t, at, a);
    }
    forall d | d in relocated
      ensures d in decoded
    {
      var a :| a in s.attachedArtifacts && d == Relocated(at, base, a);
      AttachedEntryLeft(s, t, at, a);
    }
    assert decoded == relocated;
  }

  /**
   * Decoding an encoded table against `at`: the whole state comes back, every
   * file relocated, up to the POM path when it is not resolved.
   */
  lemma DecodeShaped(s: ProjectState, t: Table, at: Path, resolvePom: bool)
    requires Encodable(s) && MainArtifactKey in t && Shaped(t, s, AllArtifacts(s))
    ensures AllStorable(s.project.basedir, AllArtifacts(s))
    ensures DecodeState(s.project, at, t, resolvePom) == Ok(DecodedState(s, at, resolvePom))
  {
    var main := s.mainArtifact;
    var props := ArtifactPropertyEntries(t);
    var rest := t - props.Keys;
    SentinelIsNotProperty();
    assert MainArtifactKey in rest && rest[MainArtifactKey] == ToId(main.coords);
    EntryDecodes(s, t, at, main);
    assert ToId(main.coords) in rest;
    assert rest - {MainArtifactKey, ToId(main.coords)} == AfterMain(t, main);
    PomDecodes(s, t, at, resolvePom);
    AttachedDecodes(s, t, at);
    assert AfterPom(t, s) == AfterMain(t, main) - {ToId(s.pom.coords)};
  }

  /** Decoded against the directory it was written from, only a missing main file changes. */
  lemma DecodedAtHome(s: ProjectState)
    requires Encodable(s)
    ensures AllStorable(s.project.basedir, AllArtifacts(s))
    ensures DecodedState(s, s.project.basedir, true)
      == s.(mainArtifact := Restored(s.project.basedir, s.mainArtifact))
  {
    var base := s.project.basedir;
    EncodableApart(s);
    RelocatedHome(base, s.pom);
    RelocatedHome(base, s.mainArtifact);
    forall a | a in s.attachedArtifacts
      ensures Relocated(base, base, a) == a
    {
      RelocatedHome(base, a);
    }
    assert RelocatedSet(base, base, s.attachedArtifacts) == s.attachedArtifacts;
  }

  /**
   * Round trip: the current decoder gives back every artifact of an encoded
   * state, files and properties included, whatever order the attached set
   * was written in.
   */
  lemma RoundTrip(s: ProjectState, order: seq<Artifact>)
    requires Encodable(s) && s.mainArtifact.file.Some? && Enumerates(order, s.attachedArtifacts)
    ensures EncodeFlat(s, order).Ok?
    ensures Decode(s.project, EncodeFlat(s, order).value) == Ok(s)
  {
    EncodeShaped(s, order);
    DecodeShaped(s, EncodeFlat(s, order).value, s.project.basedir, true);
    DecodedAtHome(s);
  }

  /** A main artifact without a file is written as `""`. */
  lemma MainWithoutFileWrittenEmpty(s: ProjectState, order: seq<Artifact>)
    requires Encodable(s) && s.mainArtifact.file.None? && Enumerates(order, s.attachedArtifacts)
    ensures EncodeFlat(s, order).Ok?
    ensures ToId(s.mainArtifact.coords) in EncodeFlat(s, order).value
    ensures EncodeFlat(s, order).value[ToId(s.mainArtifact.coords)] == ""
  {
    EncodeShaped(s, order);
    MainEntryHolds(s, EncodeFlat(s, order).value);
  }

  lemma MainEntryHolds(s: ProjectState, t: Table)
    requires Encodable(s) && Shaped(t, s, AllArtifacts(s))
    ensures ToId(s.mainArtifact.coords) in t
    ensures t[ToId(s.mainArtifact.coords)] == EntryText(s.project.basedir, s.mainArtifact)
  {
    assert s.mainArtifact in AllArtifacts(s);
  }

  /** ... and decoding resolves that `""` to the base directory itself. */
  lemma MainWithoutFileBecomesBase(s: ProjectState, order: seq<Artifact>)
    requires Encodable(s) && s.mainArtifact.file.None? && Enumerates(order, s.attachedArtifacts)
    ensures EncodeFlat(s, order).Ok?
    ensures Decode(s.project, EncodeFlat(s, order).value)
      == Ok(s.(mainArtifact := s.mainArtifact.(file := Some(s.project.basedir))))
  {
    EncodeShaped(s, order);
    DecodeShaped(s, EncodeFlat(s, order).value, s.project.basedir, true);
    DecodedAtHome(s);
  }

  /**
   * Two artifacts of one module whose prefixes nest: `b` carries a classifier
   * that begins with the version and `.`, `a` none. Every property entry of
   * `b` also lies under `a`'s prefix, so reading `a`'s properties picks it up
   * under the name `<rest>:<version>.<name>`.
   */
  lemma {:induction false} ClassifierExtendsPrefix(a: Artifact, b: Artifact, rest: string, t: Table, name: string)
    requires a.coords.classifier == ""
    requires b.coords == a.coords.(classifier := a.coords.version + "." + rest)
    requires PrefixOf(b) + name in t
    ensures a.coords != b.coords
    ensures PrefixOf(a) <= PrefixOf(b)
    ensures var n := rest + ":" + a.coords.version + "." + name;
      n in FindProperties(ToId(a.coords), t) && FindProperties(ToId(a.coords), t)[n] == t[PrefixOf(b) + name]
  {
    var c := a.coords;
    var g, ar, e, v := c.groupId, c.artifactId, c.extension, c.version;
    var cl := v + "." + rest;
    assert IdParts(c) == [g, ar, e, v];
    assert IdParts(b.coords) == [g, ar, e, cl, v];
    assert [g, ar, e, v][1..] == [ar, e, v] && [ar, e, v][1..] == [e, v] && [e, v][1..] == [v];
    assert [g, ar, e, cl, v][1..] == [ar, e, cl, v] && [ar, e, cl, v][1..] == [e, cl, v];
    assert [e, cl, v][1..] == [cl, v] && [cl, v][1..] == [v];
    var tail := e + ":" + v;
    assert Text.Join([e, v], ':') == tail;
    assert Text.Join([ar, e, v], ':') == ar + ":" + tail;
    assert ToId(c) == g + ":" + (ar + ":" + tail);
    assert Text.Join([cl, v], ':') == cl + ":" + v;
    assert Text.Join([e, cl, v], ':') == e + ":" + (cl + ":" + v);
    assert Text.Join([ar, e, cl, v], ':') == ar + ":" + (e + ":" + (cl + ":" + v));
    assert ToId(b.coords) == g + ":" + (ar + ":" + (e + ":" + (cl + ":" + v)));
    var n := rest + ":" + v + "." + name;
    assert PrefixOf(b) + name == PrefixOf(a) + n;
    PrefixCancels(PrefixOf(a));
    PrefixSplit(PrefixOf(a));
    assert (PrefixOf(a) + n)[|PrefixOf(a)|..] == n;
    assert PrefixOf(a) <= PrefixOf(a) + n;
  }

  /**
   * The decoder as written takes the POM path verbatim, so a POM distinct
   * from the main artifact comes back with the path relative to the base
   * directory instead of its file, and the round trip fails.
   */
  lemma AsWrittenPomPathStaysRelative(s: ProjectState, order: seq<Artifact>)
    requires Encodable(s) && s.mainArtifact.file.Some? && Enumerates(order, s.attachedArtifacts)
    requires !IsPomArtifact(s.mainArtifact) && s.project.basedir.absolute
    ensures EncodeFlat(s, order).Ok?
    ensures DecodeAsWritten(s.project, EncodeFlat(s, order).value).Ok?
    ensures DecodeAsWritten(s.project, EncodeFlat(s, order).value).value.pom.file
      == Some(Relativize(s.project.basedir, s.pom.file.value))
    ensures DecodeAsWritten(s.project, EncodeFlat(s, order).value) != Ok(s)
  {
    EncodeShaped(s, order);
    DecodeShaped(s, EncodeFlat(s, order).value, s.project.basedir, false);
    assert s.pom in AllArtifacts(s);
    ParseRender(Relativize(s.project.basedir, s.pom.file.value));
    assert s.pom.file.value.absolute;
  }

  /**
   * What the decoder as written gives back for a saved state: the state
   * itself, except that a POM distinct from the main artifact keeps its
   * path relative to the base directory.
   */
  ghost function AsWrittenState(s: ProjectState): ProjectState
    requires Encodable(s)
  {
    assert s.pom in AllArtifacts(s);
    if IsPomArtifact(s.mainArtifact) then s
    else s.(pom := s.pom.(file := Some(Relativize(s.project.basedir, s.pom.file.value))))
  }

  /**
   * The round trip as written: reading back what `save` wrote gives every
   * artifact back, files and properties included, up to the POM's path,
   * whatever order the attached set was written in.
   */
  lemma AsWrittenRoundTrip(s: ProjectState, order: seq<Artifact>)
    requires Encodable(s) && s.mainArtifact.file.Some? && Enumerates(order, s.attachedArtifacts)
    ensures EncodeFlat(s, order).Ok?
    ensures DecodeAsWritten(s.project, EncodeFlat(s, order).value) == Ok(AsWrittenState(s))
  {
    var base := s.project.basedir;
    EncodeShaped(s, order);
    DecodeShaped(s, EncodeFlat(s, order).value, base, false);
    DecodedAtHome(s);
    assert s.pom in AllArtifacts(s);
    if !IsPomArtifact(s.mainArtifact) {
      ParseRender(Relativize(base, s.pom.file.value));
    }
  }

  lemma {:induction false} PutAttachedKeepsSentinel(t: Table, base: Path, order: seq<Artifact>)
    requires PutAttached(t, base, order).Ok? && MainArtifactKey in t
    ensures MainArtifactKey in PutAttached(t, base, order).value
    ensures PutAttached(t, base, order).value[MainArtifactKey] == t[MainArtifactKey]
    decreases |order|
  {
    if |order| > 0 {
      SentinelApart(order[0]);
      PutAttachedKeepsSentinel(PutArtifact(t, base, order[0]).value, base, order[1..]);
    }
  }

  /** Whatever the state, a successful encoding names the main artifact under the sentinel. */
  lemma SentinelNamesMain(s: ProjectState, order: seq<Artifact>)
    requires EncodeFlat(s, order).Ok?
    ensures MainArtifactKey in EncodeFlat(s, order).value
    ensures EncodeFlat(s, order).value[MainArtifactKey] == ToId(s.mainArtifact.coords)
  {
    SentinelApart(s.mainArtifact);
    PutAttachedKeepsSentinel(EncodeHead(s).value, s.project.basedir, order);
  }

  /**
   * A decoded POM is the main artifact itself exactly when `toPomArtifact`
   * hands the main artifact back; otherwise it is a separate artifact with
   * the POM coordinates of the main artifact.
   */
  lemma DecodedPom(project: ProjectInfo, base: Path, t: Table, resolvePom: bool)
    requires DecodeState(project, base, t, resolvePom).Ok?
    ensures var st := DecodeState(project, base, t, resolvePom).value;
      && (IsPomArtifact(st.mainArtifact) ==> st.pom == st.mainArtifact)
      && (!IsPomArtifact(st.mainArtifact) ==>
            st.pom.coords == PomCoordinates(st.mainArtifact.coords) && st.pom != st.mainArtifact)
  {
    var st := DecodeState(project, base, t, resolvePom).value;
    if !IsPomArtifact(st.mainArtifact) {
      assert PomCoordinates(st.mainArtifact.coords) != st.mainArtifact.coords;
    }
  }

  /**
   * Decoding succeeds only when the sentinel is present and names an entry
   * that is not a property entry; the main artifact then has the sentinel's
   * coordinates and always a file, so a null main artifact cannot occur.
   */
  lemma DecodeNeedsSentinel(project: ProjectInfo, base: Path, t: Table, resolvePom: bool)
    requires DecodeState(project, base, t, resolvePom).Ok?
    ensures MainArtifactKey in t && t[MainArtifactKey] in t && !(PropertyPrefix <= t[MainArtifactKey])
    ensures ParseCoordinates(t[MainArtifactKey]) == Some(DecodeState(project, base, t, resolvePom).value.mainArtifact.coords)
    ensures DecodeState(project, base, t, resolvePom).value.mainArtifact.file.Some?
  {
    SentinelIsNotProperty();
  }

  /** The artifact a leftover entry decodes to, or a placeholder for a key that is not one. */
  function EntryArtifact(base: Path, rest: Table, props: Table, k: string): Artifact
  {
    if k in rest && ParseCoordinates(k).Some? then AttachedEntry(base, k, rest[k], props).value
    else Artifact(Coordinates("", "", "", "", ""), None, map[])
  }

  /**
   * Every leftover entry becomes one attached artifact; when every key is
   * written the way `toId` writes it, there are exactly as many attached
   * artifacts as leftover entries.
   */
  lemma OneAttachedPerEntry(base: Path, rest: Table, props: Table)
    requires DecodeAttached(base, rest, props).Ok?
    ensures forall k | k in rest :: EntryArtifact(base, rest, props, k) in DecodeAttached(base, rest, props).value
    ensures |DecodeAttached(base, rest, props).value| <= |rest|
    ensures (forall k | k in rest :: ToId(ParseCoordinates(k).value) == k) ==>
      |DecodeAttached(base, rest, props).value| == |rest|
  {
    var f := k => EntryArtifact(base, rest, props, k);
    assert DecodeAttached(base, rest, props).value == Image(rest.Keys, f);
    assert |rest.Keys| == |rest|;
    ImageSize(rest.Keys, f);
    if forall k | k in rest :: ToId(ParseCoordinates(k).value) == k {
      forall x, y | x in rest.Keys && y in rest.Keys && f(x) == f(y)
        ensures x == y
      {
        assert ParseCoordinates(x).value == f(x).coords;
      }
    }
  }
}
