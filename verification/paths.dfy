/**
 * File-system paths as `java.nio.file.Path` treats them on a Unix file system:
 * an optional root followed by a sequence of names, with `resolve` and
 * `relativize` working name by name and without normalisation.
 */
module Paths {
  import opened Wrappers
  import Text

  datatype Path = Path(absolute: bool, names: seq<string>)

  /** The empty relative path, the result of `Paths.get("")`. */
  const Empty := Path(false, [])

  /** A name that survives rendering and parsing: non-empty and free of `/`. */
  predicate ValidName(n: string)
  {
    n != "" && '/' !in n
  }

  predicate ValidPath(p: Path)
  {
    forall i :: 0 <= i < |p.names| ==> ValidName(p.names[i])
  }

  /** `Path.toString()`. */
  function Render(p: Path): string
  {
    (if p.absolute then "/" else "") + Text.Join(p.names, '/')
  }

  /** Drops the empty names that repeated or trailing slashes leave behind. */
  function NonEmptyNames(parts: seq<string>): (r: seq<string>)
    ensures forall i :: 0 <= i < |r| ==> r[i] != "" && r[i] in parts
  {
    if |parts| == 0 then []
    else (if parts[0] == "" then [] else [parts[0]]) + NonEmptyNames(parts[1..])
  }

  /** `Paths.get(text)`: a leading slash makes the path absolute. */
  function Parse(text: string): (p: Path)
    ensures ValidPath(p)
  {
    if |text| > 0 && text[0] == '/' then Path(true, NonEmptyNames(Text.Split(text[1..], '/')))
    else Path(false, NonEmptyNames(Text.Split(text, '/')))
  }

  /** `base.resolve(other)`: an absolute `other` wins, otherwise the names are appended. */
  function Resolve(base: Path, other: Path): (r: Path)
    ensures ValidPath(base) && ValidPath(other) ==> ValidPath(r)
  {
    if other.absolute then other else Path(base.absolute, base.names + other.names)
  }

  /** Java refuses to relativize between an absolute and a relative path. */
  predicate CanRelativize(base: Path, p: Path)
  {
    base.absolute == p.absolute
  }

  function CommonPrefixLength(a: seq<string>, b: seq<string>): (n: nat)
    ensures n <= |a| && n <= |b| && a[..n] == b[..n]
    ensures n < |a| && n < |b| ==> a[n] != b[n]
  {
    if |a| == 0 || |b| == 0 || a[0] != b[0] then 0
    else 1 + CommonPrefixLength(a[1..], b[1..])
  }

  function Parents(n: nat): (r: seq<string>)
    ensures |r| == n && forall i :: 0 <= i < n ==> r[i] == ".."
  {
    if n == 0 then [] else [".."] + Parents(n - 1)
  }

  /** `base.relativize(p)`: up to the common prefix, then down into `p`. */
  function Relativize(base: Path, p: Path): (r: Path)
    requires CanRelativize(base, p)
    ensures !r.absolute
    ensures ValidPath(p) ==> ValidPath(r)
  {
    var common := CommonPrefixLength(base.names, p.names);
    Path(false, Parents(|base.names| - common) + p.names[common..])
  }

  /** `base.relativize(file).toString()`, failing where Java throws. */
  function RelativeText(base: Path, file: Path): Result<string>
  {
    if CanRelativize(base, file) then Ok(Render(Relativize(base, file)))
    else Err(IllegalArgument("'other' is different type of Path"))
  }

  /** `p` lies at or below `base`. */
  predicate IsUnder(base: Path, p: Path)
  {
    base.absolute == p.absolute && base.names <= p.names
  }

  /** The stand-in for the only fact about `relativize` the codecs rely on. */
  lemma ResolveRelativize(base: Path, p: Path)
    requires IsUnder(base, p)
    ensures Resolve(base, Relativize(base, p)) == p
  {
    var common := CommonPrefixLength(base.names, p.names);
    assert common == |base.names|;
    assert base.names + p.names[common..] == p.names;
  }

  lemma {:induction false} NonEmptyNamesOfValid(names: seq<string>)
    requires forall i :: 0 <= i < |names| ==> names[i] != ""
    ensures NonEmptyNames(names) == names
  {
    if |names| > 0 {
      NonEmptyNamesOfValid(names[1..]);
      assert [names[0]] + names[1..] == names;
    }
  }

  lemma NamesSplitJoin(names: seq<string>)
    requires forall i :: 0 <= i < |names| ==> ValidName(names[i])
    ensures NonEmptyNames(Text.Split(Text.Join(names, '/'), '/')) == names
  {
    if |names| == 0 {
      assert NonEmptyNames([""]) == [];
    } else {
      Text.SplitJoin(names, '/');
      NonEmptyNamesOfValid(names);
    }
  }

  /** Rendering a path and reading it back with `Paths.get` gives the same path. */
  lemma {:induction false} ParseRender(p: Path)
    requires ValidPath(p)
    ensures Parse(Render(p)) == p
  {
    var j := Text.Join(p.names, '/');
    NamesSplitJoin(p.names);
    if p.absolute {
      assert Render(p)[1..] == j;
    } else {
      assert Render(p) == j;
      if |p.names| > 0 {
        Text.JoinStartsWithFirstPart(p.names, '/');
        assert j[0] != '/' by { assert j[0] == p.names[0][0] && ValidName(p.names[0]); }
      }
    }
  }
}
