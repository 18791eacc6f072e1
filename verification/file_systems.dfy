/**
 * The file system as the modelled code queries it. Nothing here performs I/O:
 * a `FileSystem` value is the state the code observes, and an operation that
 * changes files gives back the new state.
 */
module FileSystems {
  import opened Wrappers
  import opened Paths

  /**
   * The working directory relative paths are taken against, the readable
   * files, the directories, and the contents of the files the code reads and
   * writes, of type `C`.
   */
  datatype FileSystem<C> = FileSystem(cwd: Path, readable: set<Path>, directories: set<Path>, contents: map<Path, C>)

  /** The result of an operation that writes files: the file system afterwards, and whether it threw. */
  datatype Saved<C> = Saved(files: FileSystem<C>, outcome: Outcome)

  /** The file a path names: a relative path is taken against the working directory. */
  function Located<C>(fs: FileSystem<C>, p: Path): Path
  {
    Resolve(fs.cwd, p)
  }

  /** `Files.isReadable(p)`. */
  predicate IsReadable<C>(fs: FileSystem<C>, p: Path)
  {
    Located(fs, p) in fs.readable
  }

  /** A located path names a directory: the root always does, any other path when it is listed in `directories`. */
  predicate DirectoryAt<C>(fs: FileSystem<C>, q: Path)
  {
    q.names == [] || q in fs.directories
  }

  /** `Files.isDirectory(p)`. */
  predicate IsDirectory<C>(fs: FileSystem<C>, p: Path)
  {
    DirectoryAt(fs, Located(fs, p))
  }

  /** Reading a file's contents; a file without contents fails as an I/O error. */
  function ReadFile<C>(fs: FileSystem<C>, p: Path): Result<C>
  {
    if Located(fs, p) in fs.contents then Ok(fs.contents[Located(fs, p)])
    else Err(IOFailure("read " + Render(p)))
  }

  /** `Path.getParent()` of a path with at least one name. */
  function Parent(p: Path): (r: Path)
    requires |p.names| > 0
    ensures r.absolute == p.absolute && r.names + [p.names[|p.names| - 1]] == p.names
  {
    Path(p.absolute, p.names[..|p.names| - 1])
  }

  /** Whether `p` has a parent that is not a directory, in which case it cannot be created or written. */
  predicate ParentMissing<C>(fs: FileSystem<C>, p: Path)
  {
    |Located(fs, p).names| > 0 && !DirectoryAt(fs, Parent(Located(fs, p)))
  }

  /** A located path names a regular file: something readable or with contents that is not a directory. */
  predicate FileAt<C>(fs: FileSystem<C>, q: Path)
  {
    (q in fs.readable || q in fs.contents) && !DirectoryAt(fs, q)
  }

  /**
   * `Files.createDirectory(p)`: fails unless the parent directory exists, and
   * fails when anything, a file or a directory, is already at `p`.
   */
  function CreateDirectory<C>(fs: FileSystem<C>, p: Path): (r: Result<FileSystem<C>>)
    ensures r.Err? <==> ParentMissing(fs, p) || FileAt(fs, Located(fs, p)) || IsDirectory(fs, p)
    ensures r.Ok? ==> r.value == fs.(directories := fs.directories + {Located(fs, p)})
    ensures r.Ok? ==> IsDirectory(r.value, p)
  {
    var q := Located(fs, p);
    if ParentMissing(fs, p) || FileAt(fs, q) || DirectoryAt(fs, q) then Err(IOFailure("createDirectory " + Render(p)))
    else Ok(fs.(directories := fs.directories + {q}))
  }

  /** The directories `Files.createDirectories(p)` makes: `p` and every ancestor with a name. */
  function Ancestors(p: Path): set<Path>
  {
    set i | 0 < i <= |p.names| :: Path(p.absolute, p.names[..i])
  }

  /** Whether `p` or one of its ancestors is a regular file, so that `p` cannot become a directory. */
  predicate BlockedByFile<C>(fs: FileSystem<C>, p: Path)
  {
    exists a | a in Ancestors(Located(fs, p)) :: FileAt(fs, a)
  }

  /**
   * `Files.createDirectories(p)`: creates the missing ancestors too, and fails
   * when `p` or an ancestor is a regular file. Only `p` and its ancestors
   * become directories.
   */
  function CreateDirectories<C>(fs: FileSystem<C>, p: Path): (r: Result<FileSystem<C>>)
    ensures r.Err? <==> BlockedByFile(fs, p)
    ensures r.Ok? ==> IsDirectory(r.value, p)
    ensures r.Ok? ==> r.value.readable == fs.readable && r.value.contents == fs.contents && r.value.cwd == fs.cwd
    ensures r.Ok? ==> forall d | d in r.value.directories && d !in fs.directories :: |d.names| <= |Located(fs, p).names|
  {
    var q := Located(fs, p);
    assert |q.names| > 0 ==> q == Path(q.absolute, q.names[..|q.names|]);
    if BlockedByFile(fs, p) then Err(IOFailure("createDirectories " + Render(p)))
    else Ok(fs.(directories := fs.directories + Ancestors(q)))
  }

  /**
   * `if (!Files.isDirectory(p)) Files.createDirectory(p)`, or with
   * `createDirectories` when `parents` holds: afterwards `p` is a directory.
   */
  function EnsureDirectory<C>(fs: FileSystem<C>, p: Path, parents: bool): (r: Result<FileSystem<C>>)
    ensures r.Ok? ==> IsDirectory(r.value, p)
    ensures r.Ok? ==> r.value.readable == fs.readable && r.value.contents == fs.contents && r.value.cwd == fs.cwd
    ensures r.Ok? ==> forall d | d in r.value.directories && d !in fs.directories :: |d.names| <= |Located(fs, p).names|
    ensures r.Err? <==>
      && !IsDirectory(fs, p)
      && (if parents then BlockedByFile(fs, p) else ParentMissing(fs, p) || FileAt(fs, Located(fs, p)))
  {
    if IsDirectory(fs, p) then Ok(fs)
    else if parents then CreateDirectories(fs, p)
    else CreateDirectory(fs, p)
  }

  /**
   * Writing `c` to the file `p`, which is then readable; fails unless the
   * parent directory exists, and fails when `p` is a directory.
   */
  function WriteFile<C>(fs: FileSystem<C>, p: Path, c: C): (r: Result<FileSystem<C>>)
    ensures r.Err? <==> ParentMissing(fs, p) || IsDirectory(fs, p)
    ensures r.Ok? ==> IsReadable(r.value, p) && ReadFile(r.value, p) == Ok(c)
    ensures r.Ok? ==> r.value.directories == fs.directories && r.value.cwd == fs.cwd
    ensures r.Ok? ==> forall q | q != Located(fs, p) ::
      (q in r.value.readable <==> q in fs.readable) && (q in r.value.contents <==> q in fs.contents)
      && (q in fs.contents ==> r.value.contents[q] == fs.contents[q])
  {
    if ParentMissing(fs, p) || IsDirectory(fs, p) then Err(IOFailure("write " + Render(p)))
    else Ok(fs.(readable := fs.readable + {Located(fs, p)}, contents := fs.contents[Located(fs, p) := c]))
  }

  /** `Files.deleteIfExists(p)`: the file is gone afterwards; a missing file changes nothing. */
  function DeleteIfExists<C>(fs: FileSystem<C>, p: Path): (r: FileSystem<C>)
    ensures !IsReadable(r, p) && ReadFile(r, p).Err?
    ensures Located(fs, p) !in fs.readable && Located(fs, p) !in fs.contents ==> r == fs
  {
    fs.(readable := fs.readable - {Located(fs, p)}, contents := fs.contents - {Located(fs, p)})
  }
}
