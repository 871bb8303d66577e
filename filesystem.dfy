/**
 * The host filesystem as the core sees it: regular files with their (already
 * decoded) text, and directories with the names `os.listdir` returns, in its
 * order. `os.makedirs`, `shutil.copy2` and `os.remove` are pure functions on
 * that value, and methods of `Disk`, the mutable filesystem, proved against them.
 */
module FileSystem {
  import opened Common
  import opened Text
  import opened Paths

  /** The causes of the `OSError`s the modelled calls raise. */
  datatype IOError = FileNotFound | IsADirectory | NotADirectory | FileExists | SameFile

  datatype FS = FS(files: map<Path, string>, dirs: map<Path, seq<string>>)

  predicate IsFile(fs: FS, p: Path)
  {
    p in fs.files
  }

  predicate IsDir(fs: FS, p: Path)
  {
    p in fs.dirs
  }

  predicate PathExists(fs: FS, p: Path)
  {
    p in fs.files || p in fs.dirs
  }

  /** No path is both a file and a directory, and every listed name exists. */
  predicate WellFormed(fs: FS)
  {
    && fs.files.Keys !! fs.dirs.Keys
    && forall d, k :: d in fs.dirs && 0 <= k < |fs.dirs[d]| ==> PathExists(fs, Join(d, fs.dirs[d][k]))
  }

  /** `open(p).read()`: the text of a regular file; opening anything else fails. */
  function Read(fs: FS, p: Path): (r: Option<string>)
    ensures r.Some? <==> IsFile(fs, p)
  {
    if p in fs.files then Some(fs.files[p]) else None
  }

  /** `mkdir(Join(parent, name))` of a new directory: it is created empty and listed in its parent. */
  function AddDir(fs: FS, parent: Path, name: string): FS
    requires parent in fs.dirs
  {
    FS(fs.files, fs.dirs[Join(parent, name) := []][parent := fs.dirs[parent] + [name]])
  }

  /**
   * `os.makedirs(target, exist_ok=True)`, with the target given as its chain of
   * (parent, name) steps from an existing directory down. A step that exists is
   * passed over; only the last one is an error when it is a file. Directories
   * made before a failure stay.
   */
  function MakeDirsOn(fs: FS, chain: seq<(Path, string)>): (r: (FS, Option<IOError>))
    ensures r.0.files == fs.files
    ensures fs.dirs.Keys <= r.0.dirs.Keys
    decreases |chain|
  {
    if chain == [] then (fs, None)
    else
      var parent, name := chain[0].0, chain[0].1;
      var d := Join(parent, name);
      if d in fs.dirs then MakeDirsOn(fs, chain[1..])
      else if d in fs.files then
        if |chain| == 1 then (fs, Some(FileExists)) else MakeDirsOn(fs, chain[1..])
      else if parent !in fs.dirs then (fs, Some(if parent in fs.files then NotADirectory else FileNotFound))
      else MakeDirsOn(AddDir(fs, parent, name), chain[1..])
  }

  /** Writing `name` in directory `dir`: the file gets `content`; the name is listed once. */
  function WriteFile(fs: FS, dir: Path, name: string, content: string): FS
    requires dir in fs.dirs
  {
    var listing := fs.dirs[dir];
    FS(fs.files[Join(dir, name) := content],
       fs.dirs[dir := if name in listing then listing else listing + [name]])
  }

  /** Where `shutil.copy2(src, Join(dir, name))` writes: into a directory of that name, if there is one. */
  function CopyTarget(fs: FS, src: Path, dir: Path, name: string): (Path, string)
  {
    if Join(dir, name) in fs.dirs then (Join(dir, name), Basename(src)) else (dir, name)
  }

  /**
   * `shutil.copy2(src, Join(dir, name))`: SameFileError when source and
   * destination are the same existing path, then the errors of opening the
   * source for reading and the destination for writing; otherwise the
   * destination holds the source's text, replacing what was there.
   */
  function Copy2On(fs: FS, src: Path, dir: Path, name: string): Result<FS, IOError>
  {
    var (dir', name') := CopyTarget(fs, src, dir, name);
    var dst := Join(dir', name');
    if src == dst && PathExists(fs, src) then Err(SameFile)
    else if src !in fs.files then Err(if src in fs.dirs then IsADirectory else FileNotFound)
    else if dst in fs.dirs then Err(IsADirectory)
    else if dir' !in fs.dirs then Err(if dir' in fs.files then NotADirectory else FileNotFound)
    else Ok(WriteFile(fs, dir', name', fs.files[src]))
  }

  /** The listing of `d` without the names that denote `p`. */
  function Unlist(names: seq<string>, d: Path, p: Path): (r: seq<string>)
    ensures forall n :: n in r <==> n in names && Join(d, n) != p
  {
    if names == [] then []
    else (if Join(d, names[0]) == p then [] else [names[0]]) + Unlist(names[1..], d, p)
  }

  /** `os.remove(p)`: only a regular file can be removed; it disappears from every listing. */
  function RemoveOn(fs: FS, p: Path): Result<FS, IOError>
  {
    if p !in fs.files then Err(if p in fs.dirs then IsADirectory else FileNotFound)
    else Ok(FS(fs.files - {p}, map d | d in fs.dirs :: Unlist(fs.dirs[d], d, p)))
  }

  // ---------------------------------------------------------------------------
  // Each operation keeps the filesystem well formed.

  lemma AddDirWellFormed(fs: FS, parent: Path, name: string)
    requires WellFormed(fs) && parent in fs.dirs && !PathExists(fs, Join(parent, name))
    ensures WellFormed(AddDir(fs, parent, name))
  {
    var fs' := AddDir(fs, parent, name);
    forall d, k | d in fs'.dirs && 0 <= k < |fs'.dirs[d]|
      ensures PathExists(fs', Join(d, fs'.dirs[d][k]))
    {
      if d == parent && k < |fs.dirs[parent]| {
        assert fs'.dirs[d][k] == fs.dirs[d][k];
      }
    }
  }

  lemma {:induction false} MakeDirsWellFormed(fs: FS, chain: seq<(Path, string)>)
    requires WellFormed(fs)
    ensures WellFormed(MakeDirsOn(fs, chain).0)
    decreases |chain|
  {
    if chain != [] {
      var parent, name := chain[0].0, chain[0].1;
      var d := Join(parent, name);
      if d in fs.dirs || d in fs.files {
        MakeDirsWellFormed(fs, chain[1..]);
      } else if parent in fs.dirs {
        AddDirWellFormed(fs, parent, name);
        MakeDirsWellFormed(AddDir(fs, parent, name), chain[1..]);
      }
    }
  }

  lemma WriteFileWellFormed(fs: FS, dir: Path, name: string, content: string)
    requires WellFormed(fs) && dir in fs.dirs && Join(dir, name) !in fs.dirs
    ensures WellFormed(WriteFile(fs, dir, name, content))
  {
    var fs' := WriteFile(fs, dir, name, content);
    forall d, k | d in fs'.dirs && 0 <= k < |fs'.dirs[d]|
      ensures PathExists(fs', Join(d, fs'.dirs[d][k]))
    {
      if d == dir && k < |fs.dirs[dir]| {
        assert fs'.dirs[d][k] == fs.dirs[d][k];
      }
    }
  }

  lemma Copy2WellFormed(fs: FS, src: Path, dir: Path, name: string)
    requires WellFormed(fs) && Copy2On(fs, src, dir, name).Ok?
    ensures WellFormed(Copy2On(fs, src, dir, name).value)
  {
    var (dir', name') := CopyTarget(fs, src, dir, name);
    WriteFileWellFormed(fs, dir', name', fs.files[src]);
  }

  lemma RemoveWellFormed(fs: FS, p: Path)
    requires WellFormed(fs) && RemoveOn(fs, p).Ok?
    ensures WellFormed(RemoveOn(fs, p).value)
  {
    var fs' := RemoveOn(fs, p).value;
    forall d, k | d in fs'.dirs && 0 <= k < |fs'.dirs[d]|
      ensures PathExists(fs', Join(d, fs'.dirs[d][k]))
    {
      var n := fs'.dirs[d][k];
      assert n in Unlist(fs.dirs[d], d, p);
      var k' :| 0 <= k' < |fs.dirs[d]| && fs.dirs[d][k'] == n;
      assert PathExists(fs, Join(d, fs.dirs[d][k']));
    }
  }

  // ---------------------------------------------------------------------------

  /** The host filesystem, changed in place by the calls the core makes. */
  class Disk {
    var files: map<Path, string>
    var dirs: map<Path, seq<string>>

    function State(): FS
      reads this
    {
      FS(files, dirs)
    }

    predicate Valid()
      reads this
    {
      WellFormed(State())
    }

    constructor (fs: FS)
      requires WellFormed(fs)
      ensures Valid() && State() == fs
    {
      files, dirs := fs.files, fs.dirs;
    }

    method MakeDirs(chain: seq<(Path, string)>) returns (err: Option<IOError>)
      requires Valid()
      modifies this
      ensures Valid()
      ensures (State(), err) == MakeDirsOn(old(State()), chain)
    {
      var i := 0;
      while i < |chain|
        invariant 0 <= i <= |chain|
        invariant Valid()
        invariant MakeDirsOn(State(), chain[i..]) == MakeDirsOn(old(State()), chain)
      {
        var parent, name := chain[i].0, chain[i].1;
        var d := Join(parent, name);
        assert chain[i..][1..] == chain[i + 1..];
        if d in dirs {
        } else if d in files {
          if i == |chain| - 1 {
            return Some(FileExists);
          }
        } else if parent !in dirs {
          return Some(if parent in files then NotADirectory else FileNotFound);
        } else {
          AddDirWellFormed(State(), parent, name);
          dirs := dirs[d := []][parent := dirs[parent] + [name]];
        }
        i := i + 1;
      }
      return None;
    }

    method Copy2(src: Path, dir: Path, name: string) returns (err: Option<IOError>)
      requires Valid()
      modifies this
      ensures Valid()
      ensures match Copy2On(old(State()), src, dir, name)
        case Ok(fs') => err.None? && State() == fs'
        case Err(e) => err == Some(e) && State() == old(State())
    {
      var dir', name' := dir, name;
      if Join(dir, name) in dirs {
        dir', name' := Join(dir, name), Basename(src);
      }
      var dst := Join(dir', name');
      if src == dst && (src in files || src in dirs) {
        return Some(SameFile);
      } else if src !in files {
        return Some(if src in dirs then IsADirectory else FileNotFound);
      } else if dst in dirs {
        return Some(IsADirectory);
      } else if dir' !in dirs {
        return Some(if dir' in files then NotADirectory else FileNotFound);
      }
      Copy2WellFormed(State(), src, dir, name);
      var listing := dirs[dir'];
      files := files[dst := files[src]];
      if name' !in listing {
        dirs := dirs[dir' := listing + [name']];
      }
      return None;
    }

    method Remove(p: Path) returns (err: Option<IOError>)
      requires Valid()
      modifies this
      ensures Valid()
      ensures match RemoveOn(old(State()), p)
        case Ok(fs') => err.None? && State() == fs'
        case Err(e) => err == Some(e) && State() == old(State())
    {
      if p !in files {
        return Some(if p in dirs then IsADirectory else FileNotFound);
      }
      RemoveWellFormed(State(), p);
      files := files - {p};
      dirs := map d | d in dirs :: Unlist(dirs[d], d, p);
      return None;
    }
  }
}
