/**
 * `inject_file`: routing one dropped file into the Steam tree. The checks run
 * in the source's order (unsupported kind, then an unusable Steam root), the
 * destination directory is created outside the error handler, and the copy
 * (with the optional removal of the source) is reported as a message.
 */
module Injector {
  import opened Common
  import opened Text
  import opened Paths
  import opened Classifier
  import opened FileSystem
  import opened NameResolver

  /** The message `inject_file` returns, with the file's basename where the text shows it. */
  datatype Message =
    | Unsupported(file: string)
    | SteamPathInvalid
    | Moved(file: string)
    | Injected(file: string)
    | ErrorInjecting(file: string, cause: IOError)

  /**
   * What a call amounts to: the `(ok, message, appname)` triple, or the error
   * `os.makedirs` raises to the caller, which no handler catches.
   */
  datatype InjectOutcome =
    | Returned(ok: bool, message: Message, appname: string)
    | Raised(cause: IOError)

  /** Each step's parent is the directory the step before it names. */
  predicate Linked(chain: seq<(Path, string)>)
  {
    forall i :: 0 < i < |chain| ==> chain[i].0 == Join(chain[i - 1].0, chain[i - 1].1)
  }

  /** The directories the steps of a chain name. */
  function StepDirs(chain: seq<(Path, string)>): set<Path>
  {
    set i | 0 <= i < |chain| :: Join(chain[i].0, chain[i].1)
  }

  /**
   * The steps `os.makedirs` takes to create a kind's destination below the
   * Steam root, which the caller has found to be a directory.
   */
  function DirChain(root: Path, kind: Kind): (c: seq<(Path, string)>)
    ensures c != [] && c[0].0 == root && Linked(c)
    ensures Join(c[|c| - 1].0, c[|c| - 1].1) == DeriveDestinations(root)[kind]
  {
    match kind
    case Manifest => [(root, "depotcache")]
    case Lua => [(root, "config"), (Join(root, "config"), "stplug-in")]
    case Vdf => [(root, "config")]
  }

  /** `steam_path and os.path.isdir(steam_path)`. */
  predicate RootValid(fs: FS, root: Option<Path>)
  {
    IsSet(root) && IsDir(fs, root.value)
  }

  /** The path `inject_file` copies to: the kind's destination joined with the basename. */
  function Target(root: Path, kind: Kind, path: Path): Path
  {
    Join(DeriveDestinations(root)[kind], Basename(path))
  }

  /** How the part of `inject_file` after its checks ends. */
  datatype Delivery =
    | Delivered
    | Failed(cause: IOError)   // caught: reported as "Error injecting"
    | Aborted(cause: IOError)  // raised by `os.makedirs`, outside the handler

  /**
   * The work `inject_file` does once the checks have passed: create the
   * destination, copy the file into it and, with `move`, remove the source.
   */
  function Deliver(fs: FS, path: Path, root: Path, kind: Kind, move: bool): (r: (Delivery, FS))
    ensures r.0.Aborted? ==> r.1.files == fs.files
    ensures forall p :: p in fs.files && p != path ==> p in r.1.files
    ensures !move ==> fs.files.Keys <= r.1.files.Keys
    ensures r.0.Delivered? && !move ==> path in r.1.files
    ensures r.0.Delivered? && move ==> path !in r.1.files
  {
    var made := MakeDirsOn(fs, DirChain(root, kind));
    var fs1 := made.0;
    if made.1.Some? then (Aborted(made.1.value), fs1)
    else
      match Copy2On(fs1, path, DeriveDestinations(root)[kind], Basename(path))
      case Err(e) => (Failed(e), fs1)
      case Ok(fs2) =>
        if !move then (Delivered, fs2)
        else
          match RemoveOn(fs2, path)
          case Err(e) => (Failed(e), fs2)
          case Ok(fs3) => (Delivered, fs3)
  }

  /**
   * `inject_file(path, steam_path, move)` on a filesystem: the outcome and
   * the filesystem afterwards. The program name is guessed first, on the
   * filesystem as it was, and is part of every returned triple.
   */
  function Inject(fs: FS, path: Path, root: Option<Path>, move: bool): (r: (InjectOutcome, FS))
    ensures r.0.Returned? ==> r.0.appname == GuessProgramName(fs, path, root)
  {
    Checked(fs, path, root, move, GuessProgramName(fs, path, root))
  }

  /** What follows the guess: the two checks in order, then the delivery and its report. */
  function Checked(fs: FS, path: Path, root: Option<Path>, move: bool, appname: string): (r: (InjectOutcome, FS))
    ensures r.0.Returned? ==> r.0.appname == appname
  {
    var base := Basename(path);
    match ClassifyFile(path)
    case None => (Returned(false, Unsupported(base), appname), fs)
    case Some(kind) =>
      if !RootValid(fs, root) then (Returned(false, SteamPathInvalid, appname), fs)
      else
        var d := Deliver(fs, path, root.value, kind, move);
        (Report(d.0, base, move, appname), d.1)
  }

  /** The triple (or the escaping error) for how the delivery ended. */
  function Report(d: Delivery, base: string, move: bool, appname: string): (r: InjectOutcome)
    ensures r.Returned? ==> r.appname == appname
  {
    match d
    case Aborted(e) => Raised(e)
    case Failed(e) => Returned(false, ErrorInjecting(base, e), appname)
    case Delivered => Returned(true, if move then Moved(base) else Injected(base), appname)
  }

  /**
   * The checks run in order: an unsupported file is refused before the Steam
   * root is looked at, neither refusal touches the filesystem, and success is
   * reported only past both.
   */
  lemma InjectRefuses(fs: FS, path: Path, root: Option<Path>, move: bool)
    ensures var r := Inject(fs, path, root, move);
      var appname := GuessProgramName(fs, path, root);
      && (ClassifyFile(path).None? ==> r == (Returned(false, Unsupported(Basename(path)), appname), fs))
      && (ClassifyFile(path).Some? && !RootValid(fs, root) ==> r == (Returned(false, SteamPathInvalid, appname), fs))
      && (r.0.Returned? && r.0.ok ==> ClassifyFile(path).Some? && RootValid(fs, root))
  {
    CheckedRefuses(fs, path, root, move, GuessProgramName(fs, path, root));
  }

  lemma CheckedRefuses(fs: FS, path: Path, root: Option<Path>, move: bool, appname: string)
    ensures var r := Checked(fs, path, root, move, appname);
      && (ClassifyFile(path).None? ==> r == (Returned(false, Unsupported(Basename(path)), appname), fs))
      && (ClassifyFile(path).Some? && !RootValid(fs, root) ==> r == (Returned(false, SteamPathInvalid, appname), fs))
  {
  }

  /**
   * A success carries the message for `move`, and the source is then still
   * there exactly when it was copied, not moved.
   */
  lemma InjectSucceeds(fs: FS, path: Path, root: Path, move: bool)
    requires ClassifyFile(path).Some? && root != "" && IsDir(fs, root)
    requires Inject(fs, path, Some(root), move).0.Returned? && Inject(fs, path, Some(root), move).0.ok
    ensures Inject(fs, path, Some(root), move).0.message == (if move then Moved(Basename(path)) else Injected(Basename(path)))
    ensures path in Inject(fs, path, Some(root), move).1.files <==> !move
  {
    InjectDelivers(fs, path, root, move);
    var d := Deliver(fs, path, root, ClassifyFile(path).value, move);
    assert d.0 == Delivered;
  }

  // ---------------------------------------------------------------------------

  lemma ClassifiedNameNonEmpty(path: Path)
    requires ClassifyFile(path).Some?
    ensures Basename(path) != ""
  {
    if Basename(path) == "" {
      assert Lower(Basename(path)) == "";
      NothingNamedEmpty();
    }
  }

  lemma NothingNamedEmpty()
    ensures ClassifyName("") == None
  {
    assert SplitExt("") == ("", "");
  }

  lemma JoinLonger(a: Path, b: string)
    requires b != "" && '/' !in b
    ensures |Join(a, b)| > |a|
  {
    JoinRelative(a, b);
  }

  /** The target lies strictly below every directory of the kind's chain. */
  lemma ChainBelowTarget(root: Path, kind: Kind, path: Path)
    requires Basename(path) != ""
    ensures Target(root, kind, path) !in StepDirs(DirChain(root, kind))
  {
    JoinLonger(DeriveDestinations(root)[kind], Basename(path));
    JoinLonger(Join(root, "config"), "stplug-in");
  }

  /** `os.makedirs` along a chain where no step is blocked by a file creates exactly the missing steps. */
  lemma {:induction false} MakeDirsClear(fs: FS, chain: seq<(Path, string)>)
    requires Linked(chain)
    requires chain != [] ==> chain[0].0 in fs.dirs
    requires forall i :: 0 <= i < |chain| ==> Join(chain[i].0, chain[i].1) !in fs.files
    ensures MakeDirsOn(fs, chain).1.None?
    ensures MakeDirsOn(fs, chain).0.dirs.Keys == fs.dirs.Keys + StepDirs(chain)
    decreases |chain|
  {
    if chain != [] {
      var parent, name := chain[0].0, chain[0].1;
      var d := Join(parent, name);
      assert d !in fs.files;
      var fs' := if d in fs.dirs then fs else AddDir(fs, parent, name);
      assert fs'.files == fs.files && d in fs'.dirs && fs.dirs.Keys + {d} == fs'.dirs.Keys;
      var rest := chain[1..];
      assert MakeDirsOn(fs, chain) == MakeDirsOn(fs', rest);
      ChainTail(chain);
      MakeDirsClear(fs', rest);
    }
  }

  /** The chain after its first step: still linked, and its steps are the remaining ones. */
  lemma ChainTail(chain: seq<(Path, string)>)
    requires Linked(chain) && chain != []
    ensures Linked(chain[1..])
    ensures chain[1..] != [] ==> chain[1..][0].0 == Join(chain[0].0, chain[0].1)
    ensures forall i :: 0 <= i < |chain[1..]| ==> chain[1..][i] == chain[i + 1]
    ensures StepDirs(chain) == {Join(chain[0].0, chain[0].1)} + StepDirs(chain[1..])
  {
    var rest := chain[1..];
    assert forall i :: 0 <= i < |rest| ==> rest[i] == chain[i + 1];
    forall p | p in StepDirs(chain) ensures p in {Join(chain[0].0, chain[0].1)} + StepDirs(rest) {
      var i :| 0 <= i < |chain| && p == Join(chain[i].0, chain[i].1);
      if i > 0 {
        assert p == Join(rest[i - 1].0, rest[i - 1].1);
      }
    }
  }

  /** On a chain whose every step already exists, `os.makedirs` does nothing. */
  lemma {:induction false} MakeDirsNoop(fs: FS, chain: seq<(Path, string)>)
    requires forall i :: 0 <= i < |chain| ==> Join(chain[i].0, chain[i].1) in fs.dirs
    ensures MakeDirsOn(fs, chain) == (fs, None)
    decreases |chain|
  {
    if chain != [] {
      var rest := chain[1..];
      assert forall i :: 0 <= i < |rest| ==> rest[i] == chain[i + 1];
      MakeDirsNoop(fs, rest);
    }
  }

  /** Nothing blocks the destination: no directory of the chain is a file, and the target is not a directory. */
  predicate Unobstructed(fs: FS, root: Path, kind: Kind, path: Path)
  {
    var chain := DirChain(root, kind);
    && (forall i :: 0 <= i < |chain| ==> Join(chain[i].0, chain[i].1) !in fs.files)
    && Target(root, kind, path) !in fs.dirs
  }

  /** What an unobstructed delivery does to the files: the target gets the source's text. */
  function Placed(fs: FS, path: Path, target: Path, move: bool): map<Path, string>
    requires path in fs.files
  {
    if move then fs.files[target := fs.files[path]] - {path} else fs.files[target := fs.files[path]]
  }

  lemma DeliverPlacesFile(fs: FS, path: Path, root: Path, kind: Kind, move: bool)
    requires WellFormed(fs) && IsFile(fs, path) && IsDir(fs, root) && Basename(path) != ""
    requires Unobstructed(fs, root, kind, path) && path != Target(root, kind, path)
    ensures var r := Deliver(fs, path, root, kind, move);
      && r.0 == Delivered
      && r.1.files == Placed(fs, path, Target(root, kind, path), move)
      && r.1.dirs.Keys == fs.dirs.Keys + StepDirs(DirChain(root, kind))
  {
    CopyLands(fs, path, root, kind);
    var fs1 := MakeDirsOn(fs, DirChain(root, kind)).0;
    var dir := DeriveDestinations(root)[kind];
    var fs2 := WriteFile(fs1, dir, Basename(path), fs.files[path]);
    assert fs2.files == fs.files[Target(root, kind, path) := fs.files[path]];
    assert fs2.dirs.Keys == fs1.dirs.Keys;
    if move {
      assert path in fs2.files;
      assert RemoveOn(fs2, path).Ok?;
    }
  }

  /**
   * The normal case: a supported file, an existing Steam root and an
   * unobstructed destination. The call succeeds; the target holds the source's
   * text, replacing any earlier file there; with `move` the source is gone; no
   * other file changes, and the directories made are those of the chain.
   */
  lemma InjectPlacesFile(fs: FS, path: Path, root: Path, move: bool)
    requires WellFormed(fs) && IsFile(fs, path)
    requires ClassifyFile(path).Some? && root != "" && IsDir(fs, root)
    requires Unobstructed(fs, root, ClassifyFile(path).value, path)
    requires path != Target(root, ClassifyFile(path).value, path)
    ensures var r := Inject(fs, path, Some(root), move);
      var kind := ClassifyFile(path).value;
      && r.0 == Returned(true, if move then Moved(Basename(path)) else Injected(Basename(path)),
                         GuessProgramName(fs, path, Some(root)))
      && r.1.files == Placed(fs, path, Target(root, kind, path), move)
      && r.1.dirs.Keys == fs.dirs.Keys + StepDirs(DirChain(root, kind))
  {
    ClassifiedNameNonEmpty(path);
    DeliverPlacesFile(fs, path, root, ClassifyFile(path).value, move);
  }

  lemma DeliverWellFormed(fs: FS, path: Path, root: Path, kind: Kind, move: bool)
    requires WellFormed(fs)
    ensures WellFormed(Deliver(fs, path, root, kind, move).1)
  {
    var made := MakeDirsOn(fs, DirChain(root, kind));
    MakeDirsWellFormed(fs, DirChain(root, kind));
    if made.1.None? {
      var c := Copy2On(made.0, path, DeriveDestinations(root)[kind], Basename(path));
      if c.Ok? {
        Copy2WellFormed(made.0, path, DeriveDestinations(root)[kind], Basename(path));
        if move && RemoveOn(c.value, path).Ok? {
          RemoveWellFormed(c.value, path);
        }
      }
    }
  }

  /** Every call leaves the filesystem well formed, whatever its outcome. */
  lemma InjectWellFormed(fs: FS, path: Path, root: Option<Path>, move: bool)
    requires WellFormed(fs)
    ensures WellFormed(Inject(fs, path, root, move).1)
  {
    var r := Inject(fs, path, root, move);
    if ClassifyFile(path).Some? && RootValid(fs, root) {
      DeliverWellFormed(fs, path, root.value, ClassifyFile(path).value, move);
      assert r.1 == Deliver(fs, path, root.value, ClassifyFile(path).value, move).1;
    } else {
      assert r.1 == fs;
    }
  }

  /** Copying (without `move`) a second time changes nothing more. */
  lemma DeliverIdempotent(fs: FS, path: Path, root: Path, kind: Kind)
    requires WellFormed(fs) && IsFile(fs, path) && IsDir(fs, root) && Basename(path) != ""
    requires Unobstructed(fs, root, kind, path) && path != Target(root, kind, path)
    ensures var fs' := Deliver(fs, path, root, kind, false).1;
      Deliver(fs', path, root, kind, false) == (Delivered, fs')
  {
    var chain := DirChain(root, kind);
    var dir := DeriveDestinations(root)[kind];
    var base := Basename(path);
    var fs' := Deliver(fs, path, root, kind, false).1;
    CopyLands(fs, path, root, kind);
    WriteFileAgain(MakeDirsOn(fs, chain).0, dir, base, fs.files[path]);
    DeliverPlacesFile(fs, path, root, kind, false);
    ChainBelowTarget(root, kind, path);
    forall i | 0 <= i < |chain| ensures Join(chain[i].0, chain[i].1) in fs'.dirs {
      assert Join(chain[i].0, chain[i].1) in StepDirs(chain);
    }
    MakeDirsNoop(fs', chain);
    assert Join(dir, base) !in fs'.dirs;
    assert CopyTarget(fs', path, dir, base) == (dir, base);
    assert Copy2On(fs', path, dir, base) == Ok(fs');
  }

  /** Past an unobstructed `os.makedirs`, the copy writes the target inside the destination. */
  lemma CopyLands(fs: FS, path: Path, root: Path, kind: Kind)
    requires IsFile(fs, path) && IsDir(fs, root) && Basename(path) != ""
    requires Unobstructed(fs, root, kind, path) && path != Target(root, kind, path)
    ensures var made := MakeDirsOn(fs, DirChain(root, kind));
      var dir := DeriveDestinations(root)[kind];
      && made.1.None?
      && made.0.dirs.Keys == fs.dirs.Keys + StepDirs(DirChain(root, kind))
      && dir in made.0.dirs
      && Copy2On(made.0, path, dir, Basename(path)) == Ok(WriteFile(made.0, dir, Basename(path), fs.files[path]))
  {
    var chain := DirChain(root, kind);
    var dir := DeriveDestinations(root)[kind];
    MakeDirsClear(fs, chain);
    ChainBelowTarget(root, kind, path);
    var fs1 := MakeDirsOn(fs, chain).0;
    assert dir in StepDirs(chain);
    assert CopyTarget(fs1, path, dir, Basename(path)) == (dir, Basename(path));
  }

  /** Writing the same file twice is writing it once. */
  lemma WriteFileAgain(fs: FS, dir: Path, name: string, content: string)
    requires dir in fs.dirs
    ensures var fs' := WriteFile(fs, dir, name, content);
      dir in fs'.dirs && name in fs'.dirs[dir] && WriteFile(fs', dir, name, content) == fs'
  {
  }

  lemma InjectIdempotent(fs: FS, path: Path, root: Path)
    requires WellFormed(fs) && IsFile(fs, path)
    requires ClassifyFile(path).Some? && root != "" && IsDir(fs, root)
    requires Unobstructed(fs, root, ClassifyFile(path).value, path)
    requires path != Target(root, ClassifyFile(path).value, path)
    ensures var first := Inject(fs, path, Some(root), false);
      var second := Inject(first.1, path, Some(root), false);
      && first.0.Returned? && first.0.ok
      && second.0.Returned? && second.0.ok
      && second.1 == first.1
  {
    var kind := ClassifyFile(path).value;
    ClassifiedNameNonEmpty(path);
    DeliverIdempotent(fs, path, root, kind);
    DeliverPlacesFile(fs, path, root, kind, false);
    InjectDelivers(fs, path, root, false);
    var fs' := Inject(fs, path, Some(root), false).1;
    assert IsDir(fs', root);
    InjectDelivers(fs', path, root, false);
  }

  /**
   * `os.makedirs` runs outside the handler: when `<root>/config` is a file, a
   * VDF file makes it raise `FileExistsError` out of `inject_file`, and
   * nothing changes.
   */
  lemma InjectRaises(fs: FS, path: Path, root: Path, move: bool)
    requires ClassifyFile(path) == Some(Vdf) && root != "" && IsDir(fs, root)
    requires IsFile(fs, Join(root, "config")) && !IsDir(fs, Join(root, "config"))
    ensures Inject(fs, path, Some(root), move) == (Raised(FileExists), fs)
  {
    InjectDelivers(fs, path, root, move);
    DeliverAborts(fs, path, root, move);
    ReportAborted(FileExists, Basename(path), move, GuessProgramName(fs, path, Some(root)));
  }

  /** An error escaping the delivery escapes `inject_file` unchanged. */
  lemma ReportAborted(e: IOError, base: string, move: bool, appname: string)
    ensures Report(Aborted(e), base, move, appname) == Raised(e)
  {
  }

  lemma DeliverAborts(fs: FS, path: Path, root: Path, move: bool)
    requires IsFile(fs, Join(root, "config")) && !IsDir(fs, Join(root, "config"))
    ensures Deliver(fs, path, root, Vdf, move) == (Aborted(FileExists), fs)
  {
    var chain := DirChain(root, Vdf);
    assert chain == [(root, "config")];
    assert MakeDirsOn(fs, chain) == (fs, Some(FileExists));
  }

  /**
   * The same file in the way of a Lua script's destination makes the creation
   * of `stplug-in` below it fail with `NotADirectoryError`, again raised.
   */
  lemma InjectRaisesBelowFile(fs: FS, path: Path, root: Path, move: bool)
    requires ClassifyFile(path) == Some(Lua) && root != "" && IsDir(fs, root)
    requires IsFile(fs, Join(root, "config")) && !IsDir(fs, Join(root, "config"))
    requires !PathExists(fs, Join(Join(root, "config"), "stplug-in"))
    ensures Inject(fs, path, Some(root), move) == (Raised(NotADirectory), fs)
  {
    InjectDelivers(fs, path, root, move);
    DeliverAbortsBelowFile(fs, path, root, move);
    ReportAborted(NotADirectory, Basename(path), move, GuessProgramName(fs, path, Some(root)));
  }

  lemma DeliverAbortsBelowFile(fs: FS, path: Path, root: Path, move: bool)
    requires IsFile(fs, Join(root, "config")) && !IsDir(fs, Join(root, "config"))
    requires !PathExists(fs, Join(Join(root, "config"), "stplug-in"))
    ensures Deliver(fs, path, root, Lua, move) == (Aborted(NotADirectory), fs)
  {
    var chain := DirChain(root, Lua);
    assert chain == [(root, "config"), (Join(root, "config"), "stplug-in")];
    assert chain[1..] == [(Join(root, "config"), "stplug-in")];
    assert MakeDirsOn(fs, chain) == MakeDirsOn(fs, chain[1..]);
    assert MakeDirsOn(fs, chain[1..]) == (fs, Some(NotADirectory));
  }

  /** Lower-case letters and hyphens only, as the directory names below the Steam root are. */
  predicate PlainChars(n: string)
  {
    forall i :: 0 <= i < |n| ==> 'a' <= n[i] <= 'z' || n[i] == '-'
  }

  lemma PlainCharsFacts(n: string)
    requires PlainChars(n)
    ensures '/' !in n && '.' !in n && Lower(n) == n
    ensures LastIndexOf(n, '.') == -1 && LastIndexOf(n, '/') == -1
  {
    assert Lower(n) == n;
  }

  /** A plain directory name of the chain has no kind of its own. */
  lemma PlainNameUnclassified(x: Path, n: string)
    requires n != "" && PlainChars(n) && !Contains(n, "manifest")
    ensures ClassifyFile(Join(x, n)) == None
  {
    PlainCharsFacts(n);
    ClassifyIgnoresDirectory(x, n);
    BasenameOfName(n);
    assert Lower(Basename(n)) == n;
    assert SplitExt(n) == (n, "");
    var e := Ext(n);
    assert e == "";
    assert e != ".manifest" && e != ".acf" && e != ".lua" && e != ".vdf";
    assert ClassifyName(n) == None;
  }

  /** No directory `os.makedirs` creates for a kind is itself a file of some kind. */
  lemma StepDirsUnclassified(root: Path, kind: Kind, p: Path)
    requires p in StepDirs(DirChain(root, kind))
    ensures ClassifyFile(p) == None
  {
    var chain := DirChain(root, kind);
    var i :| 0 <= i < |chain| && p == Join(chain[i].0, chain[i].1);
    ChainNames(root, kind, i);
    DirNameUnclassified(chain[i].0, chain[i].1);
  }

  lemma ChainNames(root: Path, kind: Kind, i: nat)
    requires i < |DirChain(root, kind)|
    ensures var n := DirChain(root, kind)[i].1;
      n == "depotcache" || n == "config" || n == "stplug-in"
  {
  }

  /** The three directory names `os.makedirs` creates below the Steam root. */
  lemma DirNameUnclassified(x: Path, n: string)
    requires n == "depotcache" || n == "config" || n == "stplug-in"
    ensures ClassifyFile(Join(x, n)) == None
  {
    if n == "depotcache" {
      DepotcacheUnclassified(x);
    } else if n == "config" {
      ConfigUnclassified(x);
    } else {
      StplugUnclassified(x);
    }
  }

  /** A text does not occur where its first character is missing. */
  lemma MissesAt(s: string, t: string, i: int)
    requires t != [] && 0 <= i < |s| && s[i] != t[0]
    ensures !OccursAt(s, t, i)
  {
    if i <= |s| - |t| {
      assert s[i..i + |t|][0] == s[i];
    }
  }

  lemma DepotcacheUnclassified(x: Path)
    ensures ClassifyFile(Join(x, "depotcache")) == None
  {
    var n := "depotcache";
    MissesAt(n, "manifest", 0);
    MissesAt(n, "manifest", 1);
    MissesAt(n, "manifest", 2);
    PlainNameUnclassified(x, n);
  }

  lemma ConfigUnclassified(x: Path)
    ensures ClassifyFile(Join(x, "config")) == None
  {
    var n := "config";
    PlainNameUnclassified(x, n);
  }

  lemma StplugUnclassified(x: Path)
    ensures ClassifyFile(Join(x, "stplug-in")) == None
  {
    var n := "stplug-in";
    MissesAt(n, "manifest", 0);
    MissesAt(n, "manifest", 1);
    PlainNameUnclassified(x, n);
  }

  /**
   * A source that no longer exists: the destination is still created, then
   * the copy fails and is reported as "Error injecting", and no file changes.
   */
  lemma InjectMissingSource(fs: FS, path: Path, root: Path, move: bool)
    requires ClassifyFile(path).Some? && root != "" && IsDir(fs, root)
    requires !PathExists(fs, path)
    requires var chain := DirChain(root, ClassifyFile(path).value);
      forall i :: 0 <= i < |chain| ==> Join(chain[i].0, chain[i].1) !in fs.files
    ensures var r := Inject(fs, path, Some(root), move);
      && r.0 == Returned(false, ErrorInjecting(Basename(path), FileNotFound), GuessProgramName(fs, path, Some(root)))
      && r.1.files == fs.files
      && r.1.dirs.Keys == fs.dirs.Keys + StepDirs(DirChain(root, ClassifyFile(path).value))
  {
    var kind := ClassifyFile(path).value;
    var chain := DirChain(root, kind);
    InjectDelivers(fs, path, root, move);
    MakeDirsClear(fs, chain);
    if path in StepDirs(chain) {
      StepDirsUnclassified(root, kind, path);
    }
    var fs1 := MakeDirsOn(fs, chain).0;
    assert path !in fs1.dirs && path !in fs1.files;
    assert Copy2On(fs1, path, DeriveDestinations(root)[kind], Basename(path)) == Err(FileNotFound);
  }

  /**
   * A file dropped from its own destination: `shutil.copy2` refuses to copy it
   * onto itself, which is reported as "Error injecting"; even with `move` the
   * source stays.
   */
  lemma InjectOntoItself(fs: FS, path: Path, root: Path, move: bool)
    requires WellFormed(fs) && IsFile(fs, path)
    requires ClassifyFile(path).Some? && root != "" && IsDir(fs, root)
    requires var chain := DirChain(root, ClassifyFile(path).value);
      forall i :: 0 <= i < |chain| ==> Join(chain[i].0, chain[i].1) !in fs.files
    requires path == Target(root, ClassifyFile(path).value, path)
    ensures var r := Inject(fs, path, Some(root), move);
      && r.0 == Returned(false, ErrorInjecting(Basename(path), SameFile), GuessProgramName(fs, path, Some(root)))
      && r.1.files == fs.files
  {
    var kind := ClassifyFile(path).value;
    var chain := DirChain(root, kind);
    InjectDelivers(fs, path, root, move);
    MakeDirsClear(fs, chain);
    ClassifiedNameNonEmpty(path);
    ChainBelowTarget(root, kind, path);
    var fs1 := MakeDirsOn(fs, chain).0;
    var dir := DeriveDestinations(root)[kind];
    assert path !in fs1.dirs;
    assert CopyTarget(fs1, path, dir, Basename(path)) == (dir, Basename(path));
    assert Copy2On(fs1, path, dir, Basename(path)) == Err(SameFile);
  }

  /** No file other than the source ever disappears; without `move`, none at all. */
  lemma InjectKeepsFiles(fs: FS, path: Path, root: Option<Path>, move: bool)
    ensures var fs' := Inject(fs, path, root, move).1;
      && (forall p :: p in fs.files && p != path ==> p in fs'.files)
      && (!move ==> fs.files.Keys <= fs'.files.Keys)
  {
    var r := Inject(fs, path, root, move);
    if ClassifyFile(path).Some? && RootValid(fs, root) {
      assert r.1 == Deliver(fs, path, root.value, ClassifyFile(path).value, move).1;
    } else {
      assert r.1 == fs;
    }
  }

  /** Past its checks, `inject_file` is the delivery and its report. */
  lemma InjectDelivers(fs: FS, path: Path, root: Path, move: bool)
    requires ClassifyFile(path).Some? && root != "" && IsDir(fs, root)
    ensures var d := Deliver(fs, path, root, ClassifyFile(path).value, move);
      Inject(fs, path, Some(root), move) == (Report(d.0, Basename(path), move, GuessProgramName(fs, path, Some(root))), d.1)
  {
    CheckedDelivers(fs, path, root, move, GuessProgramName(fs, path, Some(root)));
  }

  lemma CheckedDelivers(fs: FS, path: Path, root: Path, move: bool, appname: string)
    requires ClassifyFile(path).Some? && root != "" && IsDir(fs, root)
    ensures var d := Deliver(fs, path, root, ClassifyFile(path).value, move);
      Checked(fs, path, Some(root), move, appname) == (Report(d.0, Basename(path), move, appname), d.1)
  {
  }

  /** The delivery on the host's mutable filesystem: the same calls in the same order. */
  method DeliverOn(disk: Disk, path: Path, root: Path, kind: Kind, move: bool) returns (d: Delivery)
    requires disk.Valid()
    modifies disk
    ensures disk.Valid()
    ensures (d, disk.State()) == Deliver(old(disk.State()), path, root, kind, move)
  {
    var failure := disk.MakeDirs(DirChain(root, kind));
    if failure.Some? {
      return Aborted(failure.value);
    }
    var copyError := disk.Copy2(path, DeriveDestinations(root)[kind], Basename(path));
    if copyError.Some? {
      return Failed(copyError.value);
    }
    if move {
      var removeError := disk.Remove(path);
      if removeError.Some? {
        return Failed(removeError.value);
      }
    }
    return Delivered;
  }

  /** `inject_file` on the host's mutable filesystem. */
  method InjectFile(disk: Disk, path: Path, root: Option<Path>, move: bool) returns (outcome: InjectOutcome)
    requires disk.Valid()
    modifies disk
    ensures disk.Valid()
    ensures (outcome, disk.State()) == Inject(old(disk.State()), path, root, move)
  {
    var kind := ClassifyFile(path);
    var base := Basename(path);
    var appname := GuessProgramName(disk.State(), path, root);
    assert Inject(disk.State(), path, root, move) == Checked(disk.State(), path, root, move, appname);
    if kind.None? {
      return Returned(false, Unsupported(base), appname);
    }
    if !(root.Some? && root.value != "" && root.value in disk.dirs) {
      return Returned(false, SteamPathInvalid, appname);
    }
    CheckedDelivers(disk.State(), path, root.value, move, appname);
    var d := DeliverOn(disk, path, root.value, kind.value, move);
    return Report(d, base, move, appname);
  }
}
