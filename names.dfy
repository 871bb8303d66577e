/**
 * Resolving a human-readable program name for a dropped file: from its own
 * manifest, from the Steam depot cache by appid, or from the file name.
 */
module NameResolver {
  import opened Common
  import opened Text
  import opened Paths
  import opened Classifier
  import opened Patterns
  import opened FileSystem

  /** `parse_appname_from_manifest(path)`: a file that cannot be opened yields nothing. */
  function ParseAppnameFromManifest(fs: FS, path: Path): (r: Option<string>)
    ensures !IsFile(fs, path) ==> r.None?
    ensures IsFile(fs, path) ==> r == ParseAppname(fs.files[path])
    ensures r.Some? ==> IsNameValue(r.value)
  {
    match Read(fs, path)
    case None => None
    case Some(content) => ParseAppname(content)
  }

  /** The depot cache directory of a Steam root. */
  function DepotOf(root: Path): Path
  {
    Join(root, "depotcache")
  }

  /** A listed entry that `find_appname_by_appid` stops at: a regular file whose text contains the appid. */
  predicate IsHit(fs: FS, fp: Path, appid: string)
  {
    fp in fs.files && Contains(fs.files[fp], appid)
  }

  /** The name reported for the hit `fn`: its manifest name, else its stem. */
  function DepotName(fs: FS, depot: Path, fn: string): string
    requires IsFile(fs, Join(depot, fn))
  {
    match ParseAppnameFromManifest(fs, Join(depot, fn))
    case Some(name) => name
    case None => Stem(fn)
  }

  /** The position of the first hit in `names` from `i` on, in listing order. */
  function FirstHit(fs: FS, depot: Path, names: seq<string>, appid: string, i: nat): (r: Option<nat>)
    requires i <= |names|
    ensures r.Some? ==> i <= r.value < |names| && IsHit(fs, Join(depot, names[r.value]), appid)
    ensures r.Some? ==> forall j :: i <= j < r.value ==> !IsHit(fs, Join(depot, names[j]), appid)
    ensures r.None? ==> forall j :: i <= j < |names| ==> !IsHit(fs, Join(depot, names[j]), appid)
    decreases |names| - i
  {
    if i == |names| then None
    else if IsHit(fs, Join(depot, names[i]), appid) then Some(i)
    else FirstHit(fs, depot, names, appid, i + 1)
  }

  /**
   * `find_appname_by_appid`: the first listed file of the depot cache whose text
   * contains the appid names the app; nothing when the depot cache is not a
   * directory or no file mentions the appid.
   */
  function FindAppnameByAppid(fs: FS, root: Path, appid: string): (r: Option<string>)
    ensures r.None? <==> (DepotOf(root) !in fs.dirs
                          || forall j :: 0 <= j < |fs.dirs[DepotOf(root)]| ==>
                               !IsHit(fs, Join(DepotOf(root), fs.dirs[DepotOf(root)][j]), appid))
    ensures r.Some? ==> exists k :: 0 <= k < |fs.dirs[DepotOf(root)]| && IsFirstHit(fs, root, appid, k, r.value)
  {
    var depot := DepotOf(root);
    if depot !in fs.dirs then None
    else
      var names := fs.dirs[depot];
      match FirstHit(fs, depot, names, appid, 0)
      case None => None
      case Some(k) => assert IsFirstHit(fs, root, appid, k, DepotName(fs, depot, names[k])); Some(DepotName(fs, depot, names[k]))
  }

  /** Entry `k` of the depot listing is the first hit, and `name` is what it reports. */
  predicate IsFirstHit(fs: FS, root: Path, appid: string, k: nat, name: string)
    requires DepotOf(root) in fs.dirs && k < |fs.dirs[DepotOf(root)]|
  {
    var depot := DepotOf(root);
    var names := fs.dirs[depot];
    && IsHit(fs, Join(depot, names[k]), appid)
    && (forall j :: 0 <= j < k ==> !IsHit(fs, Join(depot, names[j]), appid))
    && name == DepotName(fs, depot, names[k])
  }

  /** Python's truthiness of an optional path: present and non-empty. */
  predicate IsSet(p: Option<Path>)
  {
    p.Some? && p.value != ""
  }

  /** The name a manifest-kind file gives for itself, if any. */
  function OwnManifestName(fs: FS, path: Path): (r: Option<string>)
    ensures r.Some? ==> r.value != ""
    ensures !IsFile(fs, path) ==> r.None?
  {
    if ClassifyFile(path) == Some(Manifest) then ParseAppnameFromManifest(fs, path) else None
  }

  /** The name the depot cache gives for the appid read from the file, if any. */
  function DepotNameFor(fs: FS, path: Path, root: Option<Path>): (r: Option<string>)
    ensures !IsFile(fs, path) || !IsSet(root) ==> r.None?
    ensures r.Some? ==>
      && IsFile(fs, path) && IsSet(root) && ParseAppid(fs.files[path]).Some?
      && DepotOf(root.value) in fs.dirs
      && exists k :: 0 <= k < |fs.dirs[DepotOf(root.value)]|
                     && IsFirstHit(fs, root.value, ParseAppid(fs.files[path]).value, k, r.value)
    ensures r.None? && IsFile(fs, path) && IsSet(root) && ParseAppid(fs.files[path]).Some? ==>
      || DepotOf(root.value) !in fs.dirs
      || forall j :: 0 <= j < |fs.dirs[DepotOf(root.value)]| ==>
           !IsHit(fs, Join(DepotOf(root.value), fs.dirs[DepotOf(root.value)][j]), ParseAppid(fs.files[path]).value)
  {
    match Read(fs, path)
    case None => None
    case Some(content) =>
      match ParseAppid(content)
      case None => None
      case Some(appid) => if IsSet(root) then FindAppnameByAppid(fs, root.value, appid) else None
  }

  /**
   * `guess_program_name_for_file`: a manifest's own name first, then the depot
   * cache's name for the file's appid, and otherwise the file's stem; it never
   * fails and, for a path naming a file, never yields the empty string.
   */
  function GuessProgramName(fs: FS, path: Path, root: Option<Path>): (r: string)
    ensures Basename(path) != "" ==> r != ""
  {
    match OwnManifestName(fs, path)
    case Some(name) => name
    case None =>
      match DepotNameFor(fs, path, root)
      case Some(name) => if name != "" then name else Stem(Basename(path))
      case None => Stem(Basename(path))
  }

  /** The order in which the guess consults its sources. */
  lemma GuessPriority(fs: FS, path: Path, root: Option<Path>)
    ensures var r := GuessProgramName(fs, path, root);
      && (OwnManifestName(fs, path).Some? ==> r == OwnManifestName(fs, path).value)
      && (OwnManifestName(fs, path).None? ==> r == OrElse(DepotNameFor(fs, path, root), Stem(Basename(path))))
      && (!IsFile(fs, path) ==> r == Stem(Basename(path)))
      && (OwnManifestName(fs, path).None? && !IsSet(root) ==> r == Stem(Basename(path)))
  {
    if !IsFile(fs, path) {
      var a := OwnManifestName(fs, path);
      var b := DepotNameFor(fs, path, root);
      assert a.None? && b.None?;
    }
  }

  /** Two first hits are the same entry, so they report the same name. */
  lemma FirstHitUnique(fs: FS, root: Path, appid: string, k: nat, name: string, k': nat, name': string)
    requires DepotOf(root) in fs.dirs && k < |fs.dirs[DepotOf(root)]| && k' < |fs.dirs[DepotOf(root)]|
    requires IsFirstHit(fs, root, appid, k, name) && IsFirstHit(fs, root, appid, k', name')
    ensures k == k' && name == name'
  {
  }

  /** The depot cache reports the first file that mentions the appid. */
  lemma FindReportsFirstHit(fs: FS, root: Path, appid: string, k: nat, name: string)
    requires DepotOf(root) in fs.dirs && k < |fs.dirs[DepotOf(root)]|
    requires IsFirstHit(fs, root, appid, k, name)
    ensures FindAppnameByAppid(fs, root, appid) == Some(name)
  {
    var found := FindAppnameByAppid(fs, root, appid);
    assert IsHit(fs, Join(DepotOf(root), fs.dirs[DepotOf(root)][k]), appid);
    var k' :| 0 <= k' < |fs.dirs[DepotOf(root)]| && IsFirstHit(fs, root, appid, k', found.value);
    FirstHitUnique(fs, root, appid, k, name, k', found.value);
  }

  /**
   * When the file carries no name of its own, the guess is exactly the name of
   * the first depot cache file that mentions the file's appid.
   */
  lemma GuessFromDepot(fs: FS, path: Path, root: Path, appid: string, k: nat, name: string)
    requires OwnManifestName(fs, path).None? && IsFile(fs, path) && root != ""
    requires ParseAppid(fs.files[path]) == Some(appid)
    requires DepotOf(root) in fs.dirs && k < |fs.dirs[DepotOf(root)]|
    requires IsFirstHit(fs, root, appid, k, name) && name != ""
    ensures GuessProgramName(fs, path, Some(root)) == name
  {
    var r := DepotNameFor(fs, path, Some(root));
    assert IsHit(fs, Join(DepotOf(root), fs.dirs[DepotOf(root)][k]), appid);
    var k' :| 0 <= k' < |fs.dirs[DepotOf(root)]| && IsFirstHit(fs, root, appid, k', r.value);
    FirstHitUnique(fs, root, appid, k, name, k', r.value);
  }
}
