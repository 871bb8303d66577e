/**
 * `InjectedAppsRemover`: the window that lists what was injected under the
 * Steam root and removes the selected files. Its state is the listbox's
 * labels and `label_to_path`; `refresh` rebuilds both from the filesystem.
 */
module Remover {
  import opened Common
  import opened Text
  import opened Paths
  import opened FileSystem
  import opened NameResolver
  import opened Injector
  import opened Labels
  import opened Catalogue

  const NoSteamPath: string := "Steam path not set"

  /** The folders `refresh` scans, in order, each with the extensions it lists. */
  function Targets(root: Path): seq<(Path, seq<string>)>
  {
    [(Join(Join(root, "config"), "stplug-in"), [".lua"]),
     (Join(root, "config"), [".vdf"]),
     (Join(root, "depotcache"), [".acf", ".manifest"])]
  }

  /** `any(s.endswith(ext) for ext in exts)`. */
  predicate EndsWithAny(s: string, exts: seq<string>)
  {
    exists e :: e in exts && EndsWith(s, e)
  }

  /** An entry of `folder` the remover lists: a regular file whose lowercased name has one of the extensions. */
  predicate Listed(fs: FS, folder: Path, exts: seq<string>, f: string)
  {
    Join(folder, f) in fs.files && EndsWithAny(Lower(f), exts)
  }

  /** `f.lower().endswith((".acf", ".manifest"))`: the names labelled as manifests. */
  predicate ManifestLabelled(f: string)
  {
    EndsWith(Lower(f), ".acf") || EndsWith(Lower(f), ".manifest")
  }

  /**
   * The base label of a listed file: a manifest shows the name its own
   * `"name"` line gives, a script or a VDF file the guessed program name;
   * either falls back to the stem when that name is missing or empty.
   */
  function ItemLabel(fs: FS, root: Path, fp: Path, f: string): (r: string)
    ensures ManifestLabelled(f) && ParseAppnameFromManifest(fs, fp).Some? && ParseAppnameFromManifest(fs, fp).value != "" ==>
      r == "Manifest \U{2014} " + ParseAppnameFromManifest(fs, fp).value
    ensures ManifestLabelled(f) && (ParseAppnameFromManifest(fs, fp).None? || ParseAppnameFromManifest(fs, fp).value == "") ==>
      r == "Manifest \U{2014} " + Stem(f)
    ensures !ManifestLabelled(f) && EndsWith(Lower(f), ".lua") && Basename(fp) != "" ==>
      r == "Lua \U{2014} " + GuessProgramName(fs, fp, Some(root))
    ensures !ManifestLabelled(f) && !EndsWith(Lower(f), ".lua") && EndsWith(Lower(f), ".vdf") && Basename(fp) != "" ==>
      r == "VDF \U{2014} " + GuessProgramName(fs, fp, Some(root))
    ensures !ManifestLabelled(f) && !EndsWith(Lower(f), ".lua") && !EndsWith(Lower(f), ".vdf") ==> r == f
  {
    var lf := Lower(f);
    if ManifestLabelled(f) then
      "Manifest \U{2014} " + OrElse(ParseAppnameFromManifest(fs, fp), Stem(f))
    else
      var appname := OrElse(Some(GuessProgramName(fs, fp, Some(root))), Stem(f));
      if EndsWith(lf, ".lua") then "Lua \U{2014} " + appname
      else if EndsWith(lf, ".vdf") then "VDF \U{2014} " + appname
      else f
  }

  function PathsOf(entries: seq<(string, Path)>): set<Path>
  {
    set i | 0 <= i < |entries| :: entries[i].1
  }

  /** The entry of a listed file: its base label and its path. */
  function Entry(fs: FS, root: Path, folder: Path, f: string): (e: (string, Path))
    ensures e.1 == Join(folder, f)
  {
    (ItemLabel(fs, root, Join(folder, f), f), Join(folder, f))
  }

  lemma AppendPaths(es: seq<(string, Path)>, e: (string, Path), add: bool)
    ensures PathsOf(if add then es + [e] else es) == PathsOf(es) + (if add then {e.1} else {})
  {
    if add {
      var next := es + [e];
      assert forall i :: 0 <= i < |es| ==> next[i] == es[i];
      assert next[|es|] == e;
    }
  }

  /** The entries (base label, path) of the names of one folder, in the given order. */
  function FolderEntries(fs: FS, root: Path, folder: Path, exts: seq<string>, names: seq<string>): (es: seq<(string, Path)>)
    ensures PathsOf(es) <= fs.files.Keys
    ensures forall f :: f in names && Listed(fs, folder, exts, f) ==> Join(folder, f) in PathsOf(es)
  {
    if names == [] then []
    else
      var prev := names[..|names| - 1];
      var f := names[|names| - 1];
      var es := FolderEntries(fs, root, folder, exts, prev);
      var next := if Listed(fs, folder, exts, f) then es + [Entry(fs, root, folder, f)] else es;
      assert forall g :: g in names ==> g in prev || g == f;
      AppendPaths(es, Entry(fs, root, folder, f), Listed(fs, folder, exts, f));
      next
  }

  /** The entries of one target: its files in sorted order, or none if it is not a directory. */
  function TargetEntries(fs: FS, root: Path, target: (Path, seq<string>)): (es: seq<(string, Path)>)
    ensures PathsOf(es) <= fs.files.Keys
    ensures target.0 in fs.dirs ==>
      forall f :: f in fs.dirs[target.0] && Listed(fs, target.0, target.1, f) ==> Join(target.0, f) in PathsOf(es)
  {
    if target.0 in fs.dirs then
      SortedMembers(fs.dirs[target.0]);
      FolderEntries(fs, root, target.0, target.1, Sorted(fs.dirs[target.0]))
    else []
  }

  /** The entries of the targets, one target after another. */
  function ScanTargets(fs: FS, root: Path, targets: seq<(Path, seq<string>)>): (es: seq<(string, Path)>)
    ensures PathsOf(es) <= fs.files.Keys
    ensures forall t, f :: t in targets && t.0 in fs.dirs && f in fs.dirs[t.0] && Listed(fs, t.0, t.1, f) ==>
      Join(t.0, f) in PathsOf(es)
  {
    if targets == [] then []
    else
      var prev := ScanTargets(fs, root, targets[..|targets| - 1]);
      var t := targets[|targets| - 1];
      var more := TargetEntries(fs, root, t);
      assert forall u :: u in targets ==> u in targets[..|targets| - 1] || u == t;
      assert PathsOf(prev + more) == PathsOf(prev) + PathsOf(more) by {
        forall p | p in PathsOf(prev + more) ensures p in PathsOf(prev) + PathsOf(more) {
          var i :| 0 <= i < |prev + more| && (prev + more)[i].1 == p;
          if i >= |prev| {
            assert more[i - |prev|].1 == p;
          }
        }
        forall p | p in PathsOf(prev) + PathsOf(more) ensures p in PathsOf(prev + more) {
          if p in PathsOf(prev) {
            var i :| 0 <= i < |prev| && prev[i].1 == p;
            assert (prev + more)[i].1 == p;
          } else {
            var i :| 0 <= i < |more| && more[i].1 == p;
            assert (prev + more)[|prev| + i].1 == p;
          }
        }
      }
      prev + more
  }

  /** `[f for f in names if os.path.isfile(...) and any(...)]`: the names a folder lists, in the order of `names`. */
  function ListedNames(fs: FS, folder: Path, exts: seq<string>, names: seq<string>): seq<string>
  {
    if names == [] then []
    else
      var prev := ListedNames(fs, folder, exts, names[..|names| - 1]);
      var f := names[|names| - 1];
      if Listed(fs, folder, exts, f) then prev + [f] else prev
  }

  /** The names kept are exactly the listed ones: files with one of the extensions. */
  lemma {:induction false} ListedNamesExactly(fs: FS, folder: Path, exts: seq<string>, names: seq<string>)
    ensures forall f :: f in ListedNames(fs, folder, exts, names) <==> f in names && Listed(fs, folder, exts, f)
    decreases |names|
  {
    if names != [] {
      var prev := names[..|names| - 1];
      ListedNamesExactly(fs, folder, exts, prev);
      assert names == prev + [names[|names| - 1]];
    }
  }

  /** Leaving names out keeps the rest in order. */
  lemma {:induction false} ListedNamesOrdered(fs: FS, folder: Path, exts: seq<string>, names: seq<string>)
    requires Ordered(names)
    ensures Ordered(ListedNames(fs, folder, exts, names))
    decreases |names|
  {
    if names != [] {
      var prev := names[..|names| - 1];
      var f := names[|names| - 1];
      assert Ordered(prev) by {
        forall i, j | 0 <= i < j < |prev| ensures Leq(prev[i], prev[j]) {
          assert prev[i] == names[i] && prev[j] == names[j];
        }
      }
      ListedNamesOrdered(fs, folder, exts, prev);
      ListedNamesExactly(fs, folder, exts, prev);
      var ns := ListedNames(fs, folder, exts, prev);
      if Listed(fs, folder, exts, f) {
        var next := ns + [f];
        forall i, j | 0 <= i < j < |next| ensures Leq(next[i], next[j]) {
          if j == |ns| {
            assert next[i] == ns[i] && ns[i] in ns;
            var a :| 0 <= a < |prev| && prev[a] == ns[i];
            assert names[a] == ns[i] && next[j] == names[|names| - 1];
          } else {
            assert next[i] == ns[i] && next[j] == ns[j];
          }
        }
      }
    }
  }

  /** A folder's entries are those of its listed names, one each and in the same order. */
  lemma {:induction false} FolderEntriesAre(fs: FS, root: Path, folder: Path, exts: seq<string>, names: seq<string>)
    ensures var es := FolderEntries(fs, root, folder, exts, names);
      var ns := ListedNames(fs, folder, exts, names);
      |es| == |ns| && forall i :: 0 <= i < |ns| ==> es[i] == Entry(fs, root, folder, ns[i])
    decreases |names|
  {
    if names != [] {
      var prev := names[..|names| - 1];
      var f := names[|names| - 1];
      FolderEntriesAre(fs, root, folder, exts, prev);
      var es, ns := FolderEntries(fs, root, folder, exts, prev), ListedNames(fs, folder, exts, prev);
      if Listed(fs, folder, exts, f) {
        var e := Entry(fs, root, folder, f);
        assert FolderEntries(fs, root, folder, exts, names) == es + [e];
        assert ListedNames(fs, folder, exts, names) == ns + [f];
        forall i | 0 <= i < |ns| + 1 ensures (es + [e])[i] == Entry(fs, root, folder, (ns + [f])[i]) {
          if i < |ns| {
            assert (es + [e])[i] == es[i] && (ns + [f])[i] == ns[i];
          }
        }
      } else {
        assert FolderEntries(fs, root, folder, exts, names) == es;
        assert ListedNames(fs, folder, exts, names) == ns;
      }
    }
  }

  /** Every entry of a folder is that of one of its names that is listed. */
  lemma FolderEntriesSound(fs: FS, root: Path, folder: Path, exts: seq<string>, names: seq<string>)
    ensures forall e :: e in FolderEntries(fs, root, folder, exts, names) ==>
      exists f :: f in names && Listed(fs, folder, exts, f) && e == Entry(fs, root, folder, f)
  {
    var es := FolderEntries(fs, root, folder, exts, names);
    var ns := ListedNames(fs, folder, exts, names);
    FolderEntriesAre(fs, root, folder, exts, names);
    ListedNamesExactly(fs, folder, exts, names);
    forall e | e in es ensures exists f :: f in names && Listed(fs, folder, exts, f) && e == Entry(fs, root, folder, f) {
      var i :| 0 <= i < |es| && es[i] == e;
      assert ns[i] in ns;
    }
  }

  /**
   * One target's entries: one for each listed file of its folder and for
   * nothing else, in sorted order of the names; none when the folder is not
   * a directory.
   */
  lemma TargetEntriesAre(fs: FS, root: Path, target: (Path, seq<string>))
    ensures target.0 !in fs.dirs ==> TargetEntries(fs, root, target) == []
    ensures target.0 in fs.dirs ==>
      var es := TargetEntries(fs, root, target);
      var ns := ListedNames(fs, target.0, target.1, Sorted(fs.dirs[target.0]));
      && Ordered(ns)
      && (forall f :: f in ns <==> f in fs.dirs[target.0] && Listed(fs, target.0, target.1, f))
      && |es| == |ns|
      && (forall i :: 0 <= i < |ns| ==> es[i] == Entry(fs, root, target.0, ns[i]))
  {
    if target.0 in fs.dirs {
      var names := Sorted(fs.dirs[target.0]);
      SortedCorrect(fs.dirs[target.0]);
      SortedOrdered(names);
      SortedMembers(fs.dirs[target.0]);
      ListedNamesOrdered(fs, target.0, target.1, names);
      ListedNamesExactly(fs, target.0, target.1, names);
      FolderEntriesAre(fs, root, target.0, target.1, names);
    }
  }

  /** `refresh` lists the Lua scripts first, then the VDF files, then the manifests. */
  lemma ScanOrder(fs: FS, root: Path)
    ensures ScanTargets(fs, root, Targets(root))
      == TargetEntries(fs, root, (Join(Join(root, "config"), "stplug-in"), [".lua"]))
       + TargetEntries(fs, root, (Join(root, "config"), [".vdf"]))
       + TargetEntries(fs, root, (Join(root, "depotcache"), [".acf", ".manifest"]))
  {
    ScanThree(fs, root, Targets(root));
  }

  lemma ScanThree(fs: FS, root: Path, ts: seq<(Path, seq<string>)>)
    requires |ts| == 3
    ensures ScanTargets(fs, root, ts) == TargetEntries(fs, root, ts[0]) + TargetEntries(fs, root, ts[1]) + TargetEntries(fs, root, ts[2])
  {
    var a, b, c := TargetEntries(fs, root, ts[0]), TargetEntries(fs, root, ts[1]), TargetEntries(fs, root, ts[2]);
    assert ts[..0] == [];
    ScanStep(fs, root, ts, 0);
    assert ScanTargets(fs, root, ts[..1]) == a;
    ScanStep(fs, root, ts, 1);
    assert ScanTargets(fs, root, ts[..2]) == a + b;
    ScanStep(fs, root, ts, 2);
    assert ts[..3] == ts;
  }

  /** Every entry of the scan is that of a listed file of one of the targets. */
  lemma {:induction false} ScanTargetsSound(fs: FS, root: Path, targets: seq<(Path, seq<string>)>)
    ensures forall e :: e in ScanTargets(fs, root, targets) ==>
      exists t, f :: t in targets && t.0 in fs.dirs && f in fs.dirs[t.0] && Listed(fs, t.0, t.1, f) && e == Entry(fs, root, t.0, f)
    decreases |targets|
  {
    if targets != [] {
      var prev := targets[..|targets| - 1];
      var t := targets[|targets| - 1];
      ScanTargetsSound(fs, root, prev);
      TargetEntriesAre(fs, root, t);
      forall e | e in ScanTargets(fs, root, targets)
        ensures exists u, f :: u in targets && u.0 in fs.dirs && f in fs.dirs[u.0] && Listed(fs, u.0, u.1, f) && e == Entry(fs, root, u.0, f)
      {
        if e in ScanTargets(fs, root, prev) {
          var u, f :| u in prev && u.0 in fs.dirs && f in fs.dirs[u.0] && Listed(fs, u.0, u.1, f) && e == Entry(fs, root, u.0, f);
          assert u in targets;
        } else {
          var es := TargetEntries(fs, root, t);
          assert e in es;
          var ns := ListedNames(fs, t.0, t.1, Sorted(fs.dirs[t.0]));
          var i :| 0 <= i < |es| && es[i] == e;
          assert ns[i] in ns;
          assert t in targets;
        }
      }
    }
  }

  /**
   * What `refresh` shows: the sentinel line alone (and no removable item)
   * when the Steam root is unusable, and otherwise the de-duplicated entries of
   * the three targets.
   */
  function Catalog(fs: FS, root: Option<Path>): (l: Listing)
    ensures !RootValid(fs, root) ==> l == Listing([NoSteamPath], map[])
    ensures RootValid(fs, root) ==> Faithful(l, ScanTargets(fs, root.value, Targets(root.value)))
  {
    if !RootValid(fs, root) then Listing([NoSteamPath], map[])
    else
      var es := ScanTargets(fs, root.value, Targets(root.value));
      DedupFaithful(es);
      Dedup(es)
  }

  /** Labels are never repeated, every removable label is shown, and every removable path is a file. */
  ghost predicate Consistent(fs: FS, l: Listing)
  {
    && Distinct(l.labels)
    && (forall x :: x in l.paths ==> x in l.labels)
    && (forall x :: x in l.paths ==> l.paths[x] in fs.files)
  }

  lemma CatalogConsistent(fs: FS, root: Option<Path>)
    ensures Consistent(fs, Catalog(fs, root))
  {
    if RootValid(fs, root) {
      var es := ScanTargets(fs, root.value, Targets(root.value));
      var l := Dedup(es);
      DedupFaithful(es);
      forall x | x in l.paths ensures l.paths[x] in fs.files {
        var k :| 0 <= k < |l.labels| && l.labels[k] == x;
        assert es[k].1 in PathsOf(es);
      }
    }
  }

  /**
   * Every listed file of a target folder can be selected for removal: some
   * shown label maps to it.
   */
  lemma CatalogComplete(fs: FS, root: Path, t: nat, f: string)
    requires root != "" && root in fs.dirs && t < 3
    requires var target := Targets(root)[t];
      target.0 in fs.dirs && f in fs.dirs[target.0] && Listed(fs, target.0, target.1, f)
    ensures var l := Catalog(fs, Some(root));
      exists x :: x in l.paths && l.paths[x] == Join(Targets(root)[t].0, f)
  {
    var target := Targets(root)[t];
    var es := ScanTargets(fs, root, Targets(root));
    assert target in Targets(root);
    assert Join(target.0, f) in PathsOf(es);
    var k :| 0 <= k < |es| && es[k].1 == Join(target.0, f);
    var l := Dedup(es);
    DedupFaithful(es);
    assert Catalog(fs, Some(root)) == l;
    assert l.labels[k] in l.paths && l.paths[l.labels[k]] == Join(target.0, f);
  }

  // ---------------------------------------------------------------------------
  // remove_selected

  /** The paths `remove_selected` tries to remove, in selection order: those of selected labels that map to a path. */
  function SelectedPaths(l: Listing, sel: seq<nat>): (ps: seq<Path>)
    requires forall k :: 0 <= k < |sel| ==> sel[k] < |l.labels|
    ensures |ps| <= |sel|
    ensures forall p :: p in ps ==> exists x :: x in l.paths && l.paths[x] == p
  {
    if sel == [] then []
    else
      var prev := SelectedPaths(l, sel[..|sel| - 1]);
      var x := l.labels[sel[|sel| - 1]];
      if x in l.paths && l.paths[x] != "" then prev + [l.paths[x]] else prev
  }

  /** Line `i` of the listing is mapped to the non-empty path `p`. */
  predicate Tries(l: Listing, i: nat, p: Path)
  {
    i < |l.labels| && l.labels[i] in l.paths && l.paths[l.labels[i]] != "" && p == l.paths[l.labels[i]]
  }

  /** The paths tried are exactly those of the selected lines that map to a path. */
  lemma {:induction false} SelectedPathsExactly(l: Listing, sel: seq<nat>)
    requires forall k :: 0 <= k < |sel| ==> sel[k] < |l.labels|
    ensures forall p :: p in SelectedPaths(l, sel) <==> exists k :: 0 <= k < |sel| && Tries(l, sel[k], p)
    decreases |sel|
  {
    if sel != [] {
      var prev := sel[..|sel| - 1];
      var last := sel[|sel| - 1];
      SelectedPathsExactly(l, prev);
      forall p ensures p in SelectedPaths(l, sel) <==> exists k :: 0 <= k < |sel| && Tries(l, sel[k], p) {
        if p in SelectedPaths(l, sel) {
          if p in SelectedPaths(l, prev) {
            var k :| 0 <= k < |prev| && Tries(l, prev[k], p);
            assert sel[k] == prev[k];
          } else {
            assert Tries(l, last, p);
          }
        }
        if exists k :: 0 <= k < |sel| && Tries(l, sel[k], p) {
          var k :| 0 <= k < |sel| && Tries(l, sel[k], p);
          if k < |prev| {
            assert prev[k] == sel[k];
          }
        }
      }
    }
  }

  function Elems(ps: seq<Path>): set<Path>
  {
    set p | p in ps
  }

  /**
   * The removal loop: the filesystem afterwards, and the `removed` and
   * `errors` counters. Each path tried counts once, as removed or as an
   * error, and afterwards none of the paths tried is a file.
   */
  function RemoveAll(fs: FS, l: Listing, sel: seq<nat>): (r: (FS, nat, nat))
    requires forall k :: 0 <= k < |sel| ==> sel[k] < |l.labels|
    ensures r.1 + r.2 == |SelectedPaths(l, sel)|
    ensures r.0.files == fs.files - Elems(SelectedPaths(l, sel))
    ensures r.0.dirs.Keys == fs.dirs.Keys
  {
    if sel == [] then (fs, 0, 0)
    else
      var prev := RemoveAll(fs, l, sel[..|sel| - 1]);
      var ps := SelectedPaths(l, sel[..|sel| - 1]);
      var x := l.labels[sel[|sel| - 1]];
      if !(x in l.paths && l.paths[x] != "") then prev
      else
        var p := l.paths[x];
        assert Elems(ps + [p]) == Elems(ps) + {p};
        match RemoveOn(prev.0, p)
        case Ok(fs2) => (fs2, prev.1 + 1, prev.2)
        case Err(_) => (prev.0, prev.1, prev.2 + 1)
  }

  /**
   * Which attempts count as removed: exactly the distinct paths tried that
   * were files to begin with. A path tried a second time, or one that was
   * never a file, counts as an error.
   */
  lemma {:induction false} RemoveAllCounts(fs: FS, l: Listing, sel: seq<nat>)
    requires forall k :: 0 <= k < |sel| ==> sel[k] < |l.labels|
    ensures RemoveAll(fs, l, sel).1 == |Elems(SelectedPaths(l, sel)) * fs.files.Keys|
    decreases |sel|
  {
    if sel == [] {
      assert Elems(SelectedPaths(l, sel)) == {};
    } else {
      var before := sel[..|sel| - 1];
      RemoveAllCounts(fs, l, before);
      var x := l.labels[sel[|sel| - 1]];
      var tried := Elems(SelectedPaths(l, before));
      if x in l.paths && l.paths[x] != "" {
        RemoveAllStep(fs, l, sel);
        TriedStep(tried, fs.files.Keys, l.paths[x]);
      } else {
        assert SelectedPaths(l, sel) == SelectedPaths(l, before);
        assert RemoveAll(fs, l, sel) == RemoveAll(fs, l, before);
      }
    }
  }

  /** The last selection names a path: it is tried, and counts as removed when it is still a file. */
  lemma RemoveAllStep(fs: FS, l: Listing, sel: seq<nat>)
    requires forall k :: 0 <= k < |sel| ==> sel[k] < |l.labels|
    requires sel != [] && l.labels[sel[|sel| - 1]] in l.paths && l.paths[l.labels[sel[|sel| - 1]]] != ""
    ensures var before := sel[..|sel| - 1];
      var p := l.paths[l.labels[sel[|sel| - 1]]];
      var tried := Elems(SelectedPaths(l, before));
      && Elems(SelectedPaths(l, sel)) == tried + {p}
      && RemoveAll(fs, l, sel).1 == RemoveAll(fs, l, before).1 + (if p in fs.files && p !in tried then 1 else 0)
  {
    var before := sel[..|sel| - 1];
    var p := l.paths[l.labels[sel[|sel| - 1]]];
    var ps := SelectedPaths(l, before);
    var prev := RemoveAll(fs, l, before);
    assert SelectedPaths(l, sel) == ps + [p];
    assert Elems(ps + [p]) == Elems(ps) + {p};
    assert p in prev.0.files <==> p in fs.files && p !in Elems(ps);
  }

  /** One more path tried adds one to the removed count exactly when it is a file not tried before. */
  lemma TriedStep(tried: set<Path>, files: set<Path>, p: Path)
    ensures |(tried + {p}) * files| == |tried * files| + (if p in files && p !in tried then 1 else 0)
  {
    if p in files && p !in tried {
      assert (tried + {p}) * files == (tried * files) + {p};
    } else {
      assert (tried + {p}) * files == tried * files;
    }
  }

  lemma {:induction false} RemoveAllWellFormed(fs: FS, l: Listing, sel: seq<nat>)
    requires WellFormed(fs)
    requires forall k :: 0 <= k < |sel| ==> sel[k] < |l.labels|
    ensures WellFormed(RemoveAll(fs, l, sel).0)
    decreases |sel|
  {
    if sel != [] {
      var prev := RemoveAll(fs, l, sel[..|sel| - 1]);
      RemoveAllWellFormed(fs, l, sel[..|sel| - 1]);
      var x := l.labels[sel[|sel| - 1]];
      if x in l.paths && l.paths[x] != "" && RemoveOn(prev.0, l.paths[x]).Ok? {
        RemoveWellFormed(prev.0, l.paths[x]);
      }
    }
  }

  /** Selecting distinct existing files removes them all without an error. */
  lemma {:induction false} RemoveAllClean(fs: FS, l: Listing, sel: seq<nat>)
    requires forall k :: 0 <= k < |sel| ==> sel[k] < |l.labels|
    requires Distinct(SelectedPaths(l, sel))
    requires forall p :: p in SelectedPaths(l, sel) ==> p in fs.files
    ensures RemoveAll(fs, l, sel).1 == |SelectedPaths(l, sel)| && RemoveAll(fs, l, sel).2 == 0
    decreases |sel|
  {
    if sel != [] {
      var before := sel[..|sel| - 1];
      var ps := SelectedPaths(l, before);
      var x := l.labels[sel[|sel| - 1]];
      var ps' := SelectedPaths(l, sel);
      assert forall i :: 0 <= i < |ps| ==> ps'[i] == ps[i];
      RemoveAllClean(fs, l, before);
      if x in l.paths && l.paths[x] != "" {
        var p := l.paths[x];
        assert ps' == ps + [p];
        forall i | 0 <= i < |ps|
          ensures ps[i] != p
        {
          assert ps'[i] == ps[i] && ps'[|ps|] == p;
        }
        assert p in RemoveAll(fs, l, before).0.files;
      }
    }
  }

  /** With the sentinel shown, removing changes nothing and reports zero of each. */
  lemma {:induction false} RemoveNothingListed(fs: FS, sel: seq<nat>)
    requires forall k :: 0 <= k < |sel| ==> sel[k] < 1
    ensures RemoveAll(fs, Listing([NoSteamPath], map[]), sel) == (fs, 0, 0)
    decreases |sel|
  {
    if sel != [] {
      RemoveNothingListed(fs, sel[..|sel| - 1]);
    }
  }

  /** After the removal and the refresh, no path that was tried is offered again. */
  lemma RemovedNotListed(fs: FS, l: Listing, sel: seq<nat>, root: Option<Path>)
    requires forall k :: 0 <= k < |sel| ==> sel[k] < |l.labels|
    ensures var after := Catalog(RemoveAll(fs, l, sel).0, root);
      forall x :: x in after.paths ==> after.paths[x] !in SelectedPaths(l, sel)
  {
    CatalogConsistent(RemoveAll(fs, l, sel).0, root);
  }

  lemma ScanStep(fs: FS, root: Path, targets: seq<(Path, seq<string>)>, t: nat)
    requires t < |targets|
    ensures ScanTargets(fs, root, targets[..t + 1]) == ScanTargets(fs, root, targets[..t]) + TargetEntries(fs, root, targets[t])
  {
    assert targets[..t + 1][..t] == targets[..t];
  }

  lemma TargetFolder(fs: FS, root: Path, target: (Path, seq<string>))
    ensures TargetEntries(fs, root, target)
      == if target.0 in fs.dirs then FolderEntries(fs, root, target.0, target.1, Sorted(fs.dirs[target.0])) else []
  {
  }

  /** One more name of a folder adds its entry exactly when the file is listed. */
  lemma FolderStep(fs: FS, root: Path, folder: Path, exts: seq<string>, names: seq<string>, i: nat)
    requires i < |names|
    ensures FolderEntries(fs, root, folder, exts, names[..i + 1])
      == if Listed(fs, folder, exts, names[i])
         then FolderEntries(fs, root, folder, exts, names[..i]) + [Entry(fs, root, folder, names[i])]
         else FolderEntries(fs, root, folder, exts, names[..i])
  {
    assert names[..i + 1][..i] == names[..i];
    assert names[..i + 1][i] == names[i];
  }

  // ---------------------------------------------------------------------------

  /** The remover window's state: the listbox's lines and the label-to-path map. */
  class InjectedAppsRemover {
    const steamPath: Option<Path>
    var listbox: seq<string>
    var labelToPath: map<string, Path>

    function Shown(): Listing
      reads this
    {
      Listing(listbox, labelToPath)
    }

    /** The window lists the catalogue as soon as it opens. */
    constructor (disk: Disk, steamPath: Option<Path>)
      ensures this.steamPath == steamPath
      ensures Shown() == Catalog(disk.State(), steamPath)
      ensures Consistent(disk.State(), Shown())
    {
      this.steamPath := steamPath;
      listbox := [];
      labelToPath := map[];
      new;
      Refresh(disk);
    }

    /** `refresh`: clear both, then list the sentinel or the entries of the three targets. */
    method Refresh(disk: Disk)
      modifies this
      ensures Shown() == Catalog(disk.State(), steamPath)
      ensures Consistent(disk.State(), Shown())
    {
      ghost var fs := disk.State();
      ghost var empty := Listing([], map[]);
      listbox := [];
      labelToPath := map[];
      if !RootValid(disk.State(), steamPath) {
        listbox := listbox + [NoSteamPath];
        CatalogConsistent(fs, steamPath);
        return;
      }
      var root := steamPath.value;
      var targets := Targets(root);
      for t := 0 to |targets|
        invariant Shown() == PlaceAll(empty, ScanTargets(fs, root, targets[..t]))
      {
        ScanStep(fs, root, targets, t);
        PlaceAllAppend(empty, ScanTargets(fs, root, targets[..t]), TargetEntries(fs, root, targets[t]));
        ListTarget(disk, root, targets[t]);
      }
      assert targets[..|targets|] == targets;
      DedupPlacesAll(ScanTargets(fs, root, targets));
      CatalogConsistent(fs, steamPath);
    }

    /** One (folder, extensions) pair: the folder's sorted entries that are listed, placed in order. */
    method ListTarget(disk: Disk, root: Path, target: (Path, seq<string>))
      modifies this
      ensures Shown() == PlaceAll(old(Shown()), TargetEntries(disk.State(), root, target))
    {
      ghost var fs := disk.State();
      ghost var start := Shown();
      var folder, exts := target.0, target.1;
      TargetFolder(fs, root, target);
      if folder !in disk.dirs {
        return;
      }
      var names := Sorted(disk.dirs[folder]);
      assert names == Sorted(fs.dirs[folder]);
      assert names[..0] == [];
      for i := 0 to |names|
        invariant disk.State() == fs
        invariant Shown() == PlaceAll(start, FolderEntries(fs, root, folder, exts, names[..i]))
      {
        ghost var before := FolderEntries(fs, root, folder, exts, names[..i]);
        ghost var e := Entry(fs, root, folder, names[i]);
        FolderStep(fs, root, folder, exts, names, i);
        PlaceAllSnoc(start, before, e);
        ListName(disk, root, folder, exts, names[i]);
      }
      assert names[..|names|] == names;
      assert TargetEntries(disk.State(), root, target) == FolderEntries(fs, root, folder, exts, names);
    }

    /** One name of a folder: shown only when it is a file with one of the extensions. */
    method ListName(disk: Disk, root: Path, folder: Path, exts: seq<string>, f: string)
      modifies this
      ensures var e := Entry(disk.State(), root, folder, f);
        Shown() == if Listed(disk.State(), folder, exts, f) then Place(old(Shown()), e.0, e.1) else old(Shown())
    {
      var e := Entry(disk.State(), root, folder, f);
      if Listed(disk.State(), folder, exts, f) {
        AddEntry(e.0, e.1);
      }
    }

    /** One listed file: the first free numbering of its label is shown and mapped to its path. */
    method AddEntry(base: string, fp: Path)
      modifies this
      ensures Shown() == Place(old(Shown()), base, fp)
    {
      var n := 1;
      var text := base;
      while text in labelToPath
        invariant listbox == old(listbox) && labelToPath == old(labelToPath)
        invariant n >= 1 && text == Label(base, n)
        invariant forall j :: 1 <= j < n ==> Label(base, j) in labelToPath
        decreases labelToPath.Keys - Taken(base, n)
      {
        TakenGrows(base, labelToPath.Keys, n);
        n := n + 1;
        text := base + " (" + DecimalString(n) + ")";
      }
      FreeIndexLeast(base, labelToPath.Keys, n);
      labelToPath := labelToPath[text := fp];
      listbox := listbox + [text];
    }

    /**
     * `remove_selected`: nothing happens when nothing is selected; otherwise
     * each selected line that maps to a path is removed, the counters are
     * reported, and the list is rebuilt from the filesystem afterwards.
     */
    method RemoveSelected(disk: Disk, selections: seq<nat>) returns (report: Option<(nat, nat)>)
      requires disk.Valid()
      requires forall k :: 0 <= k < |selections| ==> selections[k] < |listbox|
      modifies this, disk
      ensures disk.Valid()
      ensures selections == [] ==> report.None? && disk.State() == old(disk.State()) && Shown() == old(Shown())
      ensures selections != [] ==>
        var r := RemoveAll(old(disk.State()), old(Shown()), selections);
        && report == Some((r.1, r.2))
        && disk.State() == r.0
        && Shown() == Catalog(r.0, steamPath)
    {
      if selections == [] {
        return None;
      }
      var removed, errors := 0, 0;
      for k := 0 to |selections|
        invariant disk.Valid()
        invariant Shown() == old(Shown())
        invariant (disk.State(), removed, errors) == RemoveAll(old(disk.State()), old(Shown()), selections[..k])
      {
        assert selections[..k + 1][..k] == selections[..k];
        var text := listbox[selections[k]];
        if text in labelToPath && labelToPath[text] != "" {
          var err := disk.Remove(labelToPath[text]);
          if err.None? {
            removed := removed + 1;
          } else {
            errors := errors + 1;
          }
        }
      }
      assert selections[..|selections|] == selections;
      Refresh(disk);
      return Some((removed, errors));
    }
  }
}
