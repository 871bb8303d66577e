/** Artifact kinds, `classify_file` and the kind-to-directory table `derive_destinations`. */
module Classifier {
  import opened Common
  import opened Text
  import opened Paths

  datatype Kind = Manifest | Lua | Vdf

  /**
   * `classify_file`: decided on the lowercased basename alone. A name containing
   * "manifest" is a manifest whatever its extension; that test comes first.
   */
  function ClassifyFile(path: Path): (r: Option<Kind>)
    ensures Contains(Lower(Basename(path)), "manifest") ==> r == Some(Manifest)
  {
    ClassifyName(Lower(Basename(path)))
  }

  /** The decision itself, on the already lowercased basename. */
  function ClassifyName(name: string): Option<Kind>
  {
    var ext := Ext(name);
    if Contains(name, "manifest") || ext == ".manifest" || ext == ".acf" then Some(Manifest)
    else if ext == ".lua" then Some(Lua)
    else if ext == ".vdf" then Some(Vdf)
    else None
  }

  /** The name ends with the dotted suffix `e` and something other than a dot precedes it. */
  predicate HasExtension(n: string, e: string)
  {
    EndsWith(n, e) && HasNonDot(n, 0, |n| - |e|)
  }

  lemma LowerKeepsSeparators(s: string)
    requires '/' !in s
    ensures '/' !in Lower(s)
  {
  }

  /**
   * Classification restated on the lowercased basename without splitext: the
   * manifest test first, then `.lua`, then `.vdf`, and nothing else is accepted.
   */
  lemma ClassifyByName(path: Path)
    ensures var n := Lower(Basename(path));
      && (ClassifyFile(path) == Some(Manifest) <==>
            Contains(n, "manifest") || HasExtension(n, ".manifest") || HasExtension(n, ".acf"))
      && (ClassifyFile(path) == Some(Lua) <==>
            !Contains(n, "manifest") && !HasExtension(n, ".acf") && HasExtension(n, ".lua"))
      && (ClassifyFile(path) == Some(Vdf) <==>
            !Contains(n, "manifest") && !HasExtension(n, ".acf") && HasExtension(n, ".vdf"))
      && (ClassifyFile(path) == None <==>
            !Contains(n, "manifest") && !HasExtension(n, ".manifest") && !HasExtension(n, ".acf")
            && !HasExtension(n, ".lua") && !HasExtension(n, ".vdf"))
  {
    LowerKeepsSeparators(Basename(path));
    NameByExtension(Lower(Basename(path)));
  }

  lemma NameByExtension(n: string)
    requires '/' !in n
    ensures ClassifyName(n) == Some(Manifest) <==>
            Contains(n, "manifest") || HasExtension(n, ".manifest") || HasExtension(n, ".acf")
    ensures ClassifyName(n) == Some(Lua) <==>
            !Contains(n, "manifest") && !HasExtension(n, ".acf") && HasExtension(n, ".lua")
    ensures ClassifyName(n) == Some(Vdf) <==>
            !Contains(n, "manifest") && !HasExtension(n, ".acf") && HasExtension(n, ".vdf")
    ensures ClassifyName(n) == None <==>
            !Contains(n, "manifest") && !HasExtension(n, ".manifest") && !HasExtension(n, ".acf")
            && !HasExtension(n, ".lua") && !HasExtension(n, ".vdf")
  {
    var e := Ext(n);
    assert IsDottedSuffix(".manifest") && IsDottedSuffix(".acf") && IsDottedSuffix(".lua") && IsDottedSuffix(".vdf");
    ExtIff(n, ".manifest");
    ExtIff(n, ".acf");
    ExtIff(n, ".lua");
    ExtIff(n, ".vdf");
    assert HasExtension(n, ".manifest") == (e == ".manifest");
    assert HasExtension(n, ".acf") == (e == ".acf");
    assert HasExtension(n, ".lua") == (e == ".lua");
    assert HasExtension(n, ".vdf") == (e == ".vdf");
  }

  /** Case does not matter: classifying the lowercased path gives the same kind. */
  lemma ClassifyCaseInsensitive(path: Path)
    ensures ClassifyFile(Lower(path)) == ClassifyFile(path)
  {
    LowerBasename(path);
    LowerIdempotent(Basename(path));
  }

  lemma BasenameOfName(n: string)
    requires '/' !in n
    ensures Basename(n) == n
  {
    assert LastIndexOf(n, '/') == -1;
  }

  /** Only the file name counts: where the file lives does not change its kind. */
  lemma ClassifyIgnoresDirectory(d: Path, n: string)
    requires n != "" && '/' !in n
    ensures ClassifyFile(Join(d, n)) == ClassifyFile(n)
  {
    BasenameOfJoin(d, n);
    BasenameOfName(n);
  }

  /** Sample name: the extension is compared after case folding. */
  lemma ClassifyUpperCaseVdf()
    ensures ClassifyFile("x.VDF") == Some(Vdf)
  {
    BasenameOfName("x.VDF");
    var n := "x.vdf";
    assert Lower("x.VDF") == n;
    assert !Contains(n, "manifest");
    assert LastIndexOf(n, '/') == -1 && LastIndexOf(n, '.') == 1;
    assert HasNonDot(n, 0, 1);
    assert Ext(n) == ".vdf";
  }

  /**
   * A leading dot does not start an extension: a file called `.lua`, `.acf` or
   * `.vdf` has none, and is refused.
   */
  lemma DotNameRefused(x: string)
    requires '.' !in x && '/' !in x && |x| < 7 && Lower(x) == x
    ensures ClassifyFile("." + x) == None
  {
    var n := "." + x;
    LowerDotName(x);
    BasenameOfName(n);
    NoExtAfterLeadingDot(x);
    ShortNameWithoutExt(n);
  }

  lemma LowerDotName(x: string)
    requires Lower(x) == x
    ensures Lower("." + x) == "." + x
  {
    assert ("." + x)[1..] == x;
  }

  lemma ShortNameWithoutExt(n: string)
    requires Ext(n) == "" && |n| < 8
    ensures ClassifyName(n) == None
  {
  }

  lemma NoExtAfterLeadingDot(x: string)
    requires '.' !in x && '/' !in x
    ensures Ext("." + x) == ""
  {
    var n := "." + x;
    assert forall j :: 0 < j < |n| ==> n[j] == x[j - 1];
    assert !HasNonDot(n, 0, 0);
  }

  /** So a dropped file named `.lua` is refused rather than routed as a script. */
  lemma ClassifyDotLua()
    ensures ClassifyFile(".lua") == None
  {
    DotNameRefused("lua");
  }

  lemma KindCases(k: Kind)
    ensures k == Manifest || k == Lua || k == Vdf
  {
  }

  /** `derive_destinations`: the table from kind to directory under the Steam root. */
  function DeriveDestinations(root: Path): (d: map<Kind, Path>)
    ensures d.Keys == {Manifest, Lua, Vdf}
    ensures forall k :: k in d
  {
    var d := map[Manifest := Join(root, "depotcache"),
        Lua := Join(Join(root, "config"), "stplug-in"),
        Vdf := Join(root, "config")];
    assert forall k :: k in d by {
      forall k ensures k in d {
        KindCases(k);
      }
    }
    d
  }

  /** The directory prefix `Join` puts before a relative name. */
  function DirPrefix(a: Path): Path
  {
    if a == "" || EndsWith(a, "/") then a else a + "/"
  }

  lemma JoinRelative(a: Path, b: string)
    requires b != "" && b[0] != '/'
    ensures Join(a, b) == DirPrefix(a) + b
  {
  }

  /** The three kinds are routed to three different directories. */
  lemma DestinationsDistinct(root: Path, k1: Kind, k2: Kind)
    requires k1 != k2
    ensures DeriveDestinations(root)[k1] != DeriveDestinations(root)[k2]
  {
    var p := DirPrefix(root);
    var d := DeriveDestinations(root);
    DestinationShapes(root);
    var m, v, l := p + "depotcache", p + "config", p + "config/stplug-in";
    assert m[|p|] == 'd' && v[|p|] == 'c' && l[|p|] == 'c';
    assert |v| < |l|;
  }

  lemma DestinationShapes(root: Path)
    ensures var p := DirPrefix(root); var d := DeriveDestinations(root);
      d[Manifest] == p + "depotcache" && d[Vdf] == p + "config" && d[Lua] == p + "config/stplug-in"
  {
    var p := DirPrefix(root);
    JoinRelative(root, "depotcache");
    JoinRelative(root, "config");
    JoinRelative(p + "config", "stplug-in");
    assert EndsWith(p + "config", "/") == false by {
      assert (p + "config")[|p + "config"| - 1] == 'g';
    }
    assert DirPrefix(p + "config") == p + "config" + "/";
    assert p + "config" + "/" + "stplug-in" == p + "config/stplug-in";
  }
}
