/** The `posixpath` operations the core uses: join, basename and splitext. */
module Paths {
  import opened Text

  type Path = string

  /** `s.rfind(c)`: the index of the last `c` in `s`, or -1. */
  function LastIndexOf(s: string, c: char): (r: int)
    ensures -1 <= r < |s|
    ensures r >= 0 ==> s[r] == c
    ensures forall j :: r < j < |s| ==> s[j] != c
  {
    if s == [] then -1 else if s[|s| - 1] == c then |s| - 1 else LastIndexOf(s[..|s| - 1], c)
  }

  /** `os.path.join(a, b)`: an absolute `b` replaces `a`; otherwise one separator joins them. */
  function Join(a: Path, b: string): Path
  {
    if StartsWith(b, "/") then b
    else if a == "" || EndsWith(a, "/") then a + b
    else a + "/" + b
  }

  /** `os.path.basename(p)`: the longest suffix of `p` without a separator. */
  function Basename(p: Path): (r: string)
    ensures '/' !in r
    ensures EndsWith(p, r)
    ensures |r| < |p| ==> p[|p| - |r| - 1] == '/'
  {
    p[LastIndexOf(p, '/') + 1..]
  }

  predicate HasNonDot(p: string, lo: int, hi: int)
    requires 0 <= lo <= hi <= |p|
  {
    exists k | lo <= k < hi :: p[k] != '.'
  }

  /**
   * `os.path.splitext(p)` as (root, ext): the extension starts at the last dot of
   * the last path component, provided some character other than a dot precedes
   * that dot within the component; so `.lua` and `..lua` have no extension.
   */
  function SplitExt(p: Path): (r: (string, string))
    ensures r.0 + r.1 == p
    ensures r.1 == "" || (r.1[0] == '.' && '.' !in r.1[1..] && '/' !in r.1)
    ensures p != "" ==> r.0 != ""
  {
    var sep := LastIndexOf(p, '/');
    var dot := LastIndexOf(p, '.');
    if dot > sep && HasNonDot(p, sep + 1, dot) then (p[..dot], p[dot..]) else (p, "")
  }

  function Stem(p: Path): string
  {
    SplitExt(p).0
  }

  function Ext(p: Path): string
  {
    SplitExt(p).1
  }

  /** A dotted suffix such as `.lua`: one leading dot, no other dot, no separator. */
  predicate IsDottedSuffix(e: string)
  {
    |e| >= 1 && e[0] == '.' && '.' !in e[1..] && '/' !in e
  }

  /**
   * On a name without separators, splitext yields the extension `e` exactly when
   * the name ends with `e` and something other than a dot comes before it.
   */
  lemma ExtIff(n: string, e: string)
    requires '/' !in n && IsDottedSuffix(e)
    ensures Ext(n) == e <==> EndsWith(n, e) && HasNonDot(n, 0, |n| - |e|)
  {
    var sep := LastIndexOf(n, '/');
    var dot := LastIndexOf(n, '.');
    assert sep == -1;
    if EndsWith(n, e) {
      var q := |n| - |e|;
      assert n[q] == '.';
      forall j | q < j < |n| ensures n[j] != '.' {
        assert n[j] == e[1..][j - q - 1];
      }
      assert dot == q;
    }
    if Ext(n) == e {
      assert n[dot..] == e;
    }
  }

  /** A name whose only dots lead it (such as `.lua`) has no extension. */
  lemma LeadingDotsNoExt(n: string)
    requires '/' !in n
    requires forall k :: 0 <= k < LastIndexOf(n, '.') ==> n[k] == '.'
    ensures Ext(n) == "" && Stem(n) == n
  {
  }

  lemma LastIndexAfterSep(x: string, y: string)
    requires x != [] && x[|x| - 1] == '/' && '/' !in y
    ensures LastIndexOf(x + y, '/') == |x| - 1
  {
    var s := x + y;
    var r := LastIndexOf(s, '/');
    assert s[|x| - 1] == '/';
  }

  /** Joining a directory with a plain name and taking the basename gives back the name. */
  lemma BasenameOfJoin(d: Path, n: string)
    requires n != "" && '/' !in n
    ensures Basename(Join(d, n)) == n
  {
    if d == "" {
      assert Join(d, n) == n;
    } else if EndsWith(d, "/") {
      LastIndexAfterSep(d, n);
    } else {
      assert Join(d, n) == (d + "/") + n;
      LastIndexAfterSep(d + "/", n);
    }
  }

  /** Folding case commutes with taking the basename, since `/` has no case. */
  lemma LowerBasename(p: Path)
    ensures Lower(Basename(p)) == Basename(Lower(p))
  {
    var lp := Lower(p);
    var r := LastIndexOf(p, '/');
    var r' := LastIndexOf(lp, '/');
    assert r == r';
    assert Lower(p[r + 1..]) == lp[r + 1..];
  }
}
