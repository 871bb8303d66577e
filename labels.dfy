/**
 * The display labels of the remover's list: `f"{base_label} ({n})"` for the
 * n-th attempt, the bare base label for the first, and the de-duplication that
 * gives every entry the first free one.
 */
module Labels {
  import opened Text

  function Label(base: string, n: nat): (r: string)
    requires n >= 1
    ensures n == 1 ==> r == base
    ensures n >= 2 ==> |r| > |base| + 3
  {
    if n == 1 then base else base + " (" + DecimalString(n) + ")"
  }

  /** The attempts before the n-th. */
  function Taken(base: string, n: nat): set<string>
    requires n >= 1
  {
    set j | 1 <= j < n :: Label(base, j)
  }

  /** The suffix of a numbered label recovers its number. */
  lemma LabelSuffix(base: string, n: nat)
    requires n >= 2
    ensures var r := Label(base, n);
      r[..|base|] == base && r[|base|..|base| + 2] == " (" && r[|r| - 1] == ')'
      && r[|base| + 2..|r| - 1] == DecimalString(n)
  {
  }

  /** Different attempts give different labels. */
  lemma LabelInjective(base: string, i: nat, j: nat)
    requires i >= 1 && j >= 1 && Label(base, i) == Label(base, j)
    ensures i == j
  {
    if i >= 2 && j >= 2 {
      LabelSuffix(base, i);
      LabelSuffix(base, j);
      DecimalInjective(i, j);
    }
  }

  /**
   * Numbered labels of two bases coincide only when base and number do: the
   * character before "(" is a space, never a digit or a parenthesis.
   */
  lemma NumberedLabelsDisjoint(b: string, m: nat, c: string, n: nat)
    requires m >= 2 && n >= 2 && Label(b, m) == Label(c, n)
    ensures b == c && m == n
  {
    var r := Label(b, m);
    var dm, dn := DecimalString(m), DecimalString(n);
    LabelSuffix(b, m);
    LabelSuffix(c, n);
    if |dm| == |dn| {
      assert b == r[..|b|] == c;
      DecimalInjective(m, n);
    } else if |dm| < |dn| {
      ShorterNumberDiffers(b, m, c, n);
    } else {
      ShorterNumberDiffers(c, n, b, m);
    }
  }

  /** With a shorter number, the space before "(" sits where the other label has a digit or "(". */
  lemma ShorterNumberDiffers(b: string, m: nat, c: string, n: nat)
    requires m >= 2 && n >= 2 && |DecimalString(m)| < |DecimalString(n)|
    ensures Label(b, m) != Label(c, n)
  {
    var r1, r2 := Label(b, m), Label(c, n);
    var dm, dn := DecimalString(m), DecimalString(n);
    LabelSuffix(b, m);
    LabelSuffix(c, n);
    if |r1| == |r2| {
      var k := |r1| - |dm| - 3;
      assert r1[k] == ' ';
      if k == |c| + 1 {
        assert r2[k] == '(';
      } else {
        assert r2[k] == dn[k - |c| - 2];
      }
    }
  }

  lemma TakenGrows(base: string, keys: set<string>, n: nat)
    requires n >= 1 && Label(base, n) in keys
    ensures keys - Taken(base, n + 1) < keys - Taken(base, n)
  {
    var l := Label(base, n);
    assert l !in Taken(base, n) by {
      if l in Taken(base, n) {
        var j :| 1 <= j < n && Label(base, j) == l;
        LabelInjective(base, j, n);
      }
    }
    assert Taken(base, n + 1) == Taken(base, n) + {l};
    assert l in keys - Taken(base, n);
  }

  /**
   * The number the `while label in self.label_to_path` loop settles on when it
   * starts at n: the first attempt whose label is not yet taken.
   */
  function FreeIndex(base: string, keys: set<string>, n: nat): (m: nat)
    requires n >= 1
    ensures m >= n && Label(base, m) !in keys
    ensures forall j :: n <= j < m ==> Label(base, j) in keys
    decreases keys - Taken(base, n)
  {
    if Label(base, n) !in keys then n
    else
      TakenGrows(base, keys, n);
      FreeIndex(base, keys, n + 1)
  }

  /** The first free attempt is unique. */
  lemma FreeIndexLeast(base: string, keys: set<string>, n: nat)
    requires n >= 1 && Label(base, n) !in keys
    requires forall j :: 1 <= j < n ==> Label(base, j) in keys
    ensures FreeIndex(base, keys, 1) == n
  {
  }
}

/**
 * The de-duplication of `InjectedAppsRemover.refresh`: entries (base label,
 * path) are placed one after another under the first free label.
 */
module Catalogue {
  import opened Text
  import opened Labels

  /** The listbox's labels in display order, and `label_to_path`. */
  datatype Listing = Listing(labels: seq<string>, paths: map<string, string>)

  predicate Distinct(s: seq<string>)
  {
    forall i, j :: 0 <= i < j < |s| ==> s[i] != s[j]
  }

  ghost predicate IsLabelOf(x: string, base: string)
  {
    exists m :: m >= 1 && x == Label(base, m)
  }

  /** One entry: the first free label gets the path and goes to the end of the list. */
  function Place(l: Listing, base: string, fp: string): Listing
  {
    var shown := Label(base, FreeIndex(base, l.paths.Keys, 1));
    Listing(l.labels + [shown], l.paths[shown := fp])
  }

  /** All entries in order, each placed under the first free numbering of its base. */
  function Dedup(entries: seq<(string, string)>): (l: Listing)
    ensures |l.labels| == |entries|
    decreases |entries|
  {
    if entries == [] then Listing([], map[])
    else
      var prev := entries[..|entries| - 1];
      var e := entries[|entries| - 1];
      Place(Dedup(prev), e.0, e.1)
  }

  /**
   * A listing shows `entries` faithfully: every entry has its own label, a
   * numbering of its base; the labels are exactly the keys of the map, and
   * each maps to its entry's path, so no entry is lost to a clash.
   */
  ghost predicate Faithful(l: Listing, entries: seq<(string, string)>)
  {
    && |l.labels| == |entries|
    && Distinct(l.labels)
    && (forall x :: x in l.paths <==> x in l.labels)
    && (forall k :: 0 <= k < |entries| ==> l.paths[l.labels[k]] == entries[k].1)
    && (forall k :: 0 <= k < |entries| ==> IsLabelOf(l.labels[k], entries[k].0))
  }

  /** Placing one more entry onto a faithful listing keeps it faithful. */
  lemma PlaceFaithful(l: Listing, entries: seq<(string, string)>, e: (string, string))
    requires Faithful(l, entries)
    ensures Faithful(Place(l, e.0, e.1), entries + [e])
  {
    var m := FreeIndex(e.0, l.paths.Keys, 1);
    var shown := Label(e.0, m);
    var l' := Place(l, e.0, e.1);
    var next := entries + [e];
    assert l'.labels == l.labels + [shown] && l'.paths == l.paths[shown := e.1];
    assert shown !in l.labels;
    assert IsLabelOf(shown, e.0);
    assert forall x :: x in l'.labels <==> x in l.labels || x == shown;
    forall k | 0 <= k < |entries|
      ensures l'.paths[l'.labels[k]] == next[k].1 && IsLabelOf(l'.labels[k], next[k].0)
    {
      assert l'.labels[k] == l.labels[k] != shown;
      assert next[k] == entries[k];
    }
    assert l'.labels[|entries|] == shown && next[|entries|] == e;
  }

  lemma {:induction false} DedupFaithful(entries: seq<(string, string)>)
    ensures Faithful(Dedup(entries), entries)
    decreases |entries|
  {
    if entries != [] {
      var prev := entries[..|entries| - 1];
      var e := entries[|entries| - 1];
      assert entries == prev + [e];
      DedupFaithful(prev);
      PlaceFaithful(Dedup(prev), prev, e);
    }
  }

  /** Earlier entries keep their labels when later ones are placed. */
  lemma {:induction false} DedupPrefix(entries: seq<(string, string)>, n: nat)
    requires n <= |entries|
    ensures Dedup(entries[..n]).labels == Dedup(entries).labels[..n]
    decreases |entries|
  {
    if n == |entries| {
      assert entries[..n] == entries;
    } else {
      var prev := entries[..|entries| - 1];
      var e := entries[|entries| - 1];
      var l := Dedup(prev);
      assert Dedup(entries) == Place(l, e.0, e.1);
      assert Dedup(entries).labels[..n] == l.labels[..n];
      assert prev[..n] == entries[..n];
      DedupPrefix(prev, n);
    }
  }

  function Bases(entries: seq<(string, string)>): set<string>
  {
    set i | 0 <= i < |entries| :: entries[i].0
  }

  /** How many entries have base `b`. */
  function Count(entries: seq<(string, string)>, b: string): nat
  {
    if entries == [] then 0
    else Count(entries[..|entries| - 1], b) + (if entries[|entries| - 1].0 == b then 1 else 0)
  }

  /** No base looks like a numbered label of a base. */
  ghost predicate NoClash(bases: set<string>)
  {
    forall b, c, m :: b in bases && c in bases && m >= 2 ==> b != Label(c, m)
  }

  /** Exactly the first `Count` numberings of each base are among `keys`. */
  ghost predicate Numbered(keys: set<string>, entries: seq<(string, string)>)
  {
    forall b, m :: b in Bases(entries) && m >= 1 ==> (Label(b, m) in keys <==> m <= Count(entries, b))
  }

  lemma SameLabel(b: string, m: nat, c: string, n: nat, bases: set<string>)
    requires m >= 1 && n >= 1 && b in bases && c in bases && NoClash(bases)
    requires Label(b, m) == Label(c, n)
    ensures b == c && m == n
  {
    if m >= 2 && n >= 2 {
      NumberedLabelsDisjoint(b, m, c, n);
    }
  }

  lemma {:induction false} CountAbsent(entries: seq<(string, string)>, b: string)
    requires b !in Bases(entries)
    ensures Count(entries, b) == 0
    decreases |entries|
  {
    if entries != [] {
      var prev := entries[..|entries| - 1];
      assert Bases(prev) <= Bases(entries) by {
        forall x | x in Bases(prev) ensures x in Bases(entries) {
          var i :| 0 <= i < |prev| && prev[i].0 == x;
          assert entries[i].0 == x;
        }
      }
      CountAbsent(prev, b);
    }
  }

  /** Under NoClash, the next entry with base `c` gets number Count + 1. */
  lemma FreeSlot(prev: seq<(string, string)>, c: string)
    requires NoClash(Bases(prev) + {c}) && Numbered(Dedup(prev).paths.Keys, prev)
    ensures forall m :: m >= 1 ==> (Label(c, m) in Dedup(prev).paths <==> m <= Count(prev, c))
    ensures FreeIndex(c, Dedup(prev).paths.Keys, 1) == Count(prev, c) + 1
  {
    var l := Dedup(prev);
    DedupFaithful(prev);
    var q := Count(prev, c);
    forall m | m >= 1 ensures Label(c, m) in l.paths <==> m <= q {
      if c !in Bases(prev) {
        CountAbsent(prev, c);
        if Label(c, m) in l.paths {
          var k :| 0 <= k < |l.labels| && l.labels[k] == Label(c, m);
          assert IsLabelOf(l.labels[k], prev[k].0);
          var m' :| m' >= 1 && l.labels[k] == Label(prev[k].0, m');
          SameLabel(c, m, prev[k].0, m', Bases(prev) + {c});
        }
      }
    }
    FreeIndexLeast(c, l.paths.Keys, q + 1);
  }

  lemma BasesSnoc(entries: seq<(string, string)>)
    requires entries != []
    ensures Bases(entries) == Bases(entries[..|entries| - 1]) + {entries[|entries| - 1].0}
  {
    var prev := entries[..|entries| - 1];
    forall x | x in Bases(entries) ensures x in Bases(prev) + {entries[|entries| - 1].0} {
      var i :| 0 <= i < |entries| && entries[i].0 == x;
      if i < |prev| {
        assert prev[i].0 == x;
      }
    }
    forall x | x in Bases(prev) ensures x in Bases(entries) {
      var i :| 0 <= i < |prev| && prev[i].0 == x;
      assert entries[i].0 == x;
    }
  }

  /** Placing one more entry keeps exactly the first `Count` numberings of each base taken. */
  lemma CountsStep(keys: set<string>, prev: seq<(string, string)>, c: string, fp: string)
    requires NoClash(Bases(prev) + {c}) && Numbered(keys, prev)
    requires forall m :: m >= 1 ==> (Label(c, m) in keys <==> m <= Count(prev, c))
    ensures Numbered(keys + {Label(c, Count(prev, c) + 1)}, prev + [(c, fp)])
  {
    var entries := prev + [(c, fp)];
    assert entries[..|entries| - 1] == prev;
    BasesSnoc(entries);
    var q := Count(prev, c);
    forall b, m | b in Bases(entries) && m >= 1
      ensures Label(b, m) in keys + {Label(c, q + 1)} <==> m <= Count(entries, b)
    {
      CountSnoc(prev, c, fp, b);
      KeysStep(keys, Bases(entries), b, c, m, q, Count(prev, b));
    }
  }

  /** Entries placed one after another onto a listing that already holds some. */
  function PlaceAll(l: Listing, entries: seq<(string, string)>): Listing
    decreases |entries|
  {
    if entries == [] then l
    else
      var e := entries[|entries| - 1];
      Place(PlaceAll(l, entries[..|entries| - 1]), e.0, e.1)
  }

  lemma PlaceAllSnoc(l: Listing, entries: seq<(string, string)>, e: (string, string))
    ensures PlaceAll(l, entries + [e]) == Place(PlaceAll(l, entries), e.0, e.1)
  {
    var next := entries + [e];
    assert next[..|next| - 1] == entries;
  }

  /** Placing two runs of entries is placing their concatenation. */
  lemma {:induction false} PlaceAllAppend(l: Listing, a: seq<(string, string)>, b: seq<(string, string)>)
    ensures PlaceAll(l, a + b) == PlaceAll(PlaceAll(l, a), b)
    decreases |b|
  {
    if b == [] {
      assert a + b == a;
    } else {
      var rest := b[..|b| - 1];
      var e := b[|b| - 1];
      assert b == rest + [e];
      assert a + b == (a + rest) + [e];
      PlaceAllAppend(l, a, rest);
      PlaceAllSnoc(l, a + rest, e);
      PlaceAllSnoc(PlaceAll(l, a), rest, e);
    }
  }

  /** The de-duplication is placing every entry onto the empty listing. */
  lemma {:induction false} DedupPlacesAll(entries: seq<(string, string)>)
    ensures Dedup(entries) == PlaceAll(Listing([], map[]), entries)
    decreases |entries|
  {
    if entries != [] {
      DedupPlacesAll(entries[..|entries| - 1]);
    }
  }

  lemma DedupSnoc(prev: seq<(string, string)>, c: string, fp: string)
    ensures Dedup(prev + [(c, fp)]).paths.Keys
         == Dedup(prev).paths.Keys + {Label(c, FreeIndex(c, Dedup(prev).paths.Keys, 1))}
  {
    var entries := prev + [(c, fp)];
    assert entries[..|entries| - 1] == prev;
  }

  lemma CountSnoc(prev: seq<(string, string)>, c: string, fp: string, b: string)
    ensures Count(prev + [(c, fp)], b) == Count(prev, b) + (if b == c then 1 else 0)
  {
    var entries := prev + [(c, fp)];
    assert entries[..|entries| - 1] == prev;
  }

  /** Adding the label numbered q + 1 of base `c` to the taken ones. */
  lemma KeysStep(keys: set<string>, bases: set<string>, b: string, c: string, m: nat, q: nat, r: nat)
    requires NoClash(bases) && b in bases && c in bases && m >= 1
    requires Label(b, m) in keys <==> m <= r
    requires b == c ==> r == q
    ensures Label(b, m) in keys + {Label(c, q + 1)} <==> m <= r + (if b == c then 1 else 0)
  {
    if Label(b, m) == Label(c, q + 1) {
      SameLabel(b, m, c, q + 1, bases);
    }
  }

  lemma {:induction false} DedupCounts(entries: seq<(string, string)>)
    requires NoClash(Bases(entries))
    ensures Numbered(Dedup(entries).paths.Keys, entries)
    decreases |entries|
  {
    if entries != [] {
      var prev := entries[..|entries| - 1];
      var e := entries[|entries| - 1];
      assert entries == prev + [(e.0, e.1)];
      BasesSnoc(entries);
      DedupCounts(prev);
      FreeSlot(prev, e.0);
      DedupSnoc(prev, e.0, e.1);
      var keys := Dedup(prev).paths.Keys;
      var next := keys + {Label(e.0, Count(prev, e.0) + 1)};
      assert Dedup(entries).paths.Keys == next;
      CountsStep(keys, prev, e.0, e.1);
      assert Numbered(next, entries);
    }
  }

  /**
   * When no base looks like a numbered label, the k-th entry is numbered by
   * its occurrence: the first with a base keeps it, the next gets " (2)", and so on.
   */
  lemma DedupOccurrence(entries: seq<(string, string)>, k: nat)
    requires NoClash(Bases(entries)) && k < |entries|
    ensures Dedup(entries).labels[k] == Label(entries[k].0, Count(entries[..k], entries[k].0) + 1)
  {
    var prev := entries[..k];
    var c := entries[k].0;
    assert Bases(prev) + {c} <= Bases(entries) by {
      forall x | x in Bases(prev) + {c} ensures x in Bases(entries) {
        if x != c {
          var i :| 0 <= i < |prev| && prev[i].0 == x;
          assert entries[i].0 == x;
        }
      }
    }
    NoClashSubset(Bases(prev) + {c}, Bases(entries));
    NoClashSubset(Bases(prev), Bases(entries));
    DedupCounts(prev);
    FreeSlot(prev, c);
    LabelAt(entries, k);
    var n := FreeIndex(c, Dedup(prev).paths.Keys, 1);
    assert n == Count(prev, c) + 1;
    assert Dedup(entries).labels[k] == Label(c, n);
  }

  /** The k-th label is the first free numbering of the k-th base after the earlier entries. */
  lemma LabelAt(entries: seq<(string, string)>, k: nat)
    requires k < |entries|
    ensures Dedup(entries).labels[k] == Label(entries[k].0, FreeIndex(entries[k].0, Dedup(entries[..k]).paths.Keys, 1))
  {
    var prev := entries[..k];
    var prefix := entries[..k + 1];
    assert prefix[..k] == prev && prefix[k] == entries[k];
    DedupPrefix(entries, k + 1);
    var l := Dedup(prev);
    var n := FreeIndex(entries[k].0, l.paths.Keys, 1);
    assert Dedup(prefix) == Place(l, entries[k].0, entries[k].1);
    assert Dedup(prefix).labels == l.labels + [Label(entries[k].0, n)];
    assert |l.labels| == k;
    assert Dedup(prefix).labels[k] == Label(entries[k].0, n);
    assert Dedup(entries).labels[k] == Dedup(prefix).labels[k];
  }

  lemma NoClashSubset(small: set<string>, large: set<string>)
    requires small <= large && NoClash(large)
    ensures NoClash(small)
  {
  }

  /**
   * Without that condition the number is not the occurrence: after an entry
   * whose base is already `b (2)`, the second entry with base `b` becomes `b (3)`.
   */
  lemma DedupSkipsTakenNumber(b: string, p1: string, p2: string, p3: string)
    ensures Dedup([(Label(b, 2), p1), (b, p2), (b, p3)]).labels == [Label(b, 2), b, Label(b, 3)]
  {
    var es := [(Label(b, 2), p1), (b, p2), (b, p3)];
    assert es[..2] == [(Label(b, 2), p1), (b, p2)];
    assert es[..2][..1] == [(Label(b, 2), p1)];
    assert [(Label(b, 2), p1)][..0] == [];
    assert Dedup([]) == Listing([], map[]);
    var l1 := Dedup(es[..2][..1]);
    assert l1 == Place(Listing([], map[]), Label(b, 2), p1);
    assert l1.labels == [Label(b, 2)];
    var l2 := Dedup(es[..2]);
    assert l2.labels == [Label(b, 2), b];
    FreeIndexLeast(b, l2.paths.Keys, 3) by {
      if Label(b, 3) == Label(b, 2) {
        LabelInjective(b, 3, 2);
      }
    }
  }
}
