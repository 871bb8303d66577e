/**
 * The regular expressions of `parse_appname_from_manifest` and
 * `parse_appid_from_text`, written as explicit matchers: `At` decides whether a
 * pattern matches at one position and what its group captures, `Find` is
 * `re.search`'s leftmost scan.
 */
module Patterns {
  import opened Common
  import opened Text

  /** The six patterns of the source. */
  datatype Pattern =
    | NameSpaced     // "name"\s*"([^"]+)"
    | NameColon      // "name"\s*:\s*"([^"]+)"
    | IdQuoted       // "appid"\s*"(\d+)"          (IGNORECASE)
    | IdColon        // "appid"\s*:\s*"(\d+)"      (IGNORECASE)
    | IdAssign       // \bappid\s*=\s*(\d+)\b      (IGNORECASE)
    | IdBareDigits   // \b(\d{5,7})\b

  const NameKey: string := "\"name\""
  const AppidKey: string := "\"appid\""

  function SkipSpaces(s: string, i: nat): (j: nat)
    requires i <= |s|
    ensures i <= j <= |s|
    ensures forall k :: i <= k < j ==> IsSpace(s[k])
    ensures j == |s| || !IsSpace(s[j])
    decreases |s| - i
  {
    if i < |s| && IsSpace(s[i]) then SkipSpaces(s, i + 1) else i
  }

  function SkipDigits(s: string, i: nat): (j: nat)
    requires i <= |s|
    ensures i <= j <= |s|
    ensures forall k :: i <= k < j ==> IsDigit(s[k])
    ensures j == |s| || !IsDigit(s[j])
    decreases |s| - i
  {
    if i < |s| && IsDigit(s[i]) then SkipDigits(s, i + 1) else i
  }

  function SkipNonQuotes(s: string, i: nat): (j: nat)
    requires i <= |s|
    ensures i <= j <= |s|
    ensures forall k :: i <= k < j ==> s[k] != '"'
    ensures j == |s| || s[j] == '"'
    decreases |s| - i
  {
    if i < |s| && s[i] != '"' then SkipNonQuotes(s, i + 1) else i
  }

  predicate LitAt(s: string, i: nat, t: string)
  {
    i + |t| <= |s| && s[i..i + |t|] == t
  }

  /** A literal under IGNORECASE; `t` is given in lower case. */
  predicate LitAtFolded(s: string, i: nat, t: string)
  {
    i + |t| <= |s| && forall k :: 0 <= k < |t| ==> LowerChar(s[i + k]) == t[k]
  }

  /** `\b` just before a word character at `i`. */
  predicate BoundaryBefore(s: string, i: nat)
    requires i <= |s|
  {
    i == 0 || !IsWord(s[i - 1])
  }

  /** `\b` just after a word character at `i - 1`. */
  predicate BoundaryAt(s: string, i: nat)
    requires i <= |s|
  {
    i == |s| || !IsWord(s[i])
  }

  /** `"([^"]+)"` at `k`. */
  function QuotedText(s: string, k: nat): Option<string>
    requires k <= |s|
  {
    if k < |s| && s[k] == '"' then
      var q := SkipNonQuotes(s, k + 1);
      if k + 1 < q < |s| then Some(s[k + 1..q]) else None
    else None
  }

  /** `"(\d+)"` at `k`. */
  function QuotedDigits(s: string, k: nat): Option<string>
    requires k <= |s|
  {
    if k < |s| && s[k] == '"' then
      var d := SkipDigits(s, k + 1);
      if k + 1 < d < |s| && s[d] == '"' then Some(s[k + 1..d]) else None
    else None
  }

  /**
   * What follows a key: `\s*` then the value, or for the colon forms `\s*:\s*`
   * then the value. None when the separator is missing.
   */
  function ValueStart(s: string, i: nat, colon: bool): Option<nat>
    requires i <= |s|
  {
    var j := SkipSpaces(s, i);
    if !colon then Some(j)
    else if j < |s| && s[j] == ':' then Some(SkipSpaces(s, j + 1))
    else None
  }

  /** The group the pattern captures when it matches at position `i`. */
  function At(s: string, i: nat, p: Pattern): (r: Option<string>)
    requires i <= |s|
  {
    match p
    case NameSpaced | NameColon =>
      if !LitAt(s, i, NameKey) then None
      else
        var k := ValueStart(s, i + |NameKey|, p == NameColon);
        if k.None? then None else QuotedText(s, k.value)
    case IdQuoted | IdColon =>
      if !LitAtFolded(s, i, AppidKey) then None
      else
        var k := ValueStart(s, i + |AppidKey|, p == IdColon);
        if k.None? then None else QuotedDigits(s, k.value)
    case IdAssign =>
      if !(BoundaryBefore(s, i) && LitAtFolded(s, i, "appid")) then None
      else
        var j := SkipSpaces(s, i + 5);
        if !(j < |s| && s[j] == '=') then None
        else
          var k := SkipSpaces(s, j + 1);
          var d := SkipDigits(s, k);
          if k < d && BoundaryAt(s, d) then Some(s[k..d]) else None
    case IdBareDigits =>
      if !(i < |s| && IsDigit(s[i]) && BoundaryBefore(s, i)) then None
      else
        var d := SkipDigits(s, i);
        if 5 <= d - i <= 7 && BoundaryAt(s, d) then Some(s[i..d]) else None
  }

  /** Name captures are non-empty and free of quotes. */
  predicate IsNameValue(v: string)
  {
    v != "" && '"' !in v
  }

  /** Identifier captures are non-empty runs of digits. */
  predicate IsIdValue(v: string)
  {
    v != "" && AllDigits(v)
  }

  lemma AtCaptures(s: string, i: nat, p: Pattern)
    requires i <= |s| && At(s, i, p).Some?
    ensures p == NameSpaced || p == NameColon ==> IsNameValue(At(s, i, p).value)
    ensures p != NameSpaced && p != NameColon ==> IsIdValue(At(s, i, p).value)
    ensures p == IdBareDigits ==> 5 <= |At(s, i, p).value| <= 7
  {
    match p
    case NameSpaced | NameColon => NameCaptured(s, i, p);
    case IdQuoted | IdColon => QuotedIdCaptured(s, i, p);
    case IdAssign => AssignCaptured(s, i);
    case IdBareDigits => BareCaptured(s, i);
  }

  lemma NameCaptured(s: string, i: nat, p: Pattern)
    requires i <= |s| && (p == NameSpaced || p == NameColon) && At(s, i, p).Some?
    ensures IsNameValue(At(s, i, p).value)
  {
    var k := ValueStart(s, i + |NameKey|, p == NameColon).value;
    QuotedRun(s, k + 1, SkipNonQuotes(s, k + 1));
  }

  lemma QuotedIdCaptured(s: string, i: nat, p: Pattern)
    requires i <= |s| && (p == IdQuoted || p == IdColon) && At(s, i, p).Some?
    ensures IsIdValue(At(s, i, p).value)
  {
    var k := ValueStart(s, i + |AppidKey|, p == IdColon).value;
    DigitRun(s, k + 1, SkipDigits(s, k + 1));
  }

  lemma AssignCaptured(s: string, i: nat)
    requires i <= |s| && At(s, i, IdAssign).Some?
    ensures IsIdValue(At(s, i, IdAssign).value)
  {
    var j := SkipSpaces(s, i + 5);
    var k := SkipSpaces(s, j + 1);
    DigitRun(s, k, SkipDigits(s, k));
  }

  lemma BareCaptured(s: string, i: nat)
    requires i <= |s| && At(s, i, IdBareDigits).Some?
    ensures IsIdValue(At(s, i, IdBareDigits).value) && 5 <= |At(s, i, IdBareDigits).value| <= 7
  {
    DigitRun(s, i, SkipDigits(s, i));
  }

  lemma QuotedRun(s: string, a: nat, b: nat)
    requires a < b <= |s| && forall k :: a <= k < b ==> s[k] != '"'
    ensures IsNameValue(s[a..b])
  {
    assert forall m :: 0 <= m < b - a ==> s[a..b][m] == s[a + m];
  }

  lemma DigitRun(s: string, a: nat, b: nat)
    requires a < b <= |s| && forall k :: a <= k < b ==> IsDigit(s[k])
    ensures IsIdValue(s[a..b])
  {
    assert forall m :: 0 <= m < b - a ==> s[a..b][m] == s[a + m];
  }

  /** `re.search`: the leftmost position at or after `i` where `p` matches. */
  function Find(s: string, p: Pattern, i: nat): (r: Option<nat>)
    requires i <= |s|
    ensures r.Some? ==> i <= r.value <= |s| && At(s, r.value, p).Some?
    ensures r.Some? ==> forall q :: i <= q < r.value ==> At(s, q, p).None?
    ensures r.None? ==> forall q :: i <= q <= |s| ==> At(s, q, p).None?
    decreases |s| - i
  {
    if At(s, i, p).Some? then Some(i)
    else if i == |s| then None
    else Find(s, p, i + 1)
  }

  /** `m = re.search(pat, s); m.group(1) if m else None`. */
  function Search(s: string, p: Pattern): (r: Option<string>)
  {
    var m := Find(s, p, 0);
    if m.Some? then At(s, m.value, p) else None
  }

  predicate MatchesSomewhere(s: string, p: Pattern)
  {
    exists q | 0 <= q <= |s| :: At(s, q, p).Some?
  }

  /** Search finds a match exactly when there is one, and reports the leftmost. */
  lemma SearchLeftmost(s: string, p: Pattern)
    ensures Search(s, p).Some? <==> MatchesSomewhere(s, p)
    ensures Search(s, p).Some? ==>
              exists q :: 0 <= q <= |s| && Search(s, p) == At(s, q, p) && forall q' :: 0 <= q' < q ==> At(s, q', p).None?
  {
    var m := Find(s, p, 0);
    if m.Some? {
      assert At(s, m.value, p).Some?;
    }
  }

  /**
   * `parse_appname_from_manifest` on the text of the file: the spaced form is
   * searched over the whole text first, the colon form only when it occurs nowhere.
   */
  function ParseAppname(content: string): (r: Option<string>)
    ensures r.Some? ==> IsNameValue(r.value)
    ensures r.None? <==> !MatchesSomewhere(content, NameSpaced) && !MatchesSomewhere(content, NameColon)
    ensures MatchesSomewhere(content, NameSpaced) ==> r == Search(content, NameSpaced)
    ensures !MatchesSomewhere(content, NameSpaced) ==> r == Search(content, NameColon)
  {
    SearchLeftmost(content, NameSpaced);
    SearchLeftmost(content, NameColon);
    var a := Search(content, NameSpaced);
    if a.Some? then
      AtCaptures(content, Find(content, NameSpaced, 0).value, NameSpaced);
      a
    else
      var b := Search(content, NameColon);
      if b.Some? then AtCaptures(content, Find(content, NameColon, 0).value, NameColon); b else b
  }

  /** One of the three explicit appid patterns matches somewhere. */
  predicate ExplicitAppid(s: string)
  {
    MatchesSomewhere(s, IdQuoted) || MatchesSomewhere(s, IdColon) || MatchesSomewhere(s, IdAssign)
  }

  /**
   * `parse_appid_from_text`: the three explicit patterns in order, then the
   * weak fallback of a standalone run of five to seven digits.
   */
  function ParseAppid(content: string): (r: Option<string>)
    ensures r.Some? ==> IsIdValue(r.value)
    ensures r.None? <==> !ExplicitAppid(content) && !MatchesSomewhere(content, IdBareDigits)
    ensures MatchesSomewhere(content, IdQuoted) ==> r == Search(content, IdQuoted)
    ensures !MatchesSomewhere(content, IdQuoted) && MatchesSomewhere(content, IdColon) ==> r == Search(content, IdColon)
    ensures (!MatchesSomewhere(content, IdQuoted) && !MatchesSomewhere(content, IdColon)
             && MatchesSomewhere(content, IdAssign)) ==> r == Search(content, IdAssign)
    ensures !ExplicitAppid(content) ==> r == Search(content, IdBareDigits)
    ensures !ExplicitAppid(content) && r.Some? ==> 5 <= |r.value| <= 7
  {
    SearchLeftmost(content, IdQuoted);
    SearchLeftmost(content, IdColon);
    SearchLeftmost(content, IdAssign);
    SearchLeftmost(content, IdBareDigits);
    var m1 := Find(content, IdQuoted, 0);
    var m2 := Find(content, IdColon, 0);
    var m3 := Find(content, IdAssign, 0);
    var m4 := Find(content, IdBareDigits, 0);
    if m1.Some? then AtCaptures(content, m1.value, IdQuoted); Search(content, IdQuoted)
    else if m2.Some? then AtCaptures(content, m2.value, IdColon); Search(content, IdColon)
    else if m3.Some? then AtCaptures(content, m3.value, IdAssign); Search(content, IdAssign)
    else if m4.Some? then AtCaptures(content, m4.value, IdBareDigits); Search(content, IdBareDigits)
    else None
  }

  // ---------------------------------------------------------------------------
  // The patterns restated as shapes of text, and the matchers proved against them.

  lemma SkipSpacesLands(s: string, a: nat, b: nat)
    requires a <= b < |s| && !IsSpace(s[b])
    requires forall k :: a <= k < b ==> IsSpace(s[k])
    ensures SkipSpaces(s, a) == b
    decreases b - a
  {
    if a < b {
      SkipSpacesLands(s, a + 1, b);
    }
  }

  lemma SkipNonQuotesLands(s: string, a: nat, b: nat)
    requires a <= b < |s| && s[b] == '"'
    requires forall k :: a <= k < b ==> s[k] != '"'
    ensures SkipNonQuotes(s, a) == b
    decreases b - a
  {
    if a < b {
      SkipNonQuotesLands(s, a + 1, b);
    }
  }

  lemma SkipDigitsLands(s: string, a: nat, b: nat)
    requires a <= b <= |s| && (b == |s| || !IsDigit(s[b]))
    requires forall k :: a <= k < b ==> IsDigit(s[k])
    ensures SkipDigits(s, a) == b
    decreases b - a
  {
    if a < b {
      SkipDigitsLands(s, a + 1, b);
    }
  }

  /**
   * The regex `"name"\s*"([^"]+)"` (or its colon form) holds at `i` with the
   * value between the quotes at `c` and `q`: the key, whitespace up to `j`, for
   * the colon form a colon at `j` and whitespace up to `c`, then a quote, a
   * non-empty run without quotes, and the closing quote.
   */
  predicate NameShape(s: string, i: nat, colon: bool, j: nat, c: nat, q: nat)
  {
    && i + |NameKey| <= j <= c && c + 1 < q < |s|
    && LitAt(s, i, NameKey)
    && (forall k :: i + |NameKey| <= k < j ==> IsSpace(s[k]))
    && (if colon then s[j] == ':' && forall k :: j < k < c ==> IsSpace(s[k]) else c == j)
    && s[c] == '"' && s[q] == '"'
    && (forall k :: c < k < q ==> s[k] != '"')
  }

  function NamePattern(colon: bool): Pattern
  {
    if colon then NameColon else NameSpaced
  }

  /** Every text of that shape is matched, and the group is what lies between the quotes. */
  lemma NameShapeMatched(s: string, i: nat, colon: bool, j: nat, c: nat, q: nat)
    requires NameShape(s, i, colon, j, c, q)
    ensures At(s, i, NamePattern(colon)) == Some(s[c + 1..q])
  {
    SkipSpacesLands(s, i + |NameKey|, j);
    if colon {
      SkipSpacesLands(s, j + 1, c);
    }
    assert ValueStart(s, i + |NameKey|, colon) == Some(c);
    SkipNonQuotesLands(s, c + 1, q);
    assert QuotedText(s, c) == Some(s[c + 1..q]);
    var p := NamePattern(colon);
    assert p == NameSpaced || p == NameColon;
    assert (p == NameColon) == colon;
  }

  /** And every match has that shape. */
  lemma NameMatchHasShape(s: string, i: nat, colon: bool)
    requires i <= |s| && At(s, i, NamePattern(colon)).Some?
    ensures exists j: nat, c: nat, q: nat :: NameShape(s, i, colon, j, c, q) && At(s, i, NamePattern(colon)).value == s[c + 1..q]
  {
    var j := SkipSpaces(s, i + |NameKey|);
    var c := if colon then SkipSpaces(s, j + 1) else j;
    var q := SkipNonQuotes(s, c + 1);
    assert NameShape(s, i, colon, j, c, q);
  }

  /** A text that opens with `"name"`, whitespace `w` and `v` in quotes names `v`. */
  lemma ParseAppnameLeading(w: string, v: string, rest: string)
    requires AllSpaces(w) && IsNameValue(v)
    ensures ParseAppname(NameKey + w + "\"" + v + "\"" + rest) == Some(v)
  {
    var s := NameKey + w + "\"" + v + "\"" + rest;
    var j := |NameKey| + |w|;
    var q := j + 1 + |v|;
    assert s[..|NameKey|] == NameKey;
    assert forall k :: |NameKey| <= k < j ==> s[k] == w[k - |NameKey|];
    assert s[j] == '"';
    assert forall k :: j < k < q ==> s[k] == v[k - j - 1];
    assert s[q] == '"';
    assert NameShape(s, 0, false, j, j, q);
    NameShapeMatched(s, 0, false, j, j, q);
    assert s[j + 1..q] == v;
  }

  /** A manifest line such as `"name" "Half-Life 3"` names exactly `Half-Life 3`. */
  lemma ParseAppnameHalfLife()
    ensures ParseAppname("\"name\" \"Half-Life 3\"") == Some("Half-Life 3")
  {
    assert NameKey + " " + "\"" + "Half-Life 3" + "\"" + "" == "\"name\" \"Half-Life 3\"";
    assert IsNameValue("Half-Life 3");
    ParseAppnameLeading(" ", "Half-Life 3", "");
  }

  /**
   * The text at `i` reads `appid` in any case, preceded by a word boundary,
   * then whitespace, `=`, whitespace and the digits `d`, ending at a boundary.
   */
  predicate AssignShape(s: string, i: nat, w1: string, w2: string, d: string)
  {
    var e := i + 5 + |w1| + 1 + |w2| + |d|;
    && AllSpaces(w1) && AllSpaces(w2) && IsIdValue(d)
    && e <= |s| && BoundaryBefore(s, i) && LitAtFolded(s, i, "appid")
    && s[i + 5..e] == w1 + "=" + w2 + d && BoundaryAt(s, e)
  }

  lemma AssignShapeMatched(s: string, i: nat, w1: string, w2: string, d: string)
    requires AssignShape(s, i, w1, w2, d)
    ensures At(s, i, IdAssign) == Some(d)
  {
    var a := i + 5;
    var b := a + |w1|;
    var c := b + 1 + |w2|;
    var e := c + |d|;
    AssignPieces(s, a, w1, w2, d);
    SkipSpacesLands(s, a, b);
    assert IsDigit(d[0]) && s[c] == d[0];
    SkipSpacesLands(s, b + 1, c);
    SkipDigitsLands(s, c, e);
    assert SkipSpaces(s, a) == b && s[b] == '=';
    assert SkipSpaces(s, b + 1) == c && SkipDigits(s, c) == e && c < e;
  }

  /** Reading `w1 "=" w2 d` at `a`, piece by piece. */
  lemma AssignPieces(s: string, a: nat, w1: string, w2: string, d: string)
    requires a + |w1| + 1 + |w2| + |d| <= |s|
    requires s[a..a + |w1| + 1 + |w2| + |d|] == w1 + "=" + w2 + d
    ensures forall k :: a <= k < a + |w1| ==> s[k] == w1[k - a]
    ensures s[a + |w1|] == '='
    ensures forall k :: a + |w1| + 1 <= k < a + |w1| + 1 + |w2| ==> s[k] == w2[k - a - |w1| - 1]
    ensures s[a + |w1| + 1 + |w2|..a + |w1| + 1 + |w2| + |d|] == d
  {
    var lit := w1 + "=" + w2 + d;
    var c := a + |w1| + 1 + |w2|;
    assert forall m :: 0 <= m < |lit| ==> s[a + m] == lit[m];
    assert s[c..c + |d|] == lit[c - a..];
  }

  /** And every match has that shape, with the pieces it captured. */
  lemma AssignMatchHasShape(s: string, i: nat)
    requires i <= |s| && At(s, i, IdAssign).Some?
    ensures exists w1: string, w2: string, d: string ::
      AssignShape(s, i, w1, w2, d) && At(s, i, IdAssign).value == d
  {
    var j := SkipSpaces(s, i + 5);
    var k := SkipSpaces(s, j + 1);
    var e := SkipDigits(s, k);
    AssignMatched(s, i);
    AssignShapeOf(s, i, j, k, e);
  }

  /** What a match of `IdAssign` at `i` has read. */
  lemma AssignMatched(s: string, i: nat)
    requires i <= |s| && At(s, i, IdAssign).Some?
    ensures var j := SkipSpaces(s, i + 5);
      var k := SkipSpaces(s, j + 1);
      var e := SkipDigits(s, k);
      && BoundaryBefore(s, i) && LitAtFolded(s, i, "appid")
      && j < |s| && s[j] == '=' && k < e && BoundaryAt(s, e)
      && At(s, i, IdAssign) == Some(s[k..e])
  {
  }

  /** The pieces between the positions a match has read make up the shape. */
  lemma AssignShapeOf(s: string, i: nat, j: nat, k: nat, e: nat)
    requires i + 5 <= j < k < e <= |s|
    requires BoundaryBefore(s, i) && LitAtFolded(s, i, "appid") && BoundaryAt(s, e)
    requires (forall m :: i + 5 <= m < j ==> IsSpace(s[m])) && s[j] == '='
    requires (forall m :: j + 1 <= m < k ==> IsSpace(s[m]))
    requires (forall m :: k <= m < e ==> IsDigit(s[m]))
    ensures AssignShape(s, i, s[i + 5..j], s[j + 1..k], s[k..e])
  {
    SpaceRun(s, i + 5, j);
    SpaceRun(s, j + 1, k);
    DigitRun(s, k, e);
    SliceAround(s, i + 5, j, k, e);
  }

  lemma SpaceRun(s: string, a: nat, b: nat)
    requires a <= b <= |s| && forall k :: a <= k < b ==> IsSpace(s[k])
    ensures AllSpaces(s[a..b])
  {
    assert forall m :: 0 <= m < b - a ==> s[a..b][m] == s[a + m];
  }

  /** A slice cut around the one character at `j`. */
  lemma SliceAround(s: string, a: nat, j: nat, k: nat, e: nat)
    requires a <= j < k <= e <= |s| && s[j] == '='
    ensures s[a..e] == s[a..j] + "=" + s[j + 1..k] + s[k..e]
  {
    assert [s[j]] == "=";
    assert s[a..e] == s[a..j] + s[j..e];
    assert s[j..e] == [s[j]] + s[j + 1..e];
    assert s[j + 1..e] == s[j + 1..k] + s[k..e];
  }

  /**
   * The regex `"appid"\s*"(\d+)"` (or its colon form), in any case, holds at
   * `i` with the digits between the quotes at `c` and `q`: as `NameShape`, but
   * the key is folded and the quoted run is of digits.
   */
  predicate IdShape(s: string, i: nat, colon: bool, j: nat, c: nat, q: nat)
  {
    && i + |AppidKey| <= j <= c && c + 1 < q < |s|
    && LitAtFolded(s, i, AppidKey)
    && (forall k :: i + |AppidKey| <= k < j ==> IsSpace(s[k]))
    && (if colon then s[j] == ':' && forall k :: j < k < c ==> IsSpace(s[k]) else c == j)
    && s[c] == '"' && s[q] == '"'
    && (forall k :: c < k < q ==> IsDigit(s[k]))
  }

  function IdPattern(colon: bool): Pattern
  {
    if colon then IdColon else IdQuoted
  }

  /** Every text of that shape is matched, and the group is the quoted digits. */
  lemma IdShapeMatched(s: string, i: nat, colon: bool, j: nat, c: nat, q: nat)
    requires IdShape(s, i, colon, j, c, q)
    ensures At(s, i, IdPattern(colon)) == Some(s[c + 1..q])
  {
    SkipSpacesLands(s, i + |AppidKey|, j);
    if colon {
      SkipSpacesLands(s, j + 1, c);
    }
    assert ValueStart(s, i + |AppidKey|, colon) == Some(c);
    SkipDigitsLands(s, c + 1, q);
    assert QuotedDigits(s, c) == Some(s[c + 1..q]);
    var p := IdPattern(colon);
    assert p == IdQuoted || p == IdColon;
    assert (p == IdColon) == colon;
  }

  /** And every match has that shape. */
  lemma IdMatchHasShape(s: string, i: nat, colon: bool)
    requires i <= |s| && At(s, i, IdPattern(colon)).Some?
    ensures exists j: nat, c: nat, q: nat :: IdShape(s, i, colon, j, c, q) && At(s, i, IdPattern(colon)).value == s[c + 1..q]
  {
    var j := SkipSpaces(s, i + |AppidKey|);
    var c := if colon then SkipSpaces(s, j + 1) else j;
    var q := SkipDigits(s, c + 1);
    assert IdShape(s, i, colon, j, c, q);
  }

  /**
   * `\b(\d{5,7})\b` holds at `i` up to `e`: five to seven digits with a word
   * boundary on each side. A longer run of digits has no boundary inside it.
   */
  predicate BareShape(s: string, i: nat, e: nat)
  {
    && i + 5 <= e <= i + 7 && e <= |s|
    && BoundaryBefore(s, i) && BoundaryAt(s, e)
    && (forall k :: i <= k < e ==> IsDigit(s[k]))
  }

  /** Every text of that shape is matched, and the group is the whole run. */
  lemma BareShapeMatched(s: string, i: nat, e: nat)
    requires BareShape(s, i, e)
    ensures At(s, i, IdBareDigits) == Some(s[i..e])
  {
    SkipDigitsLands(s, i, e);
  }

  /** And every match has that shape. */
  lemma BareMatchHasShape(s: string, i: nat)
    requires i <= |s| && At(s, i, IdBareDigits).Some?
    ensures exists e: nat :: BareShape(s, i, e) && At(s, i, IdBareDigits).value == s[i..e]
  {
    assert BareShape(s, i, SkipDigits(s, i));
  }

  /** The quoted appid forms cannot match in a text without double quotes. */
  lemma NoQuotesNoQuotedAppid(s: string)
    requires '"' !in s
    ensures !MatchesSomewhere(s, IdQuoted) && !MatchesSomewhere(s, IdColon)
  {
    forall q | 0 <= q <= |s|
      ensures At(s, q, IdQuoted).None? && At(s, q, IdColon).None?
    {
    }
  }

  /** The example of a Lua script that sets `appid=440`. */
  lemma ParseAppidAssign()
    ensures ParseAppid("appid=440") == Some("440")
  {
    var s := "appid=440";
    assert '"' !in s;
    NoQuotesNoQuotedAppid(s);
    assert s[5..9] == "" + "=" + "" + "440";
    assert LitAtFolded(s, 0, "appid");
    assert AllDigits("440");
    AssignShapeMatched(s, 0, "", "", "440");
  }
}
