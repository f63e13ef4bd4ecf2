/**
 * The rewrites that `scripts/match_addresses.py` applies to a district's
 * boundary description before and while parsing it: the street-list marker
 * (`streets_regex`), the number words, the segment and conjunction splits, the
 * place-type prefix (`place_type`) and the per-word clean-up.
 *
 * Each pattern is written out as the scan that `re.sub`/`re.split` performs:
 * the leftmost match is found, rewritten, and the scan resumes after it.
 */
module MatchText {
  import opened Wrappers
  import opened Text

  // ---------------------------------------------------------------------------
  // streets_regex: ,?.*(ulice|ulica):?\s*   (case-insensitive)
  // ---------------------------------------------------------------------------

  /** "ulice" or "ulica", up to case, starts at `k`. */
  predicate MarkerAt(s: string, k: nat)
  {
    CiOccursAt(s, k, "ulice") || CiOccursAt(s, k, "ulica")
  }

  /** No newline in `s[p..j]`: `.` can run from `p` to `j`. */
  predicate SameLine(s: string, p: nat, j: nat)
    requires p <= j <= |s|
  {
    forall m :: p <= m < j ==> s[m] != '\n'
  }

  /**
   * The greedy `.*(ulice|ulica)` from `p`: the last marker at or after `p`
   * that `.` can reach without crossing a newline.
   */
  function LastMarker(s: string, p: nat): (k: Option<nat>)
    requires p <= |s|
    ensures k.Some? ==> p <= k.value <= |s| - 5 && MarkerAt(s, k.value) && SameLine(s, p, k.value)
    ensures k.Some? ==> forall j :: k.value < j <= |s| && SameLine(s, p, j) ==> !MarkerAt(s, j)
    ensures k.None? ==> forall j :: p <= j <= |s| && SameLine(s, p, j) ==> !MarkerAt(s, j)
    decreases |s| - p
  {
    if p == |s| then None
    else if s[p] == '\n' then
      assert !MarkerAt(s, p) by {
        assert ToLower('\n') == '\n' && ToLower('u') == 'u';
        assert "ulice"[0] == 'u' && "ulica"[0] == 'u';
      }
      None
    else
      match LastMarker(s, p + 1)
      case Some(k) => Some(k)
      case None => if MarkerAt(s, p) then Some(p) else None
  }

  /** The end of a marker match at `k`: the marker, an optional ':' and a whitespace run. */
  function MarkerEnd(s: string, k: nat): (e: nat)
    requires k + 5 <= |s|
    ensures k + 5 <= e <= |s|
  {
    var c := if k + 5 < |s| && s[k + 5] == ':' then k + 6 else k + 5;
    c + SpaceLen(s[c..])
  }


  /**
   * `streets_regex.sub(rep, s[p..])` with `rep` either `" \1: "` (when `keep`)
   * or "" : each match runs from the scan position to the last marker of its
   * line, so everything before that marker on the line is dropped.
   */
  function StreetsMarkerSubFrom(s: string, p: nat, keep: bool): string
    requires p <= |s|
    decreases |s| - p
  {
    if p == |s| then []
    else match LastMarker(s, p)
      case Some(k) =>
        (if keep then " " + s[k..k + 5] + ": " else "") + StreetsMarkerSubFrom(s, MarkerEnd(s, k), keep)
      case None => [s[p]] + StreetsMarkerSubFrom(s, p + 1, keep)
  }

  function StreetsMarkerSub(s: string, keep: bool): string
  {
    StreetsMarkerSubFrom(s, 0, keep)
  }

  /** A text without "ulica"/"ulice" is left alone. */
  lemma {:induction false} StreetsMarkerSubFromNoMarker(s: string, p: nat, keep: bool)
    requires p <= |s|
    requires forall j :: p <= j <= |s| ==> !MarkerAt(s, j)
    ensures StreetsMarkerSubFrom(s, p, keep) == s[p..]
    decreases |s| - p
  {
    if p < |s| {
      StreetsMarkerSubFromNoMarker(s, p + 1, keep);
      assert s[p..] == [s[p]] + s[p + 1..];
    }
  }

  lemma StreetsMarkerSubNoMarker(s: string, keep: bool)
    requires forall j :: 0 <= j <= |s| ==> !MarkerAt(s, j)
    ensures StreetsMarkerSub(s, keep) == s
  {
    StreetsMarkerSubFromNoMarker(s, 0, keep);
  }

  /**
   * On a one-line text, everything up to the last "ulica"/"ulice" goes: with
   * `a` before it and a rest `b` that holds no marker and starts with neither
   * ':' nor whitespace, the result is the (kept) marker and then `b`.
   */
  lemma StreetsMarkerSubDropsPrefix(a: string, m: string, b: string, keep: bool)
    requires m == "ulica" || m == "ulice"
    requires forall j :: 0 <= j < |a| ==> a[j] != '\n'
    requires forall j :: 0 <= j < |b| ==> b[j] != '\n'
    requires forall j :: |a| < j <= |a + m + b| ==> !MarkerAt(a + m + b, j)
    requires b == [] || (b[0] != ':' && !IsSpace(b[0]))
    ensures StreetsMarkerSub(a + m + b, keep) == (if keep then " " + m + ": " else "") + b
  {
    var s := a + m + b;
    assert s[|a|..|a| + 5] == m;
    assert MarkerAt(s, |a|) by {
      assert forall i :: 0 <= i < 5 ==> s[|a| + i] == m[i];
      assert forall i :: 0 <= i < 5 ==> CiEq(m[i], m[i]);
    }
    assert SameLine(s, 0, |a|) by {
      assert forall j :: 0 <= j < |a| ==> s[j] == a[j];
    }
    assert LastMarker(s, 0) == Some(|a|);
    if b == [] {
      assert MarkerEnd(s, |a|) == |s|;
    } else {
      assert s[|a| + 5] == b[0];
      assert s[|a| + 5..][0] == b[0];
      assert MarkerEnd(s, |a|) == |a| + 5;
    }
    StreetsMarkerSubFromNoMarker(s, |a| + 5, keep);
    assert s[|a| + 5..] == b;
  }

  // ---------------------------------------------------------------------------
  // (nr|numer)\s+
  // ---------------------------------------------------------------------------

  /** The end of a match of `(nr|numer)\s+` at `i`, trying "nr" first. */
  function NumberWordAt(s: string, i: nat): (e: Option<nat>)
    requires i <= |s|
    ensures e.Some? ==> i + 3 <= e.value <= |s|
  {
    var w := if OccursAt(s, i, "nr") then 2 else if OccursAt(s, i, "numer") then 5 else 0;
    if w > 0 && SpaceLen(s[i + w..]) > 0 then Some(i + w + SpaceLen(s[i + w..])) else None
  }

  function RemoveNumberWordsFrom(s: string, i: nat): string
    requires i <= |s|
    decreases |s| - i
  {
    if i == |s| then []
    else match NumberWordAt(s, i)
      case Some(e) => RemoveNumberWordsFrom(s, e)
      case None => [s[i]] + RemoveNumberWordsFrom(s, i + 1)
  }

  /**
   * `re.sub(r"(nr|numer)\s+", "", s)`: every "nr" or "numer" followed by
   * whitespace is removed with the whitespace, case-sensitively and wherever
   * it stands (also at the end of a longer word).
   */
  function RemoveNumberWords(s: string): string
  {
    RemoveNumberWordsFrom(s, 0)
  }

  /** Past the last number word the text is copied. */
  lemma {:induction false} RemoveNumberWordsFromNone(s: string, i: nat)
    requires i <= |s|
    requires forall j :: i <= j <= |s| ==> NumberWordAt(s, j).None?
    ensures RemoveNumberWordsFrom(s, i) == s[i..]
    decreases |s| - i
  {
    if i < |s| {
      RemoveNumberWordsFromNone(s, i + 1);
      assert s[i..] == [s[i]] + s[i + 1..];
    }
  }

  /** "nr 5" becomes "5", and so does "numer 5". */
  lemma RemoveNumberWordsOfPrefix(w: string, ws: string, rest: string)
    requires w == "nr" || w == "numer"
    requires ws != [] && forall i :: 0 <= i < |ws| ==> IsSpace(ws[i])
    requires rest == [] || !IsSpace(rest[0])
    requires forall j :: |w| + |ws| <= j <= |w + ws + rest| ==> NumberWordAt(w + ws + rest, j).None?
    ensures RemoveNumberWords(w + ws + rest) == rest
  {
    var s := w + ws + rest;
    var e := |w| + |ws|;
    assert OccursAt(s, 0, w) by { assert s[..|w|] == w; }
    if w == "numer" {
      assert !OccursAt(s, 0, "nr") by { assert s[1] == w[1]; }
    }
    assert SpaceLen(s[|w|..]) == |ws| by {
      assert s == w + (ws + rest);
      assert s[|w|..] == ws + rest;
      SpaceLenOf(ws, rest);
    }
    assert NumberWordAt(s, 0) == Some(e);
    RemoveNumberWordsFromNone(s, e);
    assert s[e..] == rest;
  }


  // ---------------------------------------------------------------------------
  // Segments: re.split(r",\s*", borders.replace(";", ","))
  // ---------------------------------------------------------------------------

  /**
   * `re.split(r",\s*", s.replace(";", ","))`: a cut at every comma and
   * semicolon, with the whitespace after each cut dropped.
   */
  function SplitSegments(s: string): (segs: seq<string>)
    ensures |segs| >= 1
    ensures forall k :: 0 <= k < |segs| ==> ',' !in segs[k]
    ensures forall k :: 1 <= k < |segs| ==> segs[k] == [] || !IsSpace(segs[k][0])
  {
    var pieces := Split(ReplaceAll(s, ";", ","), ',');
    LStripsKeepOut(pieces, ',');
    StripTails(pieces)
  }

  /** `re.split(r",\s*", …)` after the cuts: every piece but the first loses its leading whitespace. */
  function StripTails(pieces: seq<string>): (r: seq<string>)
    ensures |r| == |pieces| && (|r| > 0 ==> r[0] == pieces[0])
    ensures forall k :: 1 <= k < |r| ==> r[k] == LStrip(pieces[k])
  {
    seq(|pieces|, k requires 0 <= k < |pieces| => if k == 0 then pieces[0] else LStrip(pieces[k]))
  }

  lemma StripTailsCons(a: string, p: seq<string>)
    requires |p| >= 1
    ensures StripTails([a] + p) == [a] + [LStrip(p[0])] + StripTails(p)[1..]
  {
    var l, r := StripTails([a] + p), [a] + [LStrip(p[0])] + StripTails(p)[1..];
    assert |l| == |r|;
    forall k | 0 <= k < |l|
      ensures l[k] == r[k]
    {
      if k > 1 {
        assert l[k] == LStrip(p[k - 1]) == StripTails(p)[k - 1];
      }
    }
  }

  lemma LStripsKeepOut(pieces: seq<string>, c: char)
    requires forall k :: 0 <= k < |pieces| ==> c !in pieces[k]
    ensures forall k :: 0 <= k < |pieces| ==> c !in LStrip(pieces[k])
  {
    forall k | 0 <= k < |pieces|
      ensures c !in LStrip(pieces[k])
    {
      LStripKeepsOut(pieces[k], c);
    }
  }

  /** A text without commas or semicolons is a single segment. */
  lemma SplitSegmentsSingle(s: string)
    requires ',' !in s && ';' !in s
    ensures SplitSegments(s) == [s]
  {
    assert ReplaceAll(s, ";", ",") == s by {
      forall i | 0 <= i < |s| ensures !OccursAt(s, i, ";") {
        assert s[i..i + 1] == [s[i]];
      }
    }
    SplitWithoutSep(s, ',');
  }

  lemma {:induction false} SplitWithoutSep(s: string, sep: char)
    requires sep !in s
    ensures Split(s, sep) == [s]
    decreases |s|
  {
    if s != [] {
      assert sep !in s[1..];
      SplitWithoutSep(s[1..], sep);
    }
  }

  /**
   * The first cut: a comma or a semicolon after a separator-free `a` ends the
   * first segment, and the segments of what follows come next, the first of
   * them without its leading whitespace.
   */
  lemma SplitSegmentsCut(a: string, c: char, b: string)
    requires ',' !in a && ';' !in a
    requires c == ',' || c == ';'
    ensures var rest := SplitSegments(b);
      SplitSegments(a + [c] + b) == [a] + [LStrip(rest[0])] + rest[1..]
  {
    var t := ReplaceAll(b, ";", ",");
    ReplaceSemicolons(b);
    ReplaceSemicolons(a + [c] + b);
    CommasAfterPlain(a, c, b);
    SplitAfterPlain(a, t);
    StripTailsCons(a, Split(t, ','));
  }

  lemma CommasAfterPlain(a: string, c: char, b: string)
    requires ';' !in a && (c == ',' || c == ';')
    ensures Commas(a + [c] + b) == a + [','] + Commas(b)
  {
  }

  /** Every ';' of `s` turned into ','. */
  function Commas(s: string): (r: string)
    ensures |r| == |s|
    ensures forall i :: 0 <= i < |s| ==> r[i] == if s[i] == ';' then ',' else s[i]
  {
    seq(|s|, i requires 0 <= i < |s| => if s[i] == ';' then ',' else s[i])
  }

  /** `replace(";", ",")` changes each semicolon into a comma and nothing else. */
  lemma ReplaceSemicolons(s: string)
    ensures ReplaceAll(s, ";", ",") == Commas(s)
  {
    ScanSemicolons(s, 0);
    assert Commas(s)[0..] == Commas(s);
  }

  lemma {:induction false} ScanSemicolons(s: string, i: nat)
    requires i <= |s|
    ensures ReplaceScan(s, ";", ",", false, i) == Commas(s)[i..]
    decreases |s| - i
  {
    if i < |s| {
      ScanSemicolons(s, i + 1);
      assert s[i..i + 1] == [s[i]];
      assert Commas(s)[i..] == [Commas(s)[i]] + Commas(s)[i + 1..];
    }
  }

  /** `str.split(",")` of a comma-free `a`, a comma and `t`. */
  lemma {:induction false} SplitAfterPlain(a: string, t: string)
    requires ',' !in a
    ensures Split(a + [','] + t, ',') == [a] + Split(t, ',')
    decreases |a|
  {
    var s := a + [','] + t;
    if a == [] {
      assert s[1..] == t;
    } else {
      assert s[1..] == a[1..] + [','] + t;
      SplitAfterPlain(a[1..], t);
      assert a == [a[0]] + a[1..];
    }
  }

  // ---------------------------------------------------------------------------
  // The enumerated tail: re.split(r"\s+i\s+", segment)
  // ---------------------------------------------------------------------------

  /** The end of a match of `\s+i\s+` at `i`. */
  function AndAt(s: string, i: nat): (e: Option<nat>)
    requires i <= |s|
    ensures e.Some? ==> i + 3 <= e.value <= |s|
  {
    var w := SpaceLen(s[i..]);
    if w > 0 && i + w < |s| && s[i + w] == 'i' && SpaceLen(s[i + w + 1..]) > 0
    then Some(i + w + 1 + SpaceLen(s[i + w + 1..]))
    else None
  }

  /** The first match of `\s+i\s+` at or after `i`: its start and its end. */
  function FirstAnd(s: string, i: nat): (m: Option<(nat, nat)>)
    requires i <= |s|
    ensures m.Some? ==> i <= m.value.0 <= |s| && AndAt(s, m.value.0) == Some(m.value.1)
    decreases |s| - i
  {
    match AndAt(s, i)
    case Some(e) => Some((i, e))
    case None => if i == |s| then None else FirstAnd(s, i + 1)
  }

  /** No match of `\s+i\s+` starts in `[i, j)`. */
  predicate NoAndIn(s: string, i: nat, j: nat)
    requires j <= |s| + 1
  {
    forall k :: i <= k < j ==> AndAt(s, k).None?
  }

  /** The match FirstAnd finds is the leftmost one, and "none" means no match at all. */
  lemma {:induction false} FirstAndLeftmost(s: string, i: nat)
    requires i <= |s|
    ensures FirstAnd(s, i).Some? ==> NoAndIn(s, i, FirstAnd(s, i).value.0)
    ensures FirstAnd(s, i).None? ==> NoAndIn(s, i, |s| + 1)
    decreases |s| - i
  {
    if AndAt(s, i).None? && i < |s| {
      FirstAndLeftmost(s, i + 1);
      FirstAndLeftmostStep(s, i);
    } else {
      FirstAndLeftmostBase(s, i);
    }
  }

  lemma FirstAndLeftmostBase(s: string, i: nat)
    requires i <= |s| && !(AndAt(s, i).None? && i < |s|)
    ensures FirstAnd(s, i).Some? ==> NoAndIn(s, i, FirstAnd(s, i).value.0)
    ensures FirstAnd(s, i).None? ==> NoAndIn(s, i, |s| + 1)
  {
  }

  lemma FirstAndLeftmostStep(s: string, i: nat)
    requires i < |s| && AndAt(s, i).None?
    requires FirstAnd(s, i + 1).Some? ==> NoAndIn(s, i + 1, FirstAnd(s, i + 1).value.0)
    requires FirstAnd(s, i + 1).None? ==> NoAndIn(s, i + 1, |s| + 1)
    ensures FirstAnd(s, i).Some? ==> NoAndIn(s, i, FirstAnd(s, i).value.0)
    ensures FirstAnd(s, i).None? ==> NoAndIn(s, i, |s| + 1)
  {
    assert FirstAnd(s, i) == FirstAnd(s, i + 1);
  }

  /**
   * `re.split(r"\s+i\s+", s)`: "A i B i C" gives ["A", "B", "C"]. The text
   * before the leftmost match is the first piece, and the split resumes after
   * the match.
   */
  function SplitAnd(s: string): (r: seq<string>)
    ensures |r| >= 1
    decreases |s|
  {
    match FirstAnd(s, 0)
    case None => [s]
    case Some((j, e)) => [s[..j]] + SplitAnd(s[e..])
  }

  /** Without a conjunction the segment stays whole. */
  lemma SplitAndNone(s: string)
    requires forall j :: 0 <= j <= |s| ==> AndAt(s, j).None?
    ensures SplitAnd(s) == [s]
  {
  }

  /**
   * The first conjunction: when the leftmost match of `\s+i\s+` starts at
   * `j` and ends at `e`, the first piece is `s[..j]` and the rest are the
   * pieces of `s[e..]`.
   */
  lemma SplitAndCut(s: string, j: nat)
    requires j <= |s| && AndAt(s, j).Some?
    requires forall i :: 0 <= i < j ==> AndAt(s, i).None?
    ensures SplitAnd(s) == [s[..j]] + SplitAnd(s[AndAt(s, j).value..])
  {
    FirstAndIs(s, 0, j);
  }

  /** The scan for a match stops at the first one. */
  lemma {:induction false} FirstAndIs(s: string, i: nat, j: nat)
    requires i <= j <= |s| && AndAt(s, j).Some?
    requires forall k :: i <= k < j ==> AndAt(s, k).None?
    ensures FirstAnd(s, i) == Some((j, AndAt(s, j).value))
    decreases j - i
  {
    if i < j {
      assert AndAt(s, i).None?;
      FirstAndIs(s, i + 1, j);
      assert FirstAnd(s, i) == FirstAnd(s, i + 1);
    }
  }

  // ---------------------------------------------------------------------------
  // place_type: ^(miasto|miasta|wieś|...):?\s*   (case-insensitive)
  // ---------------------------------------------------------------------------

  const PlaceTypes: seq<string> := [
    "miasto", "miasta", "wieś", "wsie", "sołectwo", "sołectwa",
    "osada", "osady", "przysiółek", "przysiółki"
  ]

  /** The length of the first place-type word that starts `s` (up to case), or 0. */
  function PlaceTypeLen(s: string, types: seq<string>): (n: nat)
    ensures n == 0 || exists k :: 0 <= k < |types| && n == |types[k]| && CiOccursAt(s, 0, types[k])
  {
    if types == [] then 0
    else if types[0] != [] && CiOccursAt(s, 0, types[0]) then |types[0]|
    else
      var n := PlaceTypeLen(s, types[1..]);
      assert n != 0 ==> exists k :: 0 <= k < |types| && n == |types[k]| && CiOccursAt(s, 0, types[k]) by {
        if n != 0 {
          var k :| 0 <= k < |types[1..]| && n == |types[1..][k]| && CiOccursAt(s, 0, types[1..][k]);
          assert types[1..][k] == types[k + 1];
        }
      }
      n
  }

  /**
   * `place_type.sub("", s)`: a leading place type with an optional ':' and the
   * whitespace after it is removed; the rest is untouched.
   */
  function PlaceTypeSub(s: string): (r: string)
    ensures |r| <= |s| && r == s[|s| - |r|..]
    ensures PlaceTypeLen(s, PlaceTypes) == 0 ==> r == s
  {
    PlaceTypeCut(s, PlaceTypeLen(s, PlaceTypes))
  }

  /** Removes a place type of length `n`, then an optional ':' and whitespace. */
  function PlaceTypeCut(s: string, n: nat): (r: string)
    requires n <= |s|
    ensures |r| <= |s| && r == s[|s| - |r|..]
  {
    if n == 0 then s
    else
      var c := if n < |s| && s[n] == ':' then n + 1 else n;
      s[c + SpaceLen(s[c..])..]
  }

  /**
   * A place type in any case, an optional ':' and whitespace are removed, and
   * exactly those: the rest, which does not start with whitespace, is kept.
   * A ':' right after the place type is taken only as the optional colon.
   */
  lemma PlaceTypeSubOfType(k: nat, p: string, sep: string, ws: string, rest: string)
    requires k < |PlaceTypes| && Lower(p) == PlaceTypes[k]
    requires sep == ":" || sep == ""
    requires forall i :: 0 <= i < |ws| ==> IsSpace(ws[i])
    requires rest == [] || !IsSpace(rest[0])
    requires sep == ":" || ws != [] || rest == [] || rest[0] != ':'
    ensures PlaceTypeSub(p + sep + ws + rest) == rest
  {
    var u := sep + ws + rest;
    assert p + sep + ws + rest == p + u;
    PlaceTypeLenOf(p, u, k);
    PlaceTypeSubAfter(p, u);
    ColonSpaceTailOf(sep, ws, rest);
  }

  /** What PlaceTypeSub keeps of the text `u` after the place type. */
  function ColonSpaceTail(u: string): string
  {
    var c := if u != [] && u[0] == ':' then 1 else 0;
    u[c + SpaceLen(u[c..])..]
  }

  lemma PlaceTypeSubAfter(p: string, u: string)
    requires p != [] && PlaceTypeLen(p + u, PlaceTypes) == |p|
    ensures PlaceTypeSub(p + u) == ColonSpaceTail(u)
  {
    PlaceTypeSubIsCut(p + u, |p|);
    PlaceTypeCutAfter(p, u);
  }

  lemma PlaceTypeSubIsCut(s: string, n: nat)
    requires PlaceTypeLen(s, PlaceTypes) == n
    ensures n <= |s| && PlaceTypeSub(s) == PlaceTypeCut(s, n)
  {
    var r := PlaceTypeSub(s);
    assert r == PlaceTypeCut(s, n);
  }

  lemma PlaceTypeCutAfter(p: string, u: string)
    requires p != []
    ensures PlaceTypeCut(p + u, |p|) == ColonSpaceTail(u)
  {
    var s := p + u;
    var n := |p|;
    var c := if n < |s| && s[n] == ':' then n + 1 else n;
    var d := if u != [] && u[0] == ':' then 1 else 0;
    assert c == n + d && s[c..] == u[d..] by {
      assert s[n..] == u;
      if u != [] {
        assert s[n] == u[0];
      }
    }
    assert PlaceTypeCut(s, n) == s[c + SpaceLen(s[c..])..];
    DropSpacesAfter(s, c, u, d);
  }

  /** Two texts that agree from `c` and from `d` on agree after the whitespace there. */
  lemma DropSpacesAfter(s: string, c: nat, u: string, d: nat)
    requires c <= |s| && d <= |u| && s[c..] == u[d..]
    ensures s[c + SpaceLen(s[c..])..] == u[d + SpaceLen(u[d..])..]
  {
    var x := SpaceLen(u[d..]);
    assert s[c + x..] == s[c..][x..];
    assert u[d + x..] == u[d..][x..];
  }



  lemma ColonSpaceTailOf(sep: string, ws: string, rest: string)
    requires sep == ":" || sep == ""
    requires forall i :: 0 <= i < |ws| ==> IsSpace(ws[i])
    requires rest == [] || !IsSpace(rest[0])
    requires sep == ":" || ws != [] || rest == [] || rest[0] != ':'
    ensures ColonSpaceTail(sep + ws + rest) == rest
  {
    var u := sep + ws + rest;
    SpaceLenOf(ws, rest);
    if sep == ":" {
      assert u[0] == ':';
      assert u[1..] == ws + rest;
    } else {
      assert u == ws + rest;
      if ws != [] {
        assert u[0] == ws[0];
      }
      assert u[0..] == ws + rest;
    }
    assert u[|sep| + |ws|..] == rest;
  }

  /** "Miasto: Nowa Wola" becomes "Nowa Wola". */
  lemma PlaceTypeSubOfPrefix(ws: string, rest: string)
    requires forall i :: 0 <= i < |ws| ==> IsSpace(ws[i])
    requires rest == [] || !IsSpace(rest[0])
    ensures PlaceTypeSub("Miasto:" + ws + rest) == rest
  {
    assert Lower("Miasto") == PlaceTypes[0];
    assert "Miasto:" == "Miasto" + ":";
    PlaceTypeSubOfType(0, "Miasto", ":", ws, rest);
  }

  /** A text that starts with place type `k`, in any case, starts with a place type of its length. */
  lemma PlaceTypeLenOf(p: string, t: string, k: nat)
    requires k < |PlaceTypes| && Lower(p) == PlaceTypes[k]
    ensures PlaceTypeLen(p + t, PlaceTypes) == |PlaceTypes[k]|
  {
    var s := p + t;
    PlaceTypeMatches(p, t, k);
    PlaceTypeLenFound(s, PlaceTypes, k);
    var n := PlaceTypeLen(s, PlaceTypes);
    var j :| 0 <= j < |PlaceTypes| && n == |PlaceTypes[j]| && CiOccursAt(s, 0, PlaceTypes[j]);
    PlaceTypeMatchUnique(s, j, k);
  }

  /** A place type in any case is matched by the pattern. */
  lemma PlaceTypeMatches(p: string, t: string, k: nat)
    requires k < |PlaceTypes| && Lower(p) == PlaceTypes[k]
    ensures CiOccursAt(p + t, 0, PlaceTypes[k])
  {
    var s := p + t;
    PlaceTypeLower(k);
    forall i | 0 <= i < |p| ensures CiEq(s[i], PlaceTypes[k][i]) {
      assert ToLower(s[i]) == PlaceTypes[k][i];
    }
  }

  /** At most one place type starts a text. */
  lemma PlaceTypeMatchUnique(s: string, j: nat, k: nat)
    requires j < |PlaceTypes| && k < |PlaceTypes|
    requires CiOccursAt(s, 0, PlaceTypes[j]) && CiOccursAt(s, 0, PlaceTypes[k])
    ensures j == k
  {
    PlaceTypeLower(j);
    PlaceTypeLower(k);
    var a, b := PlaceTypes[j], PlaceTypes[k];
    if |a| <= |b| {
      forall i | 0 <= i < |a| ensures b[i] == a[i] {
        assert ToLower(s[i]) == a[i];
      }
      assert b[..|a|] == a;
      PlaceTypesNoPrefix(j, k);
    } else {
      forall i | 0 <= i < |b| ensures a[i] == b[i] {
        assert ToLower(s[i]) == b[i];
      }
      assert a[..|b|] == b;
      PlaceTypesNoPrefix(k, j);
    }
  }

  /** A matching non-empty place type is found, so the length is not 0. */
  lemma {:induction false} PlaceTypeLenFound(s: string, types: seq<string>, k: nat)
    requires k < |types| && types[k] != [] && CiOccursAt(s, 0, types[k])
    ensures PlaceTypeLen(s, types) != 0
    decreases k
  {
    if k > 0 && !(types[0] != [] && CiOccursAt(s, 0, types[0])) {
      assert types[1..][k - 1] == types[k];
      PlaceTypeLenFound(s, types[1..], k - 1);
    }
  }

  /** The place types are written in lower case. */
  lemma PlaceTypeLower(k: nat)
    requires k < |PlaceTypes|
    ensures Lower(PlaceTypes[k]) == PlaceTypes[k]
    ensures forall i :: 0 <= i < |PlaceTypes[k]| ==> ToLower(PlaceTypes[k][i]) == PlaceTypes[k][i]
  {
  }

  /** No place type is a prefix of another, so at most one starts a text. */
  lemma PlaceTypesNoPrefix(j: nat, k: nat)
    requires j < |PlaceTypes| && k < |PlaceTypes|
    requires |PlaceTypes[j]| <= |PlaceTypes[k]| && PlaceTypes[k][..|PlaceTypes[j]|] == PlaceTypes[j]
    ensures j == k
  {
    if j != k {
      var d := PlaceTypeSplit(j, k);
    }
  }

  /** A position at which two different place types differ. */
  function PlaceTypeSplit(j: nat, k: nat): (d: nat)
    requires j < |PlaceTypes| && k < |PlaceTypes| && j != k
    ensures d < |PlaceTypes[j]| && d < |PlaceTypes[k]| && PlaceTypes[j][d] != PlaceTypes[k][d]
  {
    if j / 2 != k / 2 then 0 else [5, 1, 7, 4, 8][j / 2]
  }

  // ---------------------------------------------------------------------------
  // Per-word clean-up
  // ---------------------------------------------------------------------------

  /** `token.split("-")[0]`. */
  function HyphenHead(s: string): (h: string)
    ensures |h| <= |s| && h == s[..|h|] && '-' !in h
    ensures '-' !in s ==> h == s
    ensures |h| == |s| || s[|h|] == '-'
  {
    if s == [] || s[0] == '-' then []
    else [s[0]] + HyphenHead(s[1..])
  }

  /** `re.sub(r"[():]", "", w)`. */
  function RemoveParensColons(w: string): (r: string)
    ensures forall i :: 0 <= i < |r| ==> r[i] != '(' && r[i] != ')' && r[i] != ':'
    ensures (forall i :: 0 <= i < |w| ==> w[i] != '(' && w[i] != ')' && w[i] != ':') ==> r == w
    ensures |w| == 1 && (w[0] == '(' || w[0] == ')' || w[0] == ':') ==> r == []
  {
    if w == [] then []
    else (if w[0] == '(' || w[0] == ')' || w[0] == ':' then [] else [w[0]]) + RemoveParensColons(w[1..])
  }

  /** Characters are dropped one by one: removing from a concatenation removes from each part. */
  lemma {:induction false} RemoveParensColonsConcat(a: string, b: string)
    ensures RemoveParensColons(a + b) == RemoveParensColons(a) + RemoveParensColons(b)
    decreases |a|
  {
    if a != [] {
      assert (a + b)[1..] == a[1..] + b;
      RemoveParensColonsConcat(a[1..], b);
      var h := if a[0] == '(' || a[0] == ')' || a[0] == ':' then [] else [a[0]];
      assert RemoveParensColons(a) == h + RemoveParensColons(a[1..]);
      assert RemoveParensColons(a + b) == h + RemoveParensColons(a[1..] + b);
    } else {
      assert a + b == b;
    }
  }

}
