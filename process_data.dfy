/**
 * `process_addresses` of `scripts/process_data.py`: the fixed-order pipeline
 * that normalises the street and building columns of a table of addresses (or
 * of polling districts), builds the key `f_address` and, for address points,
 * drops rows whose key repeats.
 *
 * Each step is one function on one cell, in the order the script applies it;
 * `ProcessAddresses` is the column-by-column pipeline itself.
 */
module ProcessData {
  import opened Wrappers
  import opened Text
  import opened Utils
  import Const

  /** One input row: the four columns the pipeline reads, and the others untouched. */
  datatype Row<X> = Row(teryt: string, town: string, street: Option<string>, building: string, other: X)

  /** One output row, with the normalised street and building and the key. */
  datatype Address<X> = Address(teryt: string, town: string, street: string, building: string, fAddress: string, other: X)

  // ---------------------------------------------------------------------------
  // Street steps
  // ---------------------------------------------------------------------------

  /** Step 1: a missing street takes the row's town (`np.where(isna, town, street)`). */
  function FillStreet(street: Option<string>, town: string): (s: string)
    ensures street.None? ==> s == town
    ensures street.Some? ==> s == street.value
  {
    street.GetOr(town)
  }

  /** The prefix patterns `^{line.strip()}\.? ` built from the lines of `street_prefixes.txt`. */
  function PrefixPatterns(lines: seq<string>): (ps: seq<string>)
    ensures |ps| == |lines|
  {
    seq(|lines|, i requires 0 <= i < |lines| => Strip(lines[i]))
  }

  /**
   * The length of the match of `^p\.? ` (case-insensitive) at the start of `s`,
   * 0 when it does not match; the optional dot is tried first.
   */
  function PrefixMatchLen(s: string, p: string): (k: nat)
    ensures k == 0 || k == |p| + 1 || k == |p| + 2
    ensures k > 0 ==> k <= |s| && CiOccursAt(s, 0, p)
    ensures k == |p| + 2 <==> CiOccursAt(s, 0, p + ". ")
    ensures k == |p| + 1 <==> !CiOccursAt(s, 0, p + ". ") && CiOccursAt(s, 0, p + " ")
    ensures k > 0 ==> s[k - 1] == ' ' && (k == |p| + 2 ==> s[|p|] == '.')
  {
    if CiOccursAt(s, 0, p + ". ") then
      assert forall i :: 0 <= i < |p| ==> (p + ". ")[i] == p[i];
      assert CiEq(s[|p|], '.') && CiEq(s[|p| + 1], ' ') by {
        assert (p + ". ")[|p|] == '.' && (p + ". ")[|p| + 1] == ' ';
      }
      CiEqNonLetter(s[|p|], '.');
      CiEqNonLetter(s[|p| + 1], ' ');
      |p| + 2
    else if CiOccursAt(s, 0, p + " ") then
      assert forall i :: 0 <= i < |p| ==> (p + " ")[i] == p[i];
      assert CiEq(s[|p|], ' ') by {
        assert (p + " ")[|p|] == ' ';
      }
      CiEqNonLetter(s[|p|], ' ');
      |p| + 1
    else 0
  }

  /**
   * A street that begins with `p` up to case, an optional dot and a blank
   * matches `^p\.? ` over exactly that text.
   */
  lemma PrefixMatchLenOf(q: string, dot: string, rest: string, p: string)
    requires |q| == |p| && CiOccursAt(q, 0, p)
    requires dot == "" || dot == "."
    ensures PrefixMatchLen(q + dot + " " + rest, p) == |p| + |dot| + 1
  {
    var s := q + dot + " " + rest;
    assert s[..|p|] == q;
    if dot == "." {
      assert CiOccursAt(s, 0, p + ". ") by {
        forall k | 0 <= k < |p| + 2
          ensures CiEq(s[k], (p + ". ")[k])
        {
          if k < |p| { assert s[k] == q[k] && (p + ". ")[k] == p[k]; }
        }
      }
    } else {
      assert s[|p|] == ' ';
      assert !CiOccursAt(s, 0, p + ". ") by {
        assert (p + ". ")[|p|] == '.';
      }
      assert CiOccursAt(s, 0, p + " ") by {
        forall k | 0 <= k < |p| + 1
          ensures CiEq(s[k], (p + " ")[k])
        {
          if k < |p| { assert s[k] == q[k] && (p + " ")[k] == p[k]; }
        }
      }
    }
  }

  /**
   * Step 2: `re.sub("^p1\.? |^p2\.? |...", "", s, flags=IGNORECASE)`. The
   * alternatives are tried in file order and the pattern is anchored, so at
   * most one prefix, with its optional dot and its blank, is removed.
   */
  function StripStreetPrefix(s: string, prefixes: seq<string>): (r: string)
    ensures |r| <= |s| && r == s[|s| - |r|..]
  {
    if prefixes == [] then s
    else
      var k := PrefixMatchLen(s, prefixes[0]);
      if k > 0 then s[k..] else StripStreetPrefix(s, prefixes[1..])
  }

  /** The first prefix in file order that matches is the one removed, and only it. */
  lemma {:induction false} StripStreetPrefixFirstMatch(s: string, prefixes: seq<string>, i: nat)
    requires i < |prefixes| && PrefixMatchLen(s, prefixes[i]) > 0
    requires forall j :: 0 <= j < i ==> PrefixMatchLen(s, prefixes[j]) == 0
    ensures StripStreetPrefix(s, prefixes) == s[PrefixMatchLen(s, prefixes[i])..]
  {
    if i > 0 {
      assert forall j :: 0 <= j < i - 1 ==> prefixes[1..][j] == prefixes[j + 1];
      StripStreetPrefixFirstMatch(s, prefixes[1..], i - 1);
    }
  }

  /**
   * The first prefix in file order that the street begins with, up to case,
   * goes together with its optional dot and its blank, and the rest is kept.
   */
  lemma StripStreetPrefixOf(q: string, dot: string, rest: string, prefixes: seq<string>, i: nat)
    requires i < |prefixes| && |q| == |prefixes[i]| && CiOccursAt(q, 0, prefixes[i])
    requires dot == "" || dot == "."
    requires forall j :: 0 <= j < i ==> PrefixMatchLen(q + dot + " " + rest, prefixes[j]) == 0
    ensures StripStreetPrefix(q + dot + " " + rest, prefixes) == rest
  {
    var s := q + dot + " " + rest;
    PrefixMatchLenOf(q, dot, rest, prefixes[i]);
    StripStreetPrefixFirstMatch(s, prefixes, i);
    assert s[|q| + |dot| + 1..] == rest;
  }

  /** A street that starts with none of the prefixes is unchanged. */
  lemma {:induction false} StripStreetPrefixNoMatch(s: string, prefixes: seq<string>)
    requires forall j :: 0 <= j < |prefixes| ==> PrefixMatchLen(s, prefixes[j]) == 0
    ensures StripStreetPrefix(s, prefixes) == s
  {
    if prefixes != [] {
      assert forall j :: 0 <= j < |prefixes| - 1 ==> prefixes[1..][j] == prefixes[j + 1];
      StripStreetPrefixNoMatch(s, prefixes[1..]);
    }
  }

  /** Step 3: `s.strip()` and then every whitespace run becomes one blank. */
  function NormalizeSpaces(s: string): (r: string)
    ensures r == [] || (r[0] != ' ' && r[|r| - 1] != ' ')
    ensures Collapsed(r)
    ensures NonSpaces(r) == NonSpaces(s)
  {
    var t := Strip(s);
    CollapseKeepsNonSpaces(t);
    CollapseIsCollapsed(t);
    StripKeepsNonSpaces(s);
    CollapseSpaces(t)
  }

  /** Whitespace before the first and after the last non-space character goes. */
  lemma NormalizeSpacesOfPadded(p: string, t: string, q: string)
    requires forall i :: 0 <= i < |p| ==> IsSpace(p[i])
    requires forall i :: 0 <= i < |q| ==> IsSpace(q[i])
    requires t != [] && !IsSpace(t[0]) && !IsSpace(t[|t| - 1])
    ensures NormalizeSpaces(p + t + q) == NormalizeSpaces(t) == CollapseSpaces(t)
  {
    assert Strip(p + t + q) == t by {
      assert p + t + q == p + (t + q);
      LStripOfRun(p, t + q);
      RStripOfRun(t, q);
    }
    assert Strip(t) == t by {
      LStripOfNonSpace(t);
      RStripOfNonSpace(t);
    }
  }

  /** Text free of whitespace is left as it is. */
  lemma NormalizeSpacesOfWord(s: string)
    requires forall i :: 0 <= i < |s| ==> !IsSpace(s[i])
    ensures NormalizeSpaces(s) == s
  {
    LStripOfNonSpace(s);
    RStripOfNonSpace(s);
    CollapseNoSpace(s);
  }

  /**
   * An internal whitespace run, whatever its length and characters, becomes
   * exactly one blank between the normalised text on either side of it.
   */
  lemma NormalizeSpacesRun(a: string, w: string, b: string)
    requires a != [] && !IsSpace(a[0]) && !IsSpace(a[|a| - 1])
    requires w != [] && forall i :: 0 <= i < |w| ==> IsSpace(w[i])
    requires b != [] && !IsSpace(b[0]) && !IsSpace(b[|b| - 1])
    ensures NormalizeSpaces(a + w + b) == NormalizeSpaces(a) + " " + NormalizeSpaces(b)
  {
    var s := a + w + b;
    assert s[0] == a[0] && s[|s| - 1] == b[|b| - 1];
    LStripOfNonSpace(s);
    RStripOfNonSpace(s);
    LStripOfNonSpace(a);
    RStripOfNonSpace(a);
    LStripOfNonSpace(b);
    RStripOfNonSpace(b);
    CollapseRun(a, w, b);
  }

  lemma StripKeepsNonSpaces(s: string)
    ensures NonSpaces(Strip(s)) == NonSpaces(s)
  {
    var l := LStrip(s);
    NonSpacesOfSpaces(s, |s| - |l|);
    LStripIsSuffix(s);
    NonSpacesOfTrailingSpaces(l, |RStrip(l)|);
  }

  lemma NonSpacesOfTrailingSpaces(s: string, k: nat)
    requires k <= |s|
    requires forall i :: k <= i < |s| ==> IsSpace(s[i])
    ensures NonSpaces(s) == NonSpaces(s[..k])
  {
    SpacesSuffixHasNoNonSpaces(s, k);
    NonSpacesOfBlankTail(s[..k], s[k..]);
    assert s[..k] + s[k..] == s;
  }

  lemma NonSpacesOfBlankTail(a: string, b: string)
    requires NonSpaces(b) == []
    ensures NonSpaces(a + b) == NonSpaces(a)
  {
    NonSpacesOfConcat(a, b);
    assert NonSpaces(a) + NonSpaces(b) == NonSpaces(a);
  }

  lemma SpacesSuffixHasNoNonSpaces(s: string, k: nat)
    requires k <= |s|
    requires forall i :: k <= i < |s| ==> IsSpace(s[i])
    ensures NonSpaces(s[k..]) == []
  {
    var b := s[k..];
    forall i | 0 <= i < |b|
      ensures IsSpace(b[i])
    {
      assert b[i] == s[k + i];
    }
    AllSpacesHaveNoNonSpaces(b);
  }

  /** The length of the run of non-whitespace characters that starts `s`. */
  function WordLen(s: string): (k: nat)
    ensures k <= |s| && NoSpaces(s[..k]) && (k == |s| || IsSpace(s[k]))
  {
    if s != [] && !IsSpace(s[0]) then
      var k := 1 + WordLen(s[1..]);
      assert s[..k] == [s[0]] + s[1..][..k - 1];
      k
    else 0
  }


  /**
   * Step 6: `re.sub(r"^(\S+)\s+\1", r"\1", s)`: when the first word is followed by
   * whitespace and then by the same text again (case-sensitively, and with no
   * word boundary after it), the first copy and the whitespace are removed.
   */
  function RemoveRepeatedFirstWord(s: string): (r: string)
    ensures r == s || (WordLen(s) <= |r| < |s| && r[..WordLen(s)] == s[..WordLen(s)])
  {
    var k := WordLen(s);
    var m := SpaceLen(s[k..]);
    if k > 0 && m > 0 && OccursAt(s, k + m, s[..k]) then s[..k] + s[k + m + k..] else s
  }

  /** A street that starts "w w" loses the first copy of w. */
  lemma RemoveRepeatedFirstWordOf(w: string, ws: string, rest: string)
    requires w != [] && NoSpaces(w)
    requires ws != [] && forall i :: 0 <= i < |ws| ==> IsSpace(ws[i])
    ensures RemoveRepeatedFirstWord(w + ws + w + rest) == w + rest
  {
    var s := w + ws + w + rest;
    WordLenOf(w, ws + w + rest);
    assert s == w + (ws + w + rest);
    assert s[|w|..] == ws + (w + rest);
    SpaceLenOf(ws, w + rest);
    assert s[|w| + |ws|..|w| + |ws| + |w|] == w;
    assert s[..|w|] == w;
    assert s[|w| + |ws| + |w|..] == rest;
  }

  /**
   * A street whose first word is not repeated after the whitespace is kept as
   * it is: `w` is the whole first word, `ws` the whole run after it, and `rest`
   * does not start with `w`.
   */
  lemma RemoveRepeatedFirstWordKeeps(w: string, ws: string, rest: string)
    requires NoSpaces(w)
    requires forall i :: 0 <= i < |ws| ==> IsSpace(ws[i])
    requires rest == [] || !IsSpace(rest[0])
    requires ws == [] ==> rest == []
    requires w == [] || ws == [] || !(w <= rest)
    ensures RemoveRepeatedFirstWord(w + ws + rest) == w + ws + rest
  {
    var s := w + ws + rest;
    FirstWordRun(w, ws, rest);
    AfterFirstWord(w, ws, rest);
    RemoveRepeatedFirstWordNone(s, |w|, |ws|);
  }

  /** The first word of `w + ws + rest` is `w`. */
  lemma FirstWordRun(w: string, ws: string, rest: string)
    requires NoSpaces(w)
    requires forall i :: 0 <= i < |ws| ==> IsSpace(ws[i])
    requires ws == [] ==> rest == []
    ensures var s := w + ws + rest; WordLen(s) == |w| && s[..|w|] == w
  {
    var s := w + ws + rest;
    assert s == w + (ws + rest);
    WordLenOf(w, ws + rest);
  }

  /** After the first word `w` come the whitespace `ws` and the text `rest`. */
  lemma AfterFirstWord(w: string, ws: string, rest: string)
    requires forall i :: 0 <= i < |ws| ==> IsSpace(ws[i])
    requires rest == [] || !IsSpace(rest[0])
    ensures var s := w + ws + rest;
      && SpaceLen(s[|w|..]) == |ws| && (OccursAt(s, |w| + |ws|, w) <==> w <= rest)
  {
    var s := w + ws + rest;
    assert SpaceLen(s[|w|..]) == |ws| by {
      assert s[|w|..] == ws + rest;
      SpaceLenOf(ws, rest);
    }
    assert s[|w| + |ws|..] == rest;
    OccursAtSuffix(s, |w| + |ws|, w);
  }

  lemma RemoveRepeatedFirstWordNone(s: string, k: nat, m: nat)
    requires k == WordLen(s) && m == SpaceLen(s[k..])
    requires !(k > 0 && m > 0 && OccursAt(s, k + m, s[..k]))
    ensures RemoveRepeatedFirstWord(s) == s
  {
    var r := RemoveRepeatedFirstWord(s);
    assert r == s;
  }

  /** An occurrence at `i` is a prefix of the text from `i` on. */
  lemma OccursAtSuffix(s: string, i: nat, w: string)
    requires i <= |s|
    ensures OccursAt(s, i, w) <==> w <= s[i..]
  {
    if i + |w| <= |s| {
      assert s[i..][..|w|] == s[i..i + |w|];
    }
  }

  /** A street without whitespace is kept as it is. */
  lemma RemoveRepeatedFirstWordOfWord(s: string)
    requires NoSpaces(s)
    ensures RemoveRepeatedFirstWord(s) == s
  {
    assert s + [] + [] == s;
    RemoveRepeatedFirstWordKeeps(s, [], []);
  }

  lemma {:induction false} WordLenOf(w: string, t: string)
    requires NoSpaces(w) && (t == [] || IsSpace(t[0]))
    ensures WordLen(w + t) == |w|
    decreases |w|
  {
    if w != [] {
      assert (w + t)[1..] == w[1..] + t;
      WordLenOf(w[1..], t);
    } else {
      assert w + t == t;
    }
  }


  /** The street column after steps 1 to 6, in the script's order. */
  function NormalizeStreet(street: Option<string>, town: string, prefixes: seq<string>, table: Dict): string
  {
    RemoveRepeatedFirstWord(ApplyReplacements(Capitalize(NormalizeSpaces(StripStreetPrefix(FillStreet(street, town), prefixes))), table))
  }

  // ---------------------------------------------------------------------------
  // Building steps
  // ---------------------------------------------------------------------------

  /** The length of the run of word characters that ends `s`. */
  function TrailingWordLen(s: string): (k: nat)
    ensures k <= |s| && (forall i :: |s| - k <= i < |s| ==> IsWordChar(s[i])) && (k == |s| || !IsWordChar(s[|s| - k - 1]))
  {
    if s != [] && IsWordChar(s[|s| - 1]) then 1 + TrailingWordLen(s[..|s| - 1]) else 0
  }

  /** The length of the run of whitespace that ends `s`. */
  function TrailingSpaceLen(s: string): (k: nat)
    ensures k <= |s| && (forall i :: |s| - k <= i < |s| ==> IsSpace(s[i])) && (k == |s| || !IsSpace(s[|s| - k - 1]))
  {
    if s != [] && IsSpace(s[|s| - 1]) then 1 + TrailingSpaceLen(s[..|s| - 1]) else 0
  }

  /**
   * Step 8: `re.sub(r"(\d+)\s+(\w+)$", r"\1\2", b)`: digits, whitespace and a
   * final word are joined ("12 a" becomes "12a"). Only whitespace is removed.
   */
  function JoinTrailingSuffix(b: string): (r: string)
    ensures NonSpaces(r) == NonSpaces(b)
    ensures |r| <= |b|
  {
    JoinBefore(b, |b| - TrailingWordLen(b))
  }

  /** The join of the whitespace run that ends `b[..h]`, when a digit precedes it. */
  function JoinBefore(b: string, h: nat): (r: string)
    requires h <= |b|
    ensures NonSpaces(r) == NonSpaces(b)
    ensures |r| <= |b|
    ensures var w := TrailingSpaceLen(b[..h]); !(h < |b| && w > 0 && h - w > 0 && IsDigit(b[h - w - 1])) ==> r == b
  {
    var w := TrailingSpaceLen(b[..h]);
    if h < |b| && w > 0 && h - w > 0 && IsDigit(b[h - w - 1]) then
      AllSpacesHaveNoNonSpaces(b[h - w..h]);
      DropSpacesKeepsNonSpaces(b, h - w, h);
      b[..h - w] + b[h..]
    else b
  }


  lemma AllSpacesHaveNoNonSpaces(m: string)
    requires forall k :: 0 <= k < |m| ==> IsSpace(m[k])
    ensures NonSpaces(m) == []
  {
    NonSpacesOfSpaces(m, |m|);
    assert m[|m|..] == [];
  }

  /** Removing a run of whitespace keeps the other characters. */
  lemma DropSpacesKeepsNonSpaces(b: string, i: nat, j: nat)
    requires i <= j <= |b|
    requires NonSpaces(b[i..j]) == []
    ensures NonSpaces(b[..i] + b[j..]) == NonSpaces(b)
  {
    var a, m, c := b[..i], b[i..j], b[j..];
    SplitThree(b, i, j);
    NonSpacesOfConcat(a + m, c);
    NonSpacesOfConcat(a, m);
    NonSpacesOfConcat(a, c);
    calc {
      NonSpaces(b);
      NonSpaces((a + m) + c);
      NonSpaces(a + m) + NonSpaces(c);
      (NonSpaces(a) + NonSpaces(m)) + NonSpaces(c);
      { assert NonSpaces(a) + NonSpaces(m) == NonSpaces(a); }
      NonSpaces(a) + NonSpaces(c);
      NonSpaces(a + c);
    }
  }

  lemma SplitThree(b: string, i: nat, j: nat)
    requires i <= j <= |b|
    ensures b == (b[..i] + b[i..j]) + b[j..]
  {
    assert b[..i] + b[i..j] == b[..j];
    assert b[..j] + b[j..] == b;
  }

  /** "<digits> <suffix>" at the end is joined. */
  lemma JoinTrailingSuffixOf(p: string, d: char, ws: string, t: string)
    requires IsDigit(d)
    requires ws != [] && forall i :: 0 <= i < |ws| ==> IsSpace(ws[i])
    requires t != [] && AllWordChars(t)
    ensures JoinTrailingSuffix(p + [d] + ws + t) == p + [d] + t
  {
    var b := p + [d] + ws + t;
    TrailingWordLenOf(p + [d] + ws, t);
    var h := |b| - |t|;
    assert b[..h] == p + [d] + ws;
    assert b[h..] == t;
    TrailingSpaceLenOf(p + [d], ws);
    assert b[..h - |ws|] == p + [d];
  }

  /**
   * A designator whose final word `t` is not preceded by whitespace after a
   * digit is kept as it is: `ws` is the whole whitespace run before `t`, and
   * the character before it is not a digit when both are present.
   */
  lemma JoinTrailingSuffixKeeps(p: string, ws: string, t: string)
    requires AllWordChars(t)
    requires forall i :: 0 <= i < |ws| ==> IsSpace(ws[i])
    requires p == [] || !IsSpace(p[|p| - 1])
    requires ws != [] || p == [] || !IsWordChar(p[|p| - 1])
    requires t == [] || ws == [] || p == [] || !IsDigit(p[|p| - 1])
    ensures JoinTrailingSuffix(p + ws + t) == p + ws + t
  {
    var b := p + ws + t;
    LastWordRun(p, ws, t);
    var r := JoinTrailingSuffix(b);
    assert r == JoinBefore(b, |p| + |ws|);
  }

  /** The final word of `p + ws + t`, the whitespace before it, and the character before that. */
  lemma LastWordRun(p: string, ws: string, t: string)
    requires AllWordChars(t)
    requires forall i :: 0 <= i < |ws| ==> IsSpace(ws[i])
    requires p == [] || !IsSpace(p[|p| - 1])
    requires ws != [] || p == [] || !IsWordChar(p[|p| - 1])
    ensures var b := p + ws + t;
      && TrailingWordLen(b) == |t| && TrailingSpaceLen(b[..|p| + |ws|]) == |ws|
      && (p != [] ==> b[|p| - 1] == p[|p| - 1])
  {
    var b := p + ws + t;
    assert TrailingWordLen(b) == |t| by {
      if ws != [] {
        SpaceIsNotWordChar(ws[|ws| - 1]);
        assert (p + ws)[|p + ws| - 1] == ws[|ws| - 1];
      } else {
        assert p + ws == p;
      }
      TrailingWordLenOf(p + ws, t);
    }
    assert b[..|p| + |ws|] == p + ws;
    TrailingSpaceLenOf(p, ws);
  }







  /** A designator without whitespace is kept as it is. */
  lemma JoinTrailingSuffixOfWord(b: string)
    requires NoSpaces(b)
    ensures JoinTrailingSuffix(b) == b
  {
    var h := |b| - TrailingWordLen(b);
    if h > 0 {
      assert b[..h][h - 1] == b[h - 1];
    }
  }

  lemma {:induction false} TrailingWordLenOf(h: string, t: string)
    requires AllWordChars(t) && (h == [] || !IsWordChar(h[|h| - 1]))
    ensures TrailingWordLen(h + t) == |t|
    decreases |t|
  {
    if t != [] {
      assert (h + t)[..|h + t| - 1] == h + t[..|t| - 1];
      TrailingWordLenOf(h, t[..|t| - 1]);
    } else {
      assert h + t == h;
    }
  }

  lemma {:induction false} TrailingSpaceLenOf(h: string, ws: string)
    requires (forall i :: 0 <= i < |ws| ==> IsSpace(ws[i])) && (h == [] || !IsSpace(h[|h| - 1]))
    ensures TrailingSpaceLen(h + ws) == |ws|
    decreases |ws|
  {
    if ws != [] {
      assert (h + ws)[..|h + ws| - 1] == h + ws[..|ws| - 1];
      TrailingSpaceLenOf(h, ws[..|ws| - 1]);
    } else {
      assert h + ws == h;
    }
  }

  /**
   * Whether `(\s+.+)$` matches the rest of the string from `j`, with `.` any
   * character but a newline: some non-empty whitespace prefix is followed by a
   * non-empty tail without newline.
   */
  predicate CommentFrom(s: string, j: nat)
    requires j <= |s|
  {
    var m := SpaceLen(s[j..]);
    m > 0 &&
    if j + m < |s| then '\n' !in s[j + m..]
    else m >= 2 && s[|s| - 1] != '\n'
  }

  /** The leftmost match of `(\d+\w*)(\s+.+)$` at or after `i`, replaced by its group 1. */
  function DropCommentFrom(b: string, i: nat): (r: string)
    requires i <= |b|
    ensures |r| <= |b| && r == b[..|r|]
    decreases |b| - i
  {
    if i == |b| then b
    else if IsDigit(b[i]) && CommentFrom(b, WordRunEnd(b, i)) then b[..WordRunEnd(b, i)]
    else DropCommentFrom(b, i + 1)
  }

  /**
   * Step 10: `re.sub(r"(\d+\w*)(\s+.+)$", r"\1", b)`: a comment after the
   * number is dropped. The result is a prefix of the designator.
   */
  function DropComment(b: string): (r: string)
    ensures |r| <= |b| && r == b[..|r|]
  {
    DropCommentFrom(b, 0)
  }

  /** A designator that starts with a number, then whitespace and a comment, keeps the number. */
  lemma DropCommentOf(n: string, ws: string, c: string)
    requires n != [] && IsDigit(n[0]) && AllWordChars(n)
    requires ws != [] && forall i :: 0 <= i < |ws| ==> IsSpace(ws[i])
    requires c != [] && '\n' !in c
    ensures DropComment(n + ws + c) == n
  {
    var b := n + ws + c;
    WordRunEndOver(b, 0, |n|);
    assert b[|n|..] == ws + c;
    var m := SpaceLen(b[|n|..]);
    assert m >= |ws| by { SpaceLenAtLeast(ws, c); }
    if |n| + m < |b| {
      assert b[|n| + m..] == c[m - |ws|..];
    } else {
      assert m >= 2 || |c| >= 1;
      assert b[|b| - 1] == c[|c| - 1];
      assert c[m - |ws| - 1..] == b[|n| + m - 1..];
      SpaceLenBound(b[|n|..], ws, c);
    }
    assert b[..|n|] == n;
  }

  /**
   * Without a number that is followed by a comment the designator is kept as
   * it is.
   */
  lemma DropCommentKeeps(b: string)
    requires forall j :: 0 <= j < |b| && IsDigit(b[j]) ==> !CommentFrom(b, WordRunEnd(b, j))
    ensures DropComment(b) == b
  {
    DropCommentFromKeeps(b, 0);
  }

  lemma {:induction false} DropCommentFromKeeps(b: string, i: nat)
    requires i <= |b|
    requires forall j :: i <= j < |b| && IsDigit(b[j]) ==> !CommentFrom(b, WordRunEnd(b, j))
    ensures DropCommentFrom(b, i) == b
    decreases |b| - i
  {
    if i < |b| {
      DropCommentFromKeeps(b, i + 1);
    }
  }

  /** A designator without whitespace has no comment and is kept as it is. */
  lemma DropCommentOfWord(b: string)
    requires NoSpaces(b)
    ensures DropComment(b) == b
  {
    forall j | 0 <= j < |b| && IsDigit(b[j])
      ensures !CommentFrom(b, WordRunEnd(b, j))
    {
      var e := WordRunEnd(b, j);
      if e < |b| {
        assert b[e..][0] == b[e];
      }
    }
    DropCommentKeeps(b);
  }

  lemma SpaceLenAtLeast(ws: string, c: string)
    requires forall i :: 0 <= i < |ws| ==> IsSpace(ws[i])
    ensures SpaceLen(ws + c) >= |ws|
    decreases |ws|
  {
    if ws != [] {
      assert (ws + c)[1..] == ws[1..] + c;
      SpaceLenAtLeast(ws[1..], c);
    }
  }

  lemma SpaceLenBound(t: string, ws: string, c: string)
    requires t == ws + c && c != [] && SpaceLen(t) == |t|
    ensures |ws| + |c| >= 2 || |ws| + |c| == SpaceLen(t)
  {
  }

  /** The building column after steps 7 to 10, in the script's order. */
  function NormalizeBuilding(b: string): string
  {
    DropComment(MultiNumberCut(JoinTrailingSuffix(Lower(b))))
  }

  // ---------------------------------------------------------------------------
  // The key and deduplication
  // ---------------------------------------------------------------------------

  /** `df[["teryt", "town", "street", "building"]].agg(" ".join, axis=1)`. */
  function FAddress(teryt: string, town: string, street: string, building: string): string
  {
    teryt + " " + town + " " + street + " " + building
  }

  predicate UniqueKeys<X>(rows: seq<Address<X>>)
  {
    forall i, j :: 0 <= i < j < |rows| ==> rows[i].fAddress != rows[j].fAddress
  }

  function KeysOf<X>(rows: seq<Address<X>>): (ks: seq<string>)
    ensures |ks| == |rows| && forall i :: 0 <= i < |rows| ==> ks[i] == rows[i].fAddress
  {
    seq(|rows|, i requires 0 <= i < |rows| => rows[i].fAddress)
  }

  /**
   * `drop_duplicates(subset=["f_address"])`: the first row of every key, in
   * order. Every key survives, no key repeats, and every first occurrence is kept.
   */
  function DropDuplicates<X>(rows: seq<Address<X>>): (r: seq<Address<X>>)
    ensures DedupOf(rows, r)
    ensures InFirstOrder(rows, r)
    decreases |rows|
  {
    if rows == [] then []
    else
      var init := rows[..|rows| - 1];
      var last := rows[|rows| - 1];
      var d := DropDuplicates(init);
      assert init + [last] == rows;
      if last.fAddress in KeysOf(d) then
        DropDuplicatesSeen(init, last, d);
        SeenKeepsOrder(init, last, d);
        d
      else
        DropDuplicatesNew(init, last, d);
        NewKeepsOrder(init, last, d);
        d + [last]
  }

  /** The position of the first row with key `k`, or `|rows|` when there is none. */
  function FirstIndex<X>(rows: seq<Address<X>>, k: string): (i: nat)
    ensures i <= |rows|
    ensures i < |rows| ==> rows[i].fAddress == k && IsFirst(rows, i)
    ensures i == |rows| ==> k !in KeysOf(rows)
    decreases |rows|
  {
    if rows == [] then 0
    else if rows[0].fAddress == k then 0
    else
      var j := FirstIndex(rows[1..], k);
      assert forall t :: 0 < t <= |rows[1..]| ==> rows[t] == rows[1..][t - 1];
      1 + j
  }

  /** The rows of `r` appear in the order in which their keys first occur in `rows`. */
  predicate InFirstOrder<X>(rows: seq<Address<X>>, r: seq<Address<X>>)
  {
    forall a, b :: 0 <= a < b < |r| ==> FirstIndex(rows, r[a].fAddress) < FirstIndex(rows, r[b].fAddress)
  }

  /** Appending a row moves no key's first position. */
  lemma {:induction false} FirstIndexSnoc<X>(init: seq<Address<X>>, last: Address<X>, k: string)
    ensures FirstIndex(init + [last], k) ==
      if FirstIndex(init, k) < |init| then FirstIndex(init, k)
      else if last.fAddress == k then |init| else |init| + 1
    decreases |init|
  {
    var rows := init + [last];
    if init == [] {
      assert rows == [last];
      assert rows[1..] == [];
    } else {
      assert rows[0] == init[0];
      assert rows[1..] == init[1..] + [last];
      FirstIndexSnoc(init[1..], last, k);
    }
  }

  lemma SeenKeepsOrder<X>(init: seq<Address<X>>, last: Address<X>, d: seq<Address<X>>)
    requires FromRows(init, d) && InFirstOrder(init, d)
    ensures InFirstOrder(init + [last], d)
  {
    forall a | 0 <= a < |d| ensures FirstIndex(init + [last], d[a].fAddress) == FirstIndex(init, d[a].fAddress) {
      KeyOfRow(init, d[a]);
      FirstIndexSnoc(init, last, d[a].fAddress);
    }
  }

  lemma NewKeepsOrder<X>(init: seq<Address<X>>, last: Address<X>, d: seq<Address<X>>)
    requires FromRows(init, d) && InFirstOrder(init, d) && last.fAddress !in KeysOf(d)
    requires KeepsKeys(init, d)
    ensures InFirstOrder(init + [last], d + [last])
  {
    var rows, r := init + [last], d + [last];
    forall a | 0 <= a < |d| ensures FirstIndex(rows, d[a].fAddress) == FirstIndex(init, d[a].fAddress) < |init| {
      KeyOfRow(init, d[a]);
      FirstIndexSnoc(init, last, d[a].fAddress);
    }
    forall i | 0 <= i < |init| ensures init[i].fAddress != last.fAddress {
      assert init[i].fAddress in KeysOf(d);
    }
    FirstIndexSnoc(init, last, last.fAddress);
    forall a, b | 0 <= a < b < |r| ensures FirstIndex(rows, r[a].fAddress) < FirstIndex(rows, r[b].fAddress) {
      assert r[a] == d[a];
      if b < |d| { assert r[b] == d[b]; } else { assert r[b] == last; }
    }
  }

  /** A row taken from `rows` has its key first at a position inside `rows`. */
  lemma KeyOfRow<X>(rows: seq<Address<X>>, x: Address<X>)
    requires x in rows
    ensures FirstIndex(rows, x.fAddress) < |rows|
  {
    var i :| 0 <= i < |rows| && rows[i] == x;
    assert KeysOf(rows)[i] == x.fAddress;
  }

  /**
   * `r` is `rows` without its repeated keys: no key repeats, every key
   * survives, every row of `r` comes from `rows`, and every first occurrence of
   * a key is kept.
   */
  ghost predicate DedupOf<X>(rows: seq<Address<X>>, r: seq<Address<X>>)
  {
    UniqueKeys(r) && KeepsKeys(rows, r) && FromRows(rows, r) && KeepsFirsts(rows, r)
  }

  predicate KeepsKeys<X>(rows: seq<Address<X>>, r: seq<Address<X>>)
  {
    forall i :: 0 <= i < |rows| ==> rows[i].fAddress in KeysOf(r)
  }

  ghost predicate FromRows<X>(rows: seq<Address<X>>, r: seq<Address<X>>)
  {
    forall i :: 0 <= i < |r| ==> r[i] in rows
  }

  /** `rows[j]` is the first row with its key. */
  predicate IsFirst<X>(rows: seq<Address<X>>, j: nat)
    requires j < |rows|
  {
    forall k :: 0 <= k < j ==> rows[k].fAddress != rows[j].fAddress
  }

  ghost predicate KeepsFirsts<X>(rows: seq<Address<X>>, r: seq<Address<X>>)
  {
    forall j :: 0 <= j < |rows| && IsFirst(rows, j) ==> rows[j] in r
  }

  /** A row whose key was seen before is dropped. */
  lemma DropDuplicatesSeen<X>(init: seq<Address<X>>, last: Address<X>, d: seq<Address<X>>)
    requires DedupOf(init, d) && last.fAddress in KeysOf(d)
    ensures DedupOf(init + [last], d)
  {
    var rows := init + [last];
    assert forall j :: 0 <= j < |init| ==> rows[j] == init[j];
    assert !IsFirst(rows, |init|) by {
      var i :| 0 <= i < |d| && d[i].fAddress == last.fAddress;
      var k :| 0 <= k < |init| && init[k] == d[i];
      assert rows[k].fAddress == rows[|init|].fAddress;
    }
    forall j | 0 <= j < |init| && IsFirst(rows, j) ensures rows[j] in d {
      assert IsFirst(init, j);
    }
  }

  /** A row with a new key is kept, last. */
  lemma DropDuplicatesNew<X>(init: seq<Address<X>>, last: Address<X>, d: seq<Address<X>>)
    requires DedupOf(init, d) && last.fAddress !in KeysOf(d)
    ensures DedupOf(init + [last], d + [last])
  {
    NewKeepsUnique(d, last);
    NewKeepsKeys(init, last, d);
    NewFromRows(init, last, d);
    NewKeepsFirsts(init, last, d);
  }

  lemma NewKeepsUnique<X>(d: seq<Address<X>>, last: Address<X>)
    requires UniqueKeys(d) && last.fAddress !in KeysOf(d)
    ensures UniqueKeys(d + [last])
  {
    var r := d + [last];
    forall a, b | 0 <= a < b < |r| ensures r[a].fAddress != r[b].fAddress {
      assert r[a] == d[a];
      if b < |d| { assert r[b] == d[b]; } else { assert KeysOf(d)[a] == r[a].fAddress; }
    }
  }

  lemma NewKeepsKeys<X>(init: seq<Address<X>>, last: Address<X>, d: seq<Address<X>>)
    requires KeepsKeys(init, d)
    ensures KeepsKeys(init + [last], d + [last])
  {
    var rows, r := init + [last], d + [last];
    assert KeysOf(r) == KeysOf(d) + [last.fAddress];
    forall i | 0 <= i < |rows| ensures rows[i].fAddress in KeysOf(r) {
      if i < |init| { assert rows[i] == init[i]; } else { assert KeysOf(r)[|d|] == last.fAddress; }
    }
  }

  lemma NewFromRows<X>(init: seq<Address<X>>, last: Address<X>, d: seq<Address<X>>)
    requires FromRows(init, d)
    ensures FromRows(init + [last], d + [last])
  {
    var rows, r := init + [last], d + [last];
    forall i | 0 <= i < |r| ensures r[i] in rows {
      if i < |d| {
        var k :| 0 <= k < |init| && init[k] == d[i];
        assert r[i] == d[i] && rows[k] == init[k];
      } else {
        assert rows[|init|] == last;
      }
    }
  }

  lemma NewKeepsFirsts<X>(init: seq<Address<X>>, last: Address<X>, d: seq<Address<X>>)
    requires KeepsFirsts(init, d)
    ensures KeepsFirsts(init + [last], d + [last])
  {
    var rows, r := init + [last], d + [last];
    forall j | 0 <= j < |rows| && IsFirst(rows, j) ensures rows[j] in r {
      if j == |init| {
        assert r[|d|] == last;
      } else {
        assert forall k :: 0 <= k < |init| ==> rows[k] == init[k];
        assert IsFirst(init, j);
        var i :| 0 <= i < |d| && d[i] == init[j];
        assert r[i] == d[i];
      }
    }
  }

  // ---------------------------------------------------------------------------
  // The pipeline
  // ---------------------------------------------------------------------------

  /** A row after the street and building steps, with its key. */
  function Normalized<X>(row: Row<X>, prefixes: seq<string>, table: Dict): (a: Address<X>)
    ensures a.teryt == row.teryt && a.town == row.town && a.other == row.other
    ensures a.fAddress == FAddress(a.teryt, a.town, a.street, a.building)
  {
    var street := NormalizeStreet(row.street, row.town, prefixes, table);
    var building := NormalizeBuilding(row.building);
    Address(row.teryt, row.town, street, building, FAddress(row.teryt, row.town, street, building), row.other)
  }

  /** Lines 12 to 33 of `process_addresses`: the street column, one step at a time. */
  method NormalizeStreetColumn<X>(rows: seq<Row<X>>, prefixes: seq<string>, table: Dict) returns (streets: seq<string>)
    ensures |streets| == |rows|
    ensures forall i :: 0 <= i < |rows| ==> streets[i] == NormalizeStreet(rows[i].street, rows[i].town, prefixes, table)
  {
    var n := |rows|;
    streets := CleanStreetColumn(rows, prefixes);
    streets := ReplaceColumn(streets, table);
    streets := seq(n, i requires 0 <= i < n => RemoveRepeatedFirstWord(streets[i]));
  }

  /** Lines 12 to 26: the street column before the replacement table. */
  method CleanStreetColumn<X>(rows: seq<Row<X>>, prefixes: seq<string>) returns (streets: seq<string>)
    ensures |streets| == |rows|
    ensures forall i :: 0 <= i < |rows| ==>
      streets[i] == Capitalize(NormalizeSpaces(StripStreetPrefix(FillStreet(rows[i].street, rows[i].town), prefixes)))
  {
    var n := |rows|;
    streets := seq(n, i requires 0 <= i < n => FillStreet(rows[i].street, rows[i].town));
    streets := seq(n, i requires 0 <= i < n => StripStreetPrefix(streets[i], prefixes));
    streets := seq(n, i requires 0 <= i < n => NormalizeSpaces(streets[i]));
    streets := seq(n, i requires 0 <= i < n => Capitalize(streets[i]));
  }

  /** Lines 30 and 31: the loop over the replacement table, one column pass per entry. */
  method ReplaceColumn(column: seq<string>, table: Dict) returns (out: seq<string>)
    ensures |out| == |column|
    ensures forall i :: 0 <= i < |column| ==> out[i] == ApplyReplacements(column[i], table)
  {
    var n := |column|;
    out := column;
    var k := 0;
    assert table[k..] == table;
    while k < |table|
      invariant 0 <= k <= |table|
      invariant |out| == n
      invariant forall i :: 0 <= i < n ==> ApplyReplacements(column[i], table) == ApplyReplacements(out[i], table[k..])
    {
      var search := table[k].0;
      var replacement := table[k].1;
      var next := seq(n, i requires 0 <= i < n => ReplaceAllIgnoreCase(out[i], search, replacement));
      forall i | 0 <= i < n
        ensures ApplyReplacements(out[i], table[k..]) == ApplyReplacements(next[i], table[k + 1..])
      {
        ApplyReplacementsStep(out[i], table, k);
      }
      out := next;
      k := k + 1;
    }
    assert table[k..] == [];
  }

  /** Lines 37 to 42 of `process_addresses`: the building column, one step at a time. */
  method NormalizeBuildingColumn<X>(rows: seq<Row<X>>) returns (buildings: seq<string>)
    ensures |buildings| == |rows|
    ensures forall i :: 0 <= i < |rows| ==> buildings[i] == NormalizeBuilding(rows[i].building)
  {
    var n := |rows|;
    buildings := seq(n, i requires 0 <= i < n => Lower(rows[i].building));
    buildings := seq(n, i requires 0 <= i < n => JoinTrailingSuffix(buildings[i]));
    buildings := seq(n, i requires 0 <= i < n => MultiNumberCut(buildings[i]));
    buildings := seq(n, i requires 0 <= i < n => DropComment(buildings[i]));
  }

  /** Every row normalised, in order. */
  function NormalizedAll<X>(rows: seq<Row<X>>, prefixes: seq<string>, table: Dict): seq<Address<X>>
  {
    seq(|rows|, i requires 0 <= i < |rows| => Normalized(rows[i], prefixes, table))
  }

  /**
   * `process_addresses(df, is_address)`, given the lines of
   * `street_prefixes.txt` and of `street_replacements.csv`. The street column
   * and then the building column are rewritten step by step; a replacement
   * table with a line lacking ";" raises, which is the `Err` result.
   */
  method ProcessAddresses<X>(rows: seq<Row<X>>, prefixLines: seq<string>, replacementLines: seq<string>, isAddress: bool)
    returns (r: Result<seq<Address<X>>, string>)
    ensures r.Err? <==> ParseReplacements(replacementLines).Err?
    ensures r.Ok? ==>
      var all := NormalizedAll(rows, PrefixPatterns(prefixLines), ParseReplacements(replacementLines).value);
      r.value == if isAddress then DropDuplicates(all) else all
    ensures r.Ok? && isAddress ==> UniqueKeys(r.value)
    ensures r.Ok? && !isAddress ==> |r.value| == |rows|
  {
    var parsed := ParseReplacements(replacementLines);
    if parsed.Err? {
      return Err(parsed.error);
    }
    var prefixes := PrefixPatterns(prefixLines);
    var streets := NormalizeStreetColumn(rows, prefixes, parsed.value);
    var buildings := NormalizeBuildingColumn(rows);
    var n := |rows|;
    var out := seq(n, i requires 0 <= i < n =>
      Address(rows[i].teryt, rows[i].town, streets[i], buildings[i],
              FAddress(rows[i].teryt, rows[i].town, streets[i], buildings[i]), rows[i].other));
    assert out == NormalizedAll(rows, prefixes, parsed.value);
    if isAddress {
      out := DropDuplicates(out);
    }
    return Ok(out);
  }
}
