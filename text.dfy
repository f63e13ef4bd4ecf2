/**
 * The pieces of Python's `str` methods and `re` character classes that the
 * scripts rely on, written out for the characters the data uses.
 *
 * `\s` and `str.strip()`/`str.isspace()` share one whitespace class, `\d` is an
 * ASCII digit and `\w` is an ASCII letter or digit, `_`, or a letter of the
 * Latin-1 and Latin Extended-A/B blocks (which holds every Polish letter).
 * `str.lower()`/`str.upper()` map ASCII, Latin-1 and the Polish letters.
 */
module Text {
  import opened Wrappers

  // ---------------------------------------------------------------------------
  // Character classes
  // ---------------------------------------------------------------------------

  /** Python's whitespace: regex `\s` on `str` and `str.isspace()`. */
  predicate IsSpace(c: char)
  {
    || c == ' ' || ('\t' <= c <= '\r') || ('\U{1C}' <= c <= '\U{1F}')
    || c == '\U{85}' || c == '\U{A0}' || c == '\U{1680}'
    || ('\U{2000}' <= c <= '\U{200A}') || c == '\U{2028}' || c == '\U{2029}'
    || c == '\U{202F}' || c == '\U{205F}' || c == '\U{3000}'
  }

  /** Regex `\d`. */
  predicate IsDigit(c: char)
  {
    '0' <= c <= '9'
  }

  /** Regex `\w`. */
  predicate IsWordChar(c: char)
  {
    || IsDigit(c) || ('a' <= c <= 'z') || ('A' <= c <= 'Z') || c == '_'
    || ('\U{C0}' <= c <= '\U{24F}' && c != '\U{D7}' && c != '\U{F7}')
  }

  predicate AllWordChars(s: string)
  {
    forall i :: 0 <= i < |s| ==> IsWordChar(s[i])
  }

  predicate AllDigits(s: string)
  {
    forall i :: 0 <= i < |s| ==> IsDigit(s[i])
  }

  predicate NoSpaces(s: string)
  {
    forall i :: 0 <= i < |s| ==> !IsSpace(s[i])
  }

  lemma SpaceIsNotWordChar(c: char)
    ensures IsSpace(c) ==> !IsWordChar(c)
  {
  }

  /** The length of the run of whitespace that starts `s`. */
  function SpaceLen(s: string): (n: nat)
    ensures n <= |s| && (forall i :: 0 <= i < n ==> IsSpace(s[i])) && (n == |s| || !IsSpace(s[n]))
  {
    if s != [] && IsSpace(s[0]) then 1 + SpaceLen(s[1..]) else 0
  }

  /** A whitespace run followed by a non-space has exactly its own length. */
  lemma {:induction false} SpaceLenOf(ws: string, t: string)
    requires (forall i :: 0 <= i < |ws| ==> IsSpace(ws[i])) && (t == [] || !IsSpace(t[0]))
    ensures SpaceLen(ws + t) == |ws|
    decreases |ws|
  {
    if ws != [] {
      assert (ws + t)[1..] == ws[1..] + t;
      SpaceLenOf(ws[1..], t);
    } else {
      assert ws + t == t;
    }
  }

  // ---------------------------------------------------------------------------
  // Case mapping
  // ---------------------------------------------------------------------------

  /** The lower-case partner of an upper-case Polish letter outside Latin-1. */
  function PolishLower(c: char): char
  {
    match c
    case 'Ą' => 'ą'
    case 'Ć' => 'ć'
    case 'Ę' => 'ę'
    case 'Ł' => 'ł'
    case 'Ń' => 'ń'
    case 'Ś' => 'ś'
    case 'Ź' => 'ź'
    case 'Ż' => 'ż'
    case _ => c
  }

  function PolishUpper(c: char): char
  {
    match c
    case 'ą' => 'Ą'
    case 'ć' => 'Ć'
    case 'ę' => 'Ę'
    case 'ł' => 'Ł'
    case 'ń' => 'Ń'
    case 'ś' => 'Ś'
    case 'ź' => 'Ź'
    case 'ż' => 'Ż'
    case _ => c
  }

  predicate IsUpper(c: char)
  {
    || ('A' <= c <= 'Z') || ('\U{C0}' <= c <= '\U{DE}' && c != '\U{D7}')
    || PolishLower(c) != c
  }

  predicate IsLower(c: char)
  {
    || ('a' <= c <= 'z') || ('\U{E0}' <= c <= '\U{FE}' && c != '\U{F7}')
    || PolishUpper(c) != c
  }

  /** `str.lower()` on one character. */
  function ToLower(c: char): (l: char)
    ensures IsUpper(c) ==> IsLower(l)
    ensures !IsUpper(c) ==> l == c
  {
    if 'A' <= c <= 'Z' || ('\U{C0}' <= c <= '\U{DE}' && c != '\U{D7}') then (c as int + 32) as char
    else PolishLower(c)
  }

  /** `str.upper()` on one character. */
  function ToUpper(c: char): (u: char)
    ensures IsLower(c) ==> IsUpper(u)
    ensures !IsLower(c) ==> u == c
  {
    if 'a' <= c <= 'z' || ('\U{E0}' <= c <= '\U{FE}' && c != '\U{F7}') then (c as int - 32) as char
    else PolishUpper(c)
  }

  lemma UpperLowerDisjoint(c: char)
    ensures !(IsUpper(c) && IsLower(c))
  {
  }

  lemma ToUpperIdempotent(c: char)
    ensures ToUpper(ToUpper(c)) == ToUpper(c)
  {
    UpperLowerDisjoint(ToUpper(c));
  }

  lemma ToLowerIdempotent(c: char)
    ensures ToLower(ToLower(c)) == ToLower(c)
  {
    UpperLowerDisjoint(ToLower(c));
  }

  /** `str.lower()`. */
  function Lower(s: string): (r: string)
    ensures |r| == |s|
    ensures forall i :: 0 <= i < |s| ==> r[i] == ToLower(s[i])
  {
    seq(|s|, i requires 0 <= i < |s| => ToLower(s[i]))
  }

  /** Two characters match under `re.IGNORECASE`. */
  predicate CiEq(a: char, b: char)
  {
    ToLower(a) == ToLower(b)
  }

  /** Only `d` itself equals, up to case, a character `d` that has no case. */
  lemma CiEqNonLetter(c: char, d: char)
    requires CiEq(c, d) && !IsUpper(d) && !IsLower(d)
    ensures c == d
  {
  }

  // ---------------------------------------------------------------------------
  // Stripping and whitespace runs
  // ---------------------------------------------------------------------------

  /** `str.lstrip()`: drops the leading whitespace run. */
  function LStrip(s: string): (r: string)
    ensures |r| <= |s|
    ensures forall i :: 0 <= i < |s| - |r| ==> IsSpace(s[i])
    ensures r == [] || !IsSpace(r[0])
  {
    if s != [] && IsSpace(s[0]) then LStrip(s[1..]) else s
  }

  /**
   * What `LStrip` leaves is a suffix of its input. Kept apart from the
   * function's contract: with `r` inside the slice `s[|s| - |r|..]` and `s`
   * built from `r`, every index into `r` yields another one.
   */
  lemma {:induction false} LStripIsSuffix(s: string)
    ensures LStrip(s) == s[|s| - |LStrip(s)|..]
    decreases |s|
  {
    if s != [] && IsSpace(s[0]) {
      LStripIsSuffix(s[1..]);
      assert s[1..][|s| - 1 - |LStrip(s[1..])|..] == s[|s| - |LStrip(s)|..];
    }
  }

  /** A character absent from the input is absent after `LStrip`. */
  lemma LStripKeepsOut(s: string, c: char)
    requires c !in s
    ensures c !in LStrip(s)
  {
    LStripIsSuffix(s);
  }

  /** `str.rstrip()`: drops the trailing whitespace run. */
  function RStrip(s: string): (r: string)
    ensures |r| <= |s| && r == s[..|r|]
    ensures forall i :: |r| <= i < |s| ==> IsSpace(s[i])
    ensures r == [] || !IsSpace(r[|r| - 1])
  {
    if s != [] && IsSpace(s[|s| - 1]) then
      var r := RStrip(s[..|s| - 1]);
      assert s[..|s| - 1][..|r|] == s[..|r|];
      r
    else s
  }

  /**
   * `str.strip()`: the input with its leading and its trailing whitespace run
   * removed, and nothing else.
   */
  function Strip(s: string): (r: string)
    ensures r == [] || (!IsSpace(r[0]) && !IsSpace(r[|r| - 1]))
  {
    var l := LStrip(s);
    var r := RStrip(l);
    assert r != [] ==> r[0] == l[0];
    r
  }

  /** `Strip` removes a leading and a trailing whitespace run and nothing else. */
  lemma StripTrims(s: string)
    ensures exists k :: TrimmedAt(s, Strip(s), k)
  {
    var l := LStrip(s);
    LStripIsSuffix(s);
    StripsTrim(s, |s| - |l|, l);
    assert Strip(s) == RStrip(l);
    assert TrimmedAt(s, Strip(s), |s| - |l|);
  }

  lemma StripsTrim(s: string, k: nat, l: string)
    requires k <= |s| && l == s[k..]
    requires forall i :: 0 <= i < k ==> IsSpace(s[i])
    ensures TrimmedAt(s, RStrip(l), k)
  {
    var r := RStrip(l);
    assert r == s[k..k + |r|];
    forall i | k + |r| <= i < |s|
      ensures IsSpace(s[i])
    {
      assert s[i] == l[i - k];
    }
  }

  /** `r` is `s` without its first `k` characters and a tail, all of them whitespace. */
  predicate TrimmedAt(s: string, r: string, k: int)
  {
    0 <= k <= |s| - |r| && r == s[k..k + |r|]
    && (forall i :: 0 <= i < k ==> IsSpace(s[i]))
    && (forall i :: k + |r| <= i < |s| ==> IsSpace(s[i]))
  }

  lemma {:induction false} LStripOfNonSpace(s: string)
    requires s == [] || !IsSpace(s[0])
    ensures LStrip(s) == s
  {
  }

  lemma {:induction false} RStripOfNonSpace(s: string)
    requires s == [] || !IsSpace(s[|s| - 1])
    ensures RStrip(s) == s
  {
  }

  /** Stripping a second time changes nothing. */
  lemma StripIdempotent(s: string)
    ensures Strip(Strip(s)) == Strip(s)
  {
    var r := Strip(s);
    LStripOfNonSpace(r);
    RStripOfNonSpace(r);
  }

  /**
   * `re.sub(r"\s+", " ", s)`: every maximal whitespace run becomes one blank.
   * The result keeps every other character, in order.
   */
  function CollapseSpaces(s: string): (r: string)
    ensures (r == []) == (s == [])
    ensures r != [] ==> (IsSpace(r[0]) <==> IsSpace(s[0]))
    ensures r != [] ==> (IsSpace(r[|r| - 1]) <==> IsSpace(s[|s| - 1]))
    decreases |s|
  {
    if s == [] then []
    else if IsSpace(s[0]) then
      var rest := LStrip(s);
      LStripIsSuffix(s);
      " " + CollapseSpaces(rest)
    else [s[0]] + CollapseSpaces(s[1..])
  }

  /** Every whitespace character is a blank, and no two of them are adjacent. */
  predicate Collapsed(r: string)
  {
    (forall i :: 0 <= i < |r| && IsSpace(r[i]) ==> r[i] == ' ')
    && (forall i :: 0 <= i < |r| - 1 ==> !IsSpace(r[i]) || !IsSpace(r[i + 1]))
  }

  /** The result of collapsing holds only single blanks as whitespace. */
  lemma {:induction false} CollapseIsCollapsed(s: string)
    ensures Collapsed(CollapseSpaces(s))
    decreases |s|
  {
    if s == [] {
    } else if IsSpace(s[0]) {
      var rest := LStrip(s);
      CollapseIsCollapsed(rest);
      CollapsedCons(' ', CollapseSpaces(rest));
      assert CollapseSpaces(s) == [' '] + CollapseSpaces(rest);
    } else {
      CollapseIsCollapsed(s[1..]);
      CollapsedCons(s[0], CollapseSpaces(s[1..]));
    }
  }

  lemma CollapsedCons(c: char, x: string)
    requires Collapsed(x)
    requires IsSpace(c) ==> c == ' ' && (x == [] || !IsSpace(x[0]))
    ensures Collapsed([c] + x)
  {
    var r := [c] + x;
    assert forall i :: 0 < i < |r| ==> r[i] == x[i - 1];
  }

  /** The characters of `s` that are not whitespace. */
  function NonSpaces(s: string): string
  {
    if s == [] then [] else (if IsSpace(s[0]) then [] else [s[0]]) + NonSpaces(s[1..])
  }

  lemma {:induction false} NonSpacesOfSpaces(s: string, k: nat)
    requires k <= |s|
    requires forall i :: 0 <= i < k ==> IsSpace(s[i])
    ensures NonSpaces(s) == NonSpaces(s[k..])
    decreases k
  {
    if k > 0 {
      NonSpacesOfSpaces(s[1..], k - 1);
      assert s[1..][k - 1..] == s[k..];
    }
  }

  lemma {:induction false} NonSpacesOfConcat(a: string, b: string)
    ensures NonSpaces(a + b) == NonSpaces(a) + NonSpaces(b)
    decreases |a|
  {
    if a != [] {
      assert (a + b)[1..] == a[1..] + b;
      NonSpacesOfConcat(a[1..], b);
    } else {
      assert a + b == b;
    }
  }

  /** Collapsing whitespace keeps exactly the non-whitespace characters. */
  lemma {:induction false} CollapseKeepsNonSpaces(s: string)
    ensures NonSpaces(CollapseSpaces(s)) == NonSpaces(s)
    decreases |s|
  {
    if s == [] {
    } else if IsSpace(s[0]) {
      var rest := LStrip(s);
      CollapseKeepsNonSpaces(rest);
      NonSpacesOfSpaces(s, |s| - |rest|);
      LStripIsSuffix(s);
      assert (" " + CollapseSpaces(rest))[1..] == CollapseSpaces(rest);
    } else {
      CollapseKeepsNonSpaces(s[1..]);
      assert ([s[0]] + CollapseSpaces(s[1..]))[1..] == CollapseSpaces(s[1..]);
    }
  }

  /** `s` with no leading whitespace, followed by a non-empty whitespace run. */
  lemma {:induction false} LStripOfRun(w: string, b: string)
    requires forall i :: 0 <= i < |w| ==> IsSpace(w[i])
    requires b == [] || !IsSpace(b[0])
    ensures LStrip(w + b) == b
    decreases |w|
  {
    if w == [] {
      assert w + b == b;
      LStripOfNonSpace(b);
    } else {
      assert (w + b)[1..] == w[1..] + b;
      LStripOfRun(w[1..], b);
    }
  }

  /** A whitespace run after text ending in a non-space is stripped on the right. */
  lemma {:induction false} RStripOfRun(a: string, w: string)
    requires a == [] || !IsSpace(a[|a| - 1])
    requires forall i :: 0 <= i < |w| ==> IsSpace(w[i])
    ensures RStrip(a + w) == a
    decreases |w|
  {
    if w == [] {
      assert a + w == a;
      RStripOfNonSpace(a);
    } else {
      var w' := w[..|w| - 1];
      assert (a + w)[..|a + w| - 1] == a + w';
      RStripOfRun(a, w');
    }
  }

  /** Leading whitespace of `a` is stripped the same with text appended after it. */
  lemma {:induction false} LStripOfConcat(a: string, t: string)
    requires a != [] && !IsSpace(a[|a| - 1])
    ensures LStrip(a + t) == LStrip(a) + t
    decreases |a|
  {
    if IsSpace(a[0]) {
      assert (a + t)[1..] == a[1..] + t;
      LStripOfConcat(a[1..], t);
    }
  }

  /**
   * One whitespace run between two stretches of text becomes one blank: the
   * text before it and the text after it collapse on their own.
   */
  lemma {:induction false} CollapseRun(a: string, w: string, b: string)
    requires a == [] || !IsSpace(a[|a| - 1])
    requires w != [] && forall i :: 0 <= i < |w| ==> IsSpace(w[i])
    requires b == [] || !IsSpace(b[0])
    ensures CollapseSpaces(a + w + b) == CollapseSpaces(a) + " " + CollapseSpaces(b)
    decreases |a|
  {
    if a == [] {
      LStripOfRun(w, b);
      CollapseLeadingRun(a, w, b);
    } else if IsSpace(a[0]) {
      LStripKeepsLast(a);
      CollapseRun(LStrip(a), w, b);
      CollapseRunLeadingSpace(a, w, b);
    } else {
      TailKeepsLast(a);
      CollapseRun(a[1..], w, b);
      CollapseRunLeadingWord(a, w, b);
    }
  }

  lemma CollapseLeadingRun(a: string, w: string, b: string)
    requires a == [] && w != [] && IsSpace(w[0]) && LStrip(w + b) == b
    ensures CollapseSpaces(a + w + b) == CollapseSpaces(a) + " " + CollapseSpaces(b)
  {
    CollapseAfterRun(w, b);
    assert a + w + b == w + b;
    assert CollapseSpaces(a) + " " == " ";
  }

  /** A leading whitespace run becomes one blank. */
  lemma CollapseAfterRun(w: string, b: string)
    requires w != [] && IsSpace(w[0]) && LStrip(w + b) == b
    ensures CollapseSpaces(w + b) == " " + CollapseSpaces(b)
  {
    assert (w + b)[0] == w[0];
  }

  lemma LStripKeepsLast(a: string)
    requires a != [] && IsSpace(a[0]) && !IsSpace(a[|a| - 1])
    ensures var l := LStrip(a); l != [] && |l| < |a| && !IsSpace(l[|l| - 1])
  {
    var l := LStrip(a);
    LStripIsSuffix(a);
    assert l != [] && l[|l| - 1] == a[|a| - 1];
  }

  lemma TailKeepsLast(a: string)
    requires a != [] && !IsSpace(a[|a| - 1])
    ensures a[1..] == [] || !IsSpace(a[1..][|a[1..]| - 1])
  {
  }

  lemma CollapseRunLeadingSpace(a: string, w: string, b: string)
    requires a != [] && IsSpace(a[0]) && !IsSpace(a[|a| - 1])
    requires CollapseSpaces(LStrip(a) + w + b) == CollapseSpaces(LStrip(a)) + " " + CollapseSpaces(b)
    ensures CollapseSpaces(a + w + b) == CollapseSpaces(a) + " " + CollapseSpaces(b)
  {
    var l := LStrip(a);
    var x := CollapseSpaces(l);
    var y := CollapseSpaces(b);
    ConcatAssoc(a, w, b);
    LStripOfConcat(a, w + b);
    ConcatAssoc(l, w, b);
    calc {
      CollapseSpaces(a + w + b);
      " " + CollapseSpaces(l + w + b);
      " " + (x + " " + y);
      { ConcatAssoc(" ", x, " " + y); ConcatAssoc(" " + x, " ", y); ConcatAssoc(x, " ", y); }
      " " + x + " " + y;
      CollapseSpaces(a) + " " + y;
    }
  }

  lemma CollapseRunLeadingWord(a: string, w: string, b: string)
    requires a != [] && !IsSpace(a[0])
    requires CollapseSpaces(a[1..] + w + b) == CollapseSpaces(a[1..]) + " " + CollapseSpaces(b)
    ensures CollapseSpaces(a + w + b) == CollapseSpaces(a) + " " + CollapseSpaces(b)
  {
    var x := CollapseSpaces(a[1..]);
    var y := CollapseSpaces(b);
    TailOfConcat(a, w + b);
    ConcatAssoc(a, w, b);
    ConcatAssoc(a[1..], w, b);
    calc {
      CollapseSpaces(a + w + b);
      [a[0]] + CollapseSpaces(a[1..] + w + b);
      [a[0]] + (x + " " + y);
      { ConcatAssoc([a[0]], x, " " + y); ConcatAssoc([a[0]] + x, " ", y); ConcatAssoc(x, " ", y); }
      [a[0]] + x + " " + y;
      CollapseSpaces(a) + " " + y;
    }
  }

  lemma ConcatAssoc(x: string, y: string, z: string)
    ensures x + (y + z) == x + y + z
  {
  }

  lemma TailOfConcat(x: string, y: string)
    requires x != []
    ensures (x + y)[0] == x[0] && (x + y)[1..] == x[1..] + y
  {
  }

  /** Text without whitespace collapses to itself. */
  lemma {:induction false} CollapseNoSpace(s: string)
    requires forall i :: 0 <= i < |s| ==> !IsSpace(s[i])
    ensures CollapseSpaces(s) == s
  {
    CollapseOfCollapsed(s);
  }

  /** A string already free of whitespace runs and other whitespace is a fixed point. */
  lemma {:induction false} CollapseOfCollapsed(s: string)
    requires Collapsed(s)
    ensures CollapseSpaces(s) == s
    decreases |s|
  {
    if s != [] {
      var t := s[1..];
      assert Collapsed(t);
      CollapseOfCollapsed(t);
      if IsSpace(s[0]) {
        assert s[0] == ' ' && (t == [] || !IsSpace(t[0]));
        assert LStrip(s) == t by {
          LStripOfNonSpace(t);
        }
        calc {
          CollapseSpaces(s);
          " " + CollapseSpaces(t);
          " " + t;
          [s[0]] + t;
          s;
        }
      } else {
        calc {
          CollapseSpaces(s);
          [s[0]] + CollapseSpaces(t);
          [s[0]] + t;
          s;
        }
      }
    }
  }

  /** Collapsing whitespace twice is collapsing it once. */
  lemma CollapseIdempotent(s: string)
    ensures CollapseSpaces(CollapseSpaces(s)) == CollapseSpaces(s)
  {
    CollapseIsCollapsed(s);
    CollapseOfCollapsed(CollapseSpaces(s));
  }

  // ---------------------------------------------------------------------------
  // Splitting and joining
  // ---------------------------------------------------------------------------

  /** `sep.join(words)`. */
  function Join(words: seq<string>, sep: string): string
  {
    if |words| == 0 then ""
    else if |words| == 1 then words[0]
    else words[0] + sep + Join(words[1..], sep)
  }

  /** `s.split(sep)` for a one-character separator. */
  function Split(s: string, sep: char): (r: seq<string>)
    ensures |r| >= 1
    ensures forall k :: 0 <= k < |r| ==> sep !in r[k]
    ensures Join(r, [sep]) == s
    decreases |s|
  {
    if s == [] then [[]]
    else
      var rest := Split(s[1..], sep);
      if s[0] == sep then
        assert Join([[]] + rest, [sep]) == [] + [sep] + Join(rest, [sep]) by {
          assert ([[]] + rest)[1..] == rest;
        }
        [[]] + rest
      else
        var r := [[s[0]] + rest[0]] + rest[1..];
        assert Join(r, [sep]) == [s[0]] + Join(rest, [sep]) by {
          if |rest| > 1 { assert r[1..] == rest[1..]; }
        }
        r
  }

  /** Every whitespace character of `s` turned into a blank. */
  function Blanked(s: string): (r: string)
    ensures |r| == |s|
    ensures forall i :: 0 <= i < |s| ==> r[i] == if IsSpace(s[i]) then ' ' else s[i]
  {
    seq(|s|, i requires 0 <= i < |s| => if IsSpace(s[i]) then ' ' else s[i])
  }

  /**
   * `re.split(r"\s", s)`: a cut at every single whitespace character, so a run
   * of n whitespace characters leaves n - 1 empty words.
   */
  function SplitSpaces(s: string): (r: seq<string>)
    ensures |r| >= 1
    ensures forall k :: 0 <= k < |r| ==> NoSpaces(r[k])
    ensures Join(r, " ") == Blanked(s)
    decreases |s|
  {
    if s == [] then [[]]
    else
      var rest := SplitSpaces(s[1..]);
      BlankedCons(s);
      if IsSpace(s[0]) then
        JoinBlankHead(rest);
        [[]] + rest
      else
        JoinWordHead(s[0], rest);
        [[s[0]] + rest[0]] + rest[1..]
  }

  lemma BlankedCons(s: string)
    requires s != []
    ensures Blanked(s) == [if IsSpace(s[0]) then ' ' else s[0]] + Blanked(s[1..])
  {
  }

  lemma JoinBlankHead(rest: seq<string>)
    requires |rest| >= 1
    ensures Join([[]] + rest, " ") == " " + Join(rest, " ")
  {
    assert ([[]] + rest)[1..] == rest;
  }

  lemma JoinWordHead(c: char, rest: seq<string>)
    requires |rest| >= 1
    ensures var r := [[c] + rest[0]] + rest[1..];
      Join(r, " ") == [c] + Join(rest, " ")
  {
    var r := [[c] + rest[0]] + rest[1..];
    if |rest| > 1 {
      var j := Join(rest[1..], " ");
      calc {
        Join(r, " ");
        r[0] + " " + Join(r[1..], " ");
        { assert r[1..] == rest[1..]; }
        ([c] + rest[0]) + " " + j;
        { ConcatAssoc([c] + rest[0], " ", j); ConcatAssoc([c], rest[0], " " + j); ConcatAssoc(rest[0], " ", j); }
        [c] + (rest[0] + " " + j);
        [c] + Join(rest, " ");
      }
    } else {
      assert r == [[c] + rest[0]];
    }
  }

  // ---------------------------------------------------------------------------
  // Literal replacement
  // ---------------------------------------------------------------------------

  /** `pat` occurs in `s` at position `i`. */
  predicate OccursAt(s: string, i: nat, pat: string)
  {
    i + |pat| <= |s| && s[i..i + |pat|] == pat
  }

  /** `pat` occurs in `s` at position `i`, up to case. */
  predicate CiOccursAt(s: string, i: nat, pat: string)
  {
    i + |pat| <= |s| && forall k :: 0 <= k < |pat| ==> CiEq(s[i + k], pat[k])
  }

  /** An occurrence of `pat` at `i`: exact, or up to case when `ci`. */
  predicate MatchAt(s: string, i: nat, pat: string, ci: bool)
  {
    if ci then CiOccursAt(s, i, pat) else OccursAt(s, i, pat)
  }

  /** Python inserts the replacement around every character for an empty pattern. */
  function InsertEverywhere(s: string, rep: string): (r: string)
    ensures |r| == |s| + (|s| + 1) * |rep|
  {
    if s == [] then rep else rep + [s[0]] + InsertEverywhere(s[1..], rep)
  }

  /**
   * The left-to-right scan of a literal substitution from position `i`: an
   * occurrence at `i` is replaced and the scan resumes after it, so matches
   * never overlap; otherwise `s[i]` is copied.
   */
  function ReplaceScan(s: string, pat: string, rep: string, ci: bool, i: nat): string
    requires pat != [] && i <= |s|
    decreases |s| - i
  {
    if i == |s| then []
    else if MatchAt(s, i, pat, ci) then rep + ReplaceScan(s, pat, rep, ci, i + |pat|)
    else [s[i]] + ReplaceScan(s, pat, rep, ci, i + 1)
  }

  /**
   * `s.replace(pat, rep)`: every occurrence, left to right and without overlap.
   * With no occurrence the string is unchanged; replacing a character by a
   * string that does not hold it leaves no copy of that character.
   */
  function ReplaceAll(s: string, pat: string, rep: string): (r: string)
    ensures pat != [] && (forall i :: 0 <= i < |s| ==> !OccursAt(s, i, pat)) ==> r == s
    ensures |pat| == 1 && pat[0] !in rep ==> pat[0] !in r
  {
    if pat == [] then InsertEverywhere(s, rep)
    else
      ReplaceScanNone(s, pat, rep, false, 0);
      ReplaceScanKeepsOut(s, pat, rep, 0);
      assert s[0..] == s;
      ReplaceScan(s, pat, rep, false, 0)
  }

  /**
   * `re.sub(re.escape(pat), rep, s, flags=re.IGNORECASE)`: the literal pattern
   * matched up to case, every occurrence left to right and without overlap.
   */
  function ReplaceAllIgnoreCase(s: string, pat: string, rep: string): (r: string)
    ensures pat != [] && (forall i :: 0 <= i < |s| ==> !CiOccursAt(s, i, pat)) ==> r == s
  {
    if pat == [] then InsertEverywhere(s, rep)
    else
      ReplaceScanNone(s, pat, rep, true, 0);
      assert s[0..] == s;
      ReplaceScan(s, pat, rep, true, 0)
  }

  /** Without an occurrence from `i` on, the scan copies the rest of the text. */
  lemma {:induction false} ReplaceScanNone(s: string, pat: string, rep: string, ci: bool, i: nat)
    requires pat != [] && i <= |s|
    ensures (forall k :: i <= k < |s| ==> !MatchAt(s, k, pat, ci)) ==> ReplaceScan(s, pat, rep, ci, i) == s[i..]
    decreases |s| - i
  {
    if i < |s| && forall k :: i <= k < |s| ==> !MatchAt(s, k, pat, ci) {
      ReplaceScanNone(s, pat, rep, ci, i + 1);
      assert s[i..] == [s[i]] + s[i + 1..];
    }
  }

  /** A one-character pattern absent from the replacement is absent from the result. */
  lemma {:induction false} ReplaceScanKeepsOut(s: string, pat: string, rep: string, i: nat)
    requires pat != [] && i <= |s|
    ensures |pat| == 1 && pat[0] !in rep ==> pat[0] !in ReplaceScan(s, pat, rep, false, i)
    decreases |s| - i
  {
    if i < |s| {
      if OccursAt(s, i, pat) {
        ReplaceScanKeepsOut(s, pat, rep, i + |pat|);
      } else {
        ReplaceScanKeepsOut(s, pat, rep, i + 1);
        if |pat| == 1 {
          assert pat == [pat[0]];
          assert s[i..i + 1] == [s[i]];
        }
      }
    }
  }

  /** A match in a suffix of `s` is a match in `s` at the shifted position. */
  lemma MatchAtShift(s: string, k: nat, m: nat, pat: string, ci: bool)
    requires k + m <= |s|
    ensures MatchAt(s[k..], m, pat, ci) <==> MatchAt(s, k + m, pat, ci)
  {
    var t := s[k..];
    if k + m + |pat| <= |s| {
      assert t[m..m + |pat|] == s[k + m..k + m + |pat|];
    }
  }

  /** Scanning `s` from `k + m` is scanning its suffix `s[k..]` from `m`. */
  lemma {:induction false} ReplaceScanShift(s: string, pat: string, rep: string, ci: bool, k: nat, m: nat)
    requires pat != [] && k + m <= |s|
    ensures ReplaceScan(s, pat, rep, ci, k + m) == ReplaceScan(s[k..], pat, rep, ci, m)
    decreases |s| - k - m
  {
    if k + m < |s| {
      MatchAtShift(s, k, m, pat, ci);
      assert s[k..][m] == s[k + m];
      if MatchAt(s, k + m, pat, ci) {
        ReplaceScanShift(s, pat, rep, ci, k, m + |pat|);
      } else {
        ReplaceScanShift(s, pat, rep, ci, k, m + 1);
      }
    }
  }

  /**
   * The scan from `i` copies the text up to the first occurrence at `j`,
   * writes the replacement and resumes after the occurrence.
   */
  lemma {:induction false} ReplaceScanFirst(s: string, pat: string, rep: string, ci: bool, i: nat, j: nat)
    requires pat != [] && i <= j && MatchAt(s, j, pat, ci)
    requires forall k :: i <= k < j ==> !MatchAt(s, k, pat, ci)
    ensures ReplaceScan(s, pat, rep, ci, i) == s[i..j] + rep + ReplaceScan(s, pat, rep, ci, j + |pat|)
    decreases j - i
  {
    if i < j {
      ReplaceScanFirst(s, pat, rep, ci, i + 1, j);
      ConsSlice(s, i, j, rep, ReplaceScan(s, pat, rep, ci, j + |pat|));
    } else {
      assert s[i..j] == [];
    }
  }

  lemma ConsSlice(s: string, i: nat, j: nat, x: string, y: string)
    requires i < j <= |s|
    ensures [s[i]] + (s[i + 1..j] + x + y) == s[i..j] + x + y
  {
    assert [s[i]] + s[i + 1..j] == s[i..j];
  }

  /** The whole scan around its first occurrence, at `j`. */
  lemma ReplaceScanCut(s: string, pat: string, rep: string, ci: bool, j: nat)
    requires pat != [] && MatchAt(s, j, pat, ci)
    requires forall k :: 0 <= k < j ==> !MatchAt(s, k, pat, ci)
    ensures ReplaceScan(s, pat, rep, ci, 0) == s[..j] + rep + ReplaceScan(s[j + |pat|..], pat, rep, ci, 0)
  {
    ReplaceScanFirst(s, pat, rep, ci, 0, j);
    ReplaceScanShift(s, pat, rep, ci, j + |pat|, 0);
    assert s[0..j] == s[..j];
  }

  /**
   * The first occurrence is replaced and the text before it is kept: when no
   * occurrence of `p` starts inside `a`, `(a + p + t).replace(p, rep)` is
   * `a + rep + t.replace(p, rep)`. With the unchanged case of ReplaceAll's
   * contract this fixes the result on every input.
   */
  lemma ReplaceAllCut(a: string, p: string, t: string, rep: string)
    requires p != []
    requires forall i :: 0 <= i < |a| ==> !OccursAt(a + p + t, i, p)
    ensures ReplaceAll(a + p + t, p, rep) == a + rep + ReplaceAll(t, p, rep)
  {
    var s := a + p + t;
    assert s[|a|..|a| + |p|] == p;
    assert MatchAt(s, |a|, p, false);
    ReplaceScanCut(s, p, rep, false, |a|);
    assert s[..|a|] == a;
    assert s[|a| + |p|..] == t;
  }

  /** The case-insensitive counterpart of ReplaceAllCut: a match up to case is replaced. */
  lemma ReplaceAllIgnoreCaseCut(a: string, m: string, t: string, p: string, rep: string)
    requires p != [] && |m| == |p| && CiOccursAt(m, 0, p)
    requires forall i :: 0 <= i < |a| ==> !CiOccursAt(a + m + t, i, p)
    ensures ReplaceAllIgnoreCase(a + m + t, p, rep) == a + rep + ReplaceAllIgnoreCase(t, p, rep)
  {
    var s := a + m + t;
    assert MatchAt(s, |a|, p, true) by {
      forall k | 0 <= k < |p| ensures s[|a| + k] == m[k] { }
    }
    ReplaceScanCut(s, p, rep, true, |a|);
    assert s[..|a|] == a;
    assert s[|a| + |p|..] == t;
  }

  /** A character that starts no occurrence is copied, and the rest is replaced on its own. */
  lemma ReplaceAllPast(s: string, p: string, rep: string)
    requires p != [] && s != [] && !OccursAt(s, 0, p)
    ensures ReplaceAll(s, p, rep) == [s[0]] + ReplaceAll(s[1..], p, rep)
  {
    ReplaceScanShift(s, p, rep, false, 1, 0);
  }

  /** An occurrence at the front is replaced, and the rest is replaced on its own. */
  lemma ReplaceAllAt(s: string, p: string, rep: string)
    requires p != [] && OccursAt(s, 0, p)
    ensures ReplaceAll(s, p, rep) == rep + ReplaceAll(s[|p|..], p, rep)
  {
    ReplaceScanShift(s, p, rep, false, |p|, 0);
  }

  /** A replacement that starts the string is made first and the rest follows. */
  lemma ReplaceIgnoreCaseAtFront(p: string, t: string, rep: string)
    requires p != []
    ensures ReplaceAllIgnoreCase(p + t, p, rep) == rep + ReplaceAllIgnoreCase(t, p, rep)
  {
    var s := p + t;
    assert s[..|p|] == p;
    assert CiOccursAt(s, 0, p);
    ReplaceScanShift(s, p, rep, true, |p|, 0);
    assert s[|p|..] == t;
  }

  // ---------------------------------------------------------------------------
  // Decimal numbers
  // ---------------------------------------------------------------------------

  function DigitValue(c: char): nat
    requires IsDigit(c)
  {
    c as int - '0' as int
  }

  /** `int(ds)` for a run of ASCII digits. */
  function DigitsValue(ds: string): nat
    requires AllDigits(ds)
  {
    if ds == [] then 0 else DigitsValue(ds[..|ds| - 1]) * 10 + DigitValue(ds[|ds| - 1])
  }

  /** `str(n)`. */
  function NatToDigits(n: nat): (ds: string)
    ensures ds != [] && AllDigits(ds)
  {
    if n < 10 then ['0' + n as char]
    else NatToDigits(n / 10) + ['0' + (n % 10) as char]
  }

  /** Reading back the decimal text of a number gives the number. */
  lemma {:induction false} DigitsRoundTrip(n: nat)
    ensures DigitsValue(NatToDigits(n)) == n
  {
    var ds := NatToDigits(n);
    if n >= 10 {
      DigitsRoundTrip(n / 10);
      assert ds[..|ds| - 1] == NatToDigits(n / 10);
    }
  }

  /** The length of the run of digits that starts `s`. */
  function LeadingDigits(s: string): (k: nat)
    ensures k <= |s| && AllDigits(s[..k]) && (k == |s| || !IsDigit(s[k]))
  {
    if s != [] && IsDigit(s[0]) then
      var k := 1 + LeadingDigits(s[1..]);
      assert s[..k] == [s[0]] + s[1..][..k - 1];
      k
    else 0
  }

  // ---------------------------------------------------------------------------
  // The multi-number pattern
  // ---------------------------------------------------------------------------

  /** The index just past the run of word characters that starts at `i`. */
  function WordRunEnd(s: string, i: nat): (j: nat)
    requires i <= |s|
    ensures i <= j <= |s| && (forall k :: i <= k < j ==> IsWordChar(s[k])) && (j == |s| || !IsWordChar(s[j]))
    decreases |s| - i
  {
    if i < |s| && IsWordChar(s[i]) then WordRunEnd(s, i + 1) else i
  }

  /** The character class `[,-/]`, the range from ',' to '/'. */
  predicate IsNumberSep(c: char)
  {
    ',' <= c <= '/'
  }

  /** `\s?` at `p`: one whitespace character is taken when there is one. */
  function OptSpace(s: string, p: nat): (q: nat)
    requires p <= |s|
    ensures p <= q <= |s| && q <= p + 1
  {
    if p < |s| && IsSpace(s[p]) then p + 1 else p
  }

  /**
   * `(\w*)\s?[,-/]` at `i`: the position just past the separator, if the word
   * run at `i`, an optional blank and a separator follow each other there.
   */
  function NumberHead(s: string, i: nat): (e: Option<nat>)
    requires i <= |s|
    ensures e.Some? ==> i < e.value <= |s| && IsNumberSep(s[e.value - 1])
  {
    var q := OptSpace(s, WordRunEnd(s, i));
    if q < |s| && IsNumberSep(s[q]) then Some(q + 1) else None
  }

  /**
   * `(\w*\s?[,-/]\s?)*` from `t`, greedily: the position after the last
   * whole repetition. A repetition that fails part-way gives nothing back,
   * since whatever follows it in the pattern cannot fail.
   */
  function NumberTail(s: string, t: nat): (e: nat)
    requires t <= |s|
    ensures t <= e <= |s|
    decreases |s| - t
  {
    var u := OptSpace(s, WordRunEnd(s, t));
    if u < |s| && IsNumberSep(s[u]) then NumberTail(s, OptSpace(s, u + 1)) else t
  }

  /**
   * `re.sub(r"(\w*)\s?[,-/]\s?(\w*\s?[,-/]\s?)*\w*", r"\1", s[i..])`: every
   * leftmost match, which always holds a separator, is replaced by the word
   * run it starts with.
   */
  function MultiNumberCutFrom(s: string, i: nat): string
    requires i <= |s|
    decreases |s| - i
  {
    if i == |s| then []
    else match NumberHead(s, i)
      case Some(q) =>
        var e := WordRunEnd(s, NumberTail(s, OptSpace(s, q)));
        s[i..WordRunEnd(s, i)] + MultiNumberCutFrom(s, e)
      case None => [s[i]] + MultiNumberCutFrom(s, i + 1)
  }

  /**
   * The multi-number cut applied to building designators: a list or range of
   * numbers keeps only its first word ("12-14" becomes "12").
   */
  function MultiNumberCut(s: string): string
  {
    MultiNumberCutFrom(s, 0)
  }

  /** No separator survives the cut: each one is inside some match. */
  lemma {:induction false} MultiNumberCutFromHasNoSep(s: string, i: nat)
    requires i <= |s|
    ensures forall k :: 0 <= k < |MultiNumberCutFrom(s, i)| ==> !IsNumberSep(MultiNumberCutFrom(s, i)[k])
    decreases |s| - i
  {
    if i < |s| {
      match NumberHead(s, i)
      case Some(q) =>
        var e := WordRunEnd(s, NumberTail(s, OptSpace(s, q)));
        MultiNumberCutFromHasNoSep(s, e);
      case None =>
        assert !IsNumberSep(s[i]);
        MultiNumberCutFromHasNoSep(s, i + 1);
    }
  }

  lemma MultiNumberCutHasNoSep(s: string)
    ensures forall k :: 0 <= k < |MultiNumberCut(s)| ==> !IsNumberSep(MultiNumberCut(s)[k])
  {
    MultiNumberCutFromHasNoSep(s, 0);
  }

  /** A designator without separators is left alone. */
  lemma {:induction false} MultiNumberCutFromWithoutSep(s: string, i: nat)
    requires i <= |s|
    requires forall k :: 0 <= k < |s| ==> !IsNumberSep(s[k])
    ensures MultiNumberCutFrom(s, i) == s[i..]
    decreases |s| - i
  {
    if i < |s| {
      MultiNumberCutFromWithoutSep(s, i + 1);
      assert s[i..] == [s[i]] + s[i + 1..];
    }
  }

  lemma MultiNumberCutWithoutSep(s: string)
    requires forall k :: 0 <= k < |s| ==> !IsNumberSep(s[k])
    ensures MultiNumberCut(s) == s
  {
    MultiNumberCutFromWithoutSep(s, 0);
  }

  /** Cutting twice is cutting once. */
  lemma MultiNumberCutIdempotent(s: string)
    ensures MultiNumberCut(MultiNumberCut(s)) == MultiNumberCut(s)
  {
    MultiNumberCutHasNoSep(s);
    MultiNumberCutWithoutSep(MultiNumberCut(s));
  }

  /** A range or list "w-t", "w,t", "w/t" or "w.t" keeps its first word. */
  lemma MultiNumberCutOfPair(w: string, c: char, t: string)
    requires AllWordChars(w) && IsNumberSep(c) && AllWordChars(t)
    ensures MultiNumberCut(w + [c] + t) == w
  {
    var s := w + [c] + t;
    WordRunEndOver(s, 0, |w|);
    assert s[|w|] == c;
    var q := |w| + 1;
    assert NumberHead(s, 0) == Some(q);
    WordRunEndOver(s, q, |s|);
    assert OptSpace(s, q) == q;
    assert NumberTail(s, q) == q;
    assert s[..|w|] == w;
    assert MultiNumberCutFrom(s, |s|) == [];
  }

  /** The word run from `i` reaches `j` when `s[i..j]` are word characters and `s[j]` is not. */
  lemma {:induction false} WordRunEndOver(s: string, i: nat, j: nat)
    requires i <= j <= |s|
    requires forall k :: i <= k < j ==> IsWordChar(s[k])
    requires j == |s| || !IsWordChar(s[j])
    ensures WordRunEnd(s, i) == j
    decreases j - i
  {
    if i < j {
      WordRunEndOver(s, i + 1, j);
    }
  }
}
