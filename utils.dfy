/**
 * `scripts/utils.py`: `capitalize` and the table parsing of `load_replacements`
 * (the file read is left to the caller, which passes the file's lines).
 *
 * A Python `dict` remembers the order in which its keys were first inserted and
 * a later assignment to an existing key keeps that key's place; `Dict` models
 * it as a sequence of pairs with distinct keys.
 */
module Utils {
  import opened Wrappers
  import opened Text

  /** `capitalize(x)`, that is `x[:1].upper() + x[1:]`. */
  function Capitalize(s: string): (r: string)
    ensures |r| == |s|
    ensures forall i :: 1 <= i < |s| ==> r[i] == s[i]
    ensures s != [] ==> !IsLower(r[0]) && ToLower(r[0]) == ToLower(s[0])
  {
    if s == [] then [] else [ToUpper(s[0])] + s[1..]
  }

  /** `capitalize("") == ""`. */
  lemma CapitalizeEmpty()
    ensures Capitalize("") == ""
  {
  }

  /** Capitalizing a capitalized string changes nothing. */
  lemma CapitalizeIdempotent(s: string)
    ensures Capitalize(Capitalize(s)) == Capitalize(s)
  {
    if s != [] {
      ToUpperIdempotent(s[0]);
    }
  }

  // ---------------------------------------------------------------------------
  // Insertion-ordered dictionaries
  // ---------------------------------------------------------------------------

  type Dict = seq<(string, string)>

  predicate DistinctKeys(d: Dict)
  {
    forall i, j :: 0 <= i < j < |d| ==> d[i].0 != d[j].0
  }

  function Keys(d: Dict): (ks: seq<string>)
    ensures |ks| == |d| && forall i :: 0 <= i < |d| ==> ks[i] == d[i].0
  {
    seq(|d|, i requires 0 <= i < |d| => d[i].0)
  }

  /** `d.get(k)`. */
  function Lookup(d: Dict, k: string): Option<string>
  {
    if d == [] then None else if d[0].0 == k then Some(d[0].1) else Lookup(d[1..], k)
  }

  lemma {:induction false} LookupAt(d: Dict, i: nat)
    requires DistinctKeys(d) && i < |d|
    ensures Lookup(d, d[i].0) == Some(d[i].1)
  {
    if i > 0 {
      assert d[1..][i - 1] == d[i];
      assert DistinctKeys(d[1..]) by {
        forall a, b | 0 <= a < b < |d[1..]| ensures d[1..][a].0 != d[1..][b].0 {
          assert d[1..][a] == d[a + 1] && d[1..][b] == d[b + 1];
        }
      }
      LookupAt(d[1..], i - 1);
    }
  }

  lemma {:induction false} LookupAbsent(d: Dict, k: string)
    requires k !in Keys(d)
    ensures Lookup(d, k) == None
  {
    if d != [] {
      assert Keys(d[1..]) == Keys(d)[1..];
      LookupAbsent(d[1..], k);
    }
  }

  /** The place of key `k` in `d`. */
  function IndexOf(d: Dict, k: string): (i: nat)
    requires k in Keys(d)
    ensures i < |d| && d[i].0 == k
    decreases |d|
  {
    if d[0].0 == k then 0
    else
      assert k in Keys(d[1..]) by {
        var j :| 0 <= j < |d| && Keys(d)[j] == k;
        assert j > 0 && Keys(d[1..])[j - 1] == k;
      }
      1 + IndexOf(d[1..], k)
  }

  /**
   * `d[k] = v`: an existing key keeps its place and takes the new value, a new
   * key goes last. No other entry changes.
   */
  function Insert(d: Dict, k: string, v: string): (r: Dict)
    requires DistinctKeys(d)
    ensures DistinctKeys(r)
    ensures k in Keys(d) ==> |r| == |d| && Keys(r) == Keys(d)
    ensures k !in Keys(d) ==> r == d + [(k, v)]
  {
    if k in Keys(d) then
      var r := d[IndexOf(d, k) := (k, v)];
      assert Keys(r) == Keys(d);
      r
    else
      var r := d + [(k, v)];
      assert DistinctKeys(r) by {
        forall a, b | 0 <= a < b < |r| ensures r[a].0 != r[b].0 {
          if b == |d| { assert r[a].0 == Keys(d)[a]; }
        }
      }
      r
  }

  /** After `d[k] = v`, `k` maps to `v` and every other key to what it mapped to before. */
  lemma InsertLookup(d: Dict, k: string, v: string, k': string)
    requires DistinctKeys(d)
    ensures Lookup(Insert(d, k, v), k') == if k' == k then Some(v) else Lookup(d, k')
  {
    var r := Insert(d, k, v);
    var at := if k in Keys(d) then IndexOf(d, k) else |d|;
    assert at < |r| && r[at] == (k, v);
    if k' == k {
      LookupAt(r, at);
    } else if k' in Keys(d) {
      var j := IndexOf(d, k');
      assert r[j] == d[j];
      LookupAt(r, j);
      LookupAt(d, j);
    } else {
      LookupAbsent(d, k');
      forall j | 0 <= j < |r| ensures Keys(r)[j] != k' {
        if j != at { assert r[j] == d[j] && Keys(d)[j] == d[j].0; }
      }
      LookupAbsent(r, k');
    }
  }

  /** `dict(pairs)` (and `dict(zip(keys, values))`): the pairs inserted in order. */
  function FromPairs(pairs: seq<(string, string)>): (d: Dict)
    ensures DistinctKeys(d)
    decreases |pairs|
  {
    if pairs == [] then []
    else Insert(FromPairs(pairs[..|pairs| - 1]), pairs[|pairs| - 1].0, pairs[|pairs| - 1].1)
  }

  /** Whether any pair has key `k`, and the value of the last one that does. */
  function LastValue(pairs: seq<(string, string)>, k: string): Option<string>
  {
    if pairs == [] then None
    else if pairs[|pairs| - 1].0 == k then Some(pairs[|pairs| - 1].1)
    else LastValue(pairs[..|pairs| - 1], k)
  }

  /** In `dict(pairs)` a later pair with the same key overwrites an earlier one. */
  lemma {:induction false} FromPairsLastWins(pairs: seq<(string, string)>, k: string)
    ensures Lookup(FromPairs(pairs), k) == LastValue(pairs, k)
    decreases |pairs|
  {
    if pairs != [] {
      FromPairsLastWins(pairs[..|pairs| - 1], k);
      InsertLookup(FromPairs(pairs[..|pairs| - 1]), pairs[|pairs| - 1].0, pairs[|pairs| - 1].1, k);
    }
  }

  // ---------------------------------------------------------------------------
  // The replacement table
  // ---------------------------------------------------------------------------

  /** `line.strip().split(";")` for one line of `street_replacements.csv`. */
  function ReplacementFields(line: string): (fields: seq<string>)
    ensures |fields| >= 1
  {
    Split(Strip(line), ';')
  }

  /** The (search, replacement) pair of a line that has both fields. */
  function ReplacementPair(line: string): (string, string)
    requires |ReplacementFields(line)| >= 2
  {
    (ReplacementFields(line)[0], ReplacementFields(line)[1])
  }

  predicate AllLinesHaveTwoFields(lines: seq<string>)
  {
    forall i :: 0 <= i < |lines| ==> |ReplacementFields(lines[i])| >= 2
  }

  function ReplacementPairs(lines: seq<string>): (pairs: seq<(string, string)>)
    requires AllLinesHaveTwoFields(lines)
    ensures |pairs| == |lines|
  {
    seq(|lines|, i requires 0 <= i < |lines| && AllLinesHaveTwoFields(lines) => ReplacementPair(lines[i]))
  }

  /**
   * The dict built from the lines of `street_replacements.csv`: field 0 of each
   * stripped line is the search text and field 1 its replacement; later fields
   * are ignored. A line with no ";" (a blank line among them) makes `x[1]` raise
   * `IndexError`, which is the `Err` result.
   */
  function ParseReplacements(lines: seq<string>): (r: Result<Dict, string>)
    ensures r.Ok? <==> forall i :: 0 <= i < |lines| ==> ';' in Strip(lines[i])
    ensures r.Ok? ==> DistinctKeys(r.value)
  {
    assert AllLinesHaveTwoFields(lines) <==> forall i :: 0 <= i < |lines| ==> ';' in Strip(lines[i]) by {
      forall i | 0 <= i < |lines| ensures |ReplacementFields(lines[i])| >= 2 <==> ';' in Strip(lines[i]) {
        SplitHasSeparator(Strip(lines[i]), ';');
      }
    }
    if AllLinesHaveTwoFields(lines) then Ok(FromPairs(ReplacementPairs(lines)))
    else Err("IndexError: list index out of range")
  }

  /** A one-character split yields at least two fields exactly when the separator occurs. */
  lemma {:induction false} SplitHasSeparator(s: string, sep: char)
    ensures |Split(s, sep)| >= 2 <==> sep in s
    decreases |s|
  {
    if s != [] {
      SplitHasSeparator(s[1..], sep);
      assert sep in s <==> s[0] == sep || sep in s[1..];
    }
  }

  /**
   * The entry for a search text is the replacement field of the last line whose
   * first field it is.
   */
  lemma ParseReplacementsLastLineWins(lines: seq<string>, search: string)
    requires ParseReplacements(lines).Ok?
    ensures AllLinesHaveTwoFields(lines)
    ensures Lookup(ParseReplacements(lines).value, search) == LastValue(ReplacementPairs(lines), search)
  {
    FromPairsLastWins(ReplacementPairs(lines), search);
  }

  // ---------------------------------------------------------------------------
  // Applying the table
  // ---------------------------------------------------------------------------

  /**
   * Every pair of a replacement table applied in table order, each as a
   * literal, case-insensitive, replace-all (`str.replace(search, rep,
   * case=False)` in pandas and `re.sub(re.escape(search), rep, s,
   * flags=re.IGNORECASE)`).
   */
  function ApplyReplacements(s: string, table: Dict): string
    decreases |table|
  {
    if table == [] then s
    else ApplyReplacements(ReplaceAllIgnoreCase(s, table[0].0, table[0].1), table[1..])
  }

  /** Applying a table is applying its first part and then the rest: file order matters. */
  lemma {:induction false} ApplyReplacementsInOrder(s: string, t1: Dict, t2: Dict)
    ensures ApplyReplacements(s, t1 + t2) == ApplyReplacements(ApplyReplacements(s, t1), t2)
    decreases |t1|
  {
    if t1 != [] {
      assert (t1 + t2)[0] == t1[0];
      assert (t1 + t2)[1..] == t1[1..] + t2;
      ApplyReplacementsInOrder(ReplaceAllIgnoreCase(s, t1[0].0, t1[0].1), t1[1..], t2);
    } else {
      assert t1 + t2 == t2;
    }
  }

  lemma ApplyReplacementsStep(s: string, table: Dict, k: nat)
    requires k < |table|
    ensures ApplyReplacements(s, table[k..]) == ApplyReplacements(ReplaceAllIgnoreCase(s, table[k].0, table[k].1), table[k + 1..])
  {
    assert table[k..][1..] == table[k + 1..];
  }
}
