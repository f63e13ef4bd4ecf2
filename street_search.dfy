/**
 * The windowed street search of `scripts/match_addresses.py` (lines 166-207):
 * a segment's words are scanned for runs of words whose normalised text is a
 * street of the current town.
 *
 * The helpers the script imports but whose source is not part of this model
 * (the street-prefix table, `Utils.remove_first_name`,
 * `Utils.remove_first_letter`, the ordinal pattern and `get_building_order`)
 * are fields of `Env`, so every property below holds whatever they do.
 */
module StreetSearch {
  import opened Wrappers
  import opened Text
  import opened Utils
  import opened Records

  /** The helpers and tables the parser receives from outside. */
  datatype Env = Env(
    prefixSub: string -> string,
    replacements: Dict,
    removeFirstName: string -> string,
    removeFirstLetter: string -> string,
    ordinalSub: string -> string,
    buildingOrder: (nat, string) -> int)

  /**
   * `street_tmp` for a window of words (lines 176-188): the words joined by
   * blanks, the prefix table, the replacement table (literal and
   * case-insensitive, in table order), trimming and collapsing whitespace and
   * removing ':', the two name helpers, the ordinal pattern, the literal (so in
   * practice idle) replacement of the text `[„"](.+)[”"]`, "´" to "'", the
   * ordinal pattern again, and `capitalize`.
   */
  function StreetCandidate(env: Env, words: seq<string>): (name: string)
    ensures name == [] || !IsLower(name[0])
  {
    var s := env.prefixSub(Join(words, " "));
    var s := ApplyReplacements(s, env.replacements);
    var s := ReplaceAll(CollapseSpaces(Strip(s)), ":", "");
    var s := env.removeFirstLetter(env.removeFirstName(s));
    var s := env.ordinalSub(s);
    var s := ReplaceAll(s, "[„\"](.+)[”\"]", "\"\\1\"");
    var s := ReplaceAll(s, "´", "'");
    Capitalize(env.ordinalSub(s))
  }

  /**
   * What one search works with: the street name of a window of words (the
   * parser passes `StreetCandidate` with its helpers), the street table, the
   * town and the words of the segment.
   */
  datatype Search = Search(name: seq<string> -> string, streets: seq<StreetRow>, town: string, words: seq<string>)

  /** The search of a segment's words with the script's own street name. */
  function SearchOf(env: Env, streets: seq<StreetRow>, town: string, words: seq<string>): (q: Search)
    ensures q.words == words && q.streets == streets && q.town == town
    ensures forall w :: q.name(w) == StreetCandidate(env, w)
  {
    Search(w => StreetCandidate(env, w), streets, town, words)
  }

  /** `street_tmp` for the window `words[p..e]`. */
  function Candidate(q: Search, p: nat, e: nat): string
    requires p <= e <= |q.words|
  {
    q.name(q.words[p..e])
  }

  /** The window `words[p..e]` names a street of the town. */
  predicate Hit(q: Search, p: nat, e: nat)
    requires p <= e <= |q.words|
  {
    IsStreet(q.streets, q.town, Candidate(q, p, e))
  }

  /** No window that starts at `p` names a street. */
  predicate NoHitFrom(q: Search, p: nat)
    requires p <= |q.words|
  {
    forall e :: p < e <= |q.words| ==> !Hit(q, p, e)
  }

  /** A street found in a segment: its first word, one past its last word, and its name. */
  datatype FoundStreet = FoundStreet(start: nat, end: nat, street: string)

  /**
   * Every found window is non-empty, inside the segment, names the street it
   * records, and lies after the one before it.
   */
  predicate WellFound(q: Search, found: seq<FoundStreet>)
  {
    && (forall j :: 0 <= j < |found| ==>
          && found[j].start < found[j].end <= |q.words|
          && found[j].street == Candidate(q, found[j].start, found[j].end)
          && Hit(q, found[j].start, found[j].end))
    && (forall j :: 0 <= j < |found| - 1 ==> found[j].end <= found[j + 1].start)
  }

  /**
   * From `p`, once a window up to `end` names a street, every longer window up
   * to `end` does too: the window is the first hit, extended one word at a
   * time while it stays a street.
   */
  predicate HitsRunTo(q: Search, p: nat, end: nat)
    requires p <= end <= |q.words|
  {
    forall e1, e2 :: p < e1 < e2 <= end && Hit(q, p, e1) ==> Hit(q, p, e2)
  }

  /**
   * Each found window is the first hit from its start, extended while it stays
   * a street, and stops at the segment's end or where one more word breaks the
   * name.
   */
  predicate Greedy(q: Search, found: seq<FoundStreet>)
    requires WellFound(q, found)
  {
    forall j :: 0 <= j < |found| ==>
      && HitsRunTo(q, found[j].start, found[j].end)
      && (found[j].end == |q.words| || !Hit(q, found[j].start, found[j].end + 1))
  }

  /** Position `p` lies in no found window. */
  predicate Uncovered(found: seq<FoundStreet>, p: nat)
  {
    forall j :: 0 <= j < |found| ==> !(found[j].start <= p < found[j].end)
  }

  /** Every found window ends by `idx`. */
  predicate Before(found: seq<FoundStreet>, idx: nat)
  {
    forall j :: 0 <= j < |found| ==> found[j].end <= idx
  }

  /** No window names a street from any position before `idx` that no found window covers. */
  predicate Settled(q: Search, found: seq<FoundStreet>, idx: nat)
    requires idx <= |q.words|
  {
    forall p :: 0 <= p < idx && Uncovered(found, p) ==> NoHitFrom(q, p)
  }

  /**
   * The `while idx < len(split_line)` loop. From `idx`, windows grow one word
   * at a time; the first street found is extended while the longer window is
   * still a street, and the search resumes where the last matching window
   * ended; a position where no window matches is skipped. `last_street`
   * becomes the name of the last street found.
   */
  method FindStreets(q: Search, lastStreet: string) returns (found: seq<FoundStreet>, last: string)
    ensures WellFound(q, found) && Greedy(q, found)
    ensures forall p :: 0 <= p < |q.words| && Uncovered(found, p) ==> NoHitFrom(q, p)
    ensures last == if found == [] then lastStreet else found[|found| - 1].street
  {
    var n := |q.words|;
    found := [];
    last := lastStreet;
    var idx := 0;
    while idx < n
      invariant 0 <= idx <= n
      invariant WellFound(q, found) && Greedy(q, found)
      invariant Before(found, idx) && Settled(q, found, idx)
      invariant last == if found == [] then lastStreet else found[|found| - 1].street
      decreases n - idx
    {
      var fs := GrowWindow(q, idx);
      if fs.Some? {
        last := fs.value.street;
        AppendFound(q, found, fs.value, idx);
        found := found + [fs.value];
        idx := fs.value.end;
      } else {
        SkipPosition(q, found, idx);
        idx := idx + 1;
      }
    }
  }

  /** A position from which no window matches is settled too. */
  lemma SkipPosition(q: Search, found: seq<FoundStreet>, idx: nat)
    requires idx < |q.words|
    requires Settled(q, found, idx) && NoHitFrom(q, idx)
    ensures Settled(q, found, idx + 1)
  {
  }

  /**
   * The inner `for word in split_line[idx:]` loop: windows `idx..end` grow
   * until the first street is found and then while they remain streets.
   * Without any street the result is `None` and no window from `idx` matches.
   */
  method GrowWindow(q: Search, idx: nat) returns (fs: Option<FoundStreet>)
    requires idx < |q.words|
    ensures fs.None? ==> NoHitFrom(q, idx)
    ensures fs.Some? ==>
      && fs.value.start == idx < fs.value.end <= |q.words|
      && fs.value.street == Candidate(q, idx, fs.value.end) && Hit(q, idx, fs.value.end)
      && HitsRunTo(q, idx, fs.value.end)
      && (fs.value.end == |q.words| || !Hit(q, idx, fs.value.end + 1))
  {
    var n := |q.words|;
    var end := idx;
    fs := None;
    var stop := false;
    while end < n && !stop
      invariant idx <= end <= n
      invariant fs.None? ==> !stop && forall e :: idx < e <= end ==> !Hit(q, idx, e)
      invariant fs.Some? ==>
        && fs.value.start == idx < fs.value.end <= end
        && fs.value.street == Candidate(q, idx, fs.value.end) && Hit(q, idx, fs.value.end)
        && HitsRunTo(q, idx, fs.value.end)
      invariant fs.Some? && !stop ==> fs.value.end == end
      invariant stop ==> fs.Some? && fs.value.end == end - 1 && !Hit(q, idx, end)
      decreases n - end
    {
      end := end + 1;
      var candidate := Candidate(q, idx, end);
      if Hit(q, idx, end) {
        fs := Some(FoundStreet(idx, end, candidate));
      } else if fs.Some? {
        stop := true;
      }
    }
  }

  /** Appending the window found at `idx` keeps the search's invariants. */
  lemma AppendFound(q: Search, found: seq<FoundStreet>, f: FoundStreet, idx: nat)
    requires WellFound(q, found) && Greedy(q, found)
    requires f.start == idx < f.end <= |q.words|
    requires Before(found, idx) && Settled(q, found, idx)
    requires f.street == Candidate(q, idx, f.end) && Hit(q, idx, f.end)
    requires HitsRunTo(q, idx, f.end)
    requires f.end == |q.words| || !Hit(q, idx, f.end + 1)
    ensures WellFound(q, found + [f]) && Greedy(q, found + [f])
    ensures Before(found + [f], f.end) && Settled(q, found + [f], f.end)
  {
    var nf := found + [f];
    assert forall j :: 0 <= j < |found| ==> nf[j] == found[j];
    assert nf[|found|] == f;
    forall p | 0 <= p < idx && Uncovered(nf, p) ensures NoHitFrom(q, p) {
      assert Uncovered(found, p);
    }
    assert forall p :: idx <= p < f.end ==> !Uncovered(nf, p);
  }

  /** The window `GrowWindow` promises is unique: its end is fixed by the words. */
  lemma WindowEndUnique(q: Search, idx: nat, e1: nat, e2: nat)
    requires idx < e1 <= |q.words| && idx < e2 <= |q.words|
    requires Hit(q, idx, e1) && HitsRunTo(q, idx, e1) && (e1 == |q.words| || !Hit(q, idx, e1 + 1))
    requires Hit(q, idx, e2) && HitsRunTo(q, idx, e2) && (e2 == |q.words| || !Hit(q, idx, e2 + 1))
    ensures e1 == e2
  {
  }
}
