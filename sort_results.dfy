/**
 * `sortResults` of `frontend/src/utils/sortResults.ts`: the vote counts of a
 * district for the candidates of an election, largest first.
 */
module SortResults {
  import opened Wrappers

  /** `Results`: a candidate, their vote count and their percentage. */
  datatype Results = Results(candidate: string, result: real, resultProc: real)

  /**
   * A district's properties: `keys` is `Object.keys(district)` in order and
   * `num` the numeric value of a property (every candidate property and its
   * `_proc` property is a number in `DistrictInfo`).
   */
  datatype DistrictInfo = DistrictInfo(keys: seq<string>, num: string -> real)

  /** `electionsConfig`: each election's candidate list (`frontend/src/config.ts`). */
  const ElectionsConfig: map<string, seq<string>> := map[
    "pres_2025_1" := ["trzaskowski", "nawrocki", "mentzen", "braun", "holownia", "zandberg", "biejat",
                      "stanowski", "senyszyn", "jakubiak", "bartosiewicz", "maciak", "woch"]]

  /** The property name JavaScript uses for `elections`; an absent argument is `undefined`. */
  function PropertyKey(elections: Option<string>): string
  {
    match elections
    case Some(e) => e
    case None => "undefined"
  }

  /** `electionsConfig[elections]?.candidates.includes(candidate)`. */
  predicate Listed(elections: Option<string>, c: string)
  {
    PropertyKey(elections) in ElectionsConfig && c in ElectionsConfig[PropertyKey(elections)]
  }

  /** The entry pushed for candidate `c`. */
  function Entry(d: DistrictInfo, c: string): (r: Results)
    ensures r.candidate == c && r.result == d.num(c) && r.resultProc == d.num(c + "_proc")
  {
    Results(c, d.num(c), d.num(c + "_proc"))
  }

  /** `results` after the `forEach` over `keys`: one entry per listed key, in key order. */
  function Collect(d: DistrictInfo, elections: Option<string>, keys: seq<string>): (r: seq<Results>)
    ensures |r| <= |keys|
    ensures forall e :: e in r <==> exists i :: 0 <= i < |keys| && Listed(elections, keys[i]) && e == Entry(d, keys[i])
    decreases |keys|
  {
    if keys == [] then []
    else
      var init := keys[..|keys| - 1];
      assert forall i :: 0 <= i < |init| ==> init[i] == keys[i];
      Collect(d, elections, init) + (if Listed(elections, keys[|keys| - 1]) then [Entry(d, keys[|keys| - 1])] else [])
  }

  /**
   * The entries keep key order and multiplicity: the keys of a concatenation
   * give the entries of the first part followed by those of the second.
   */
  lemma {:induction false} CollectConcat(d: DistrictInfo, elections: Option<string>, a: seq<string>, b: seq<string>)
    ensures Collect(d, elections, a + b) == Collect(d, elections, a) + Collect(d, elections, b)
    decreases |b|
  {
    if b == [] {
      assert a + b == a;
    } else {
      var b' := b[..|b| - 1];
      assert (a + b)[..|a + b| - 1] == a + b';
      assert (a + b)[|a + b| - 1] == b[|b| - 1];
      CollectConcat(d, elections, a, b');
    }
  }

  /** A single key gives its entry exactly when it is a candidate of the election. */
  lemma CollectSingle(d: DistrictInfo, elections: Option<string>, k: string)
    ensures Collect(d, elections, [k]) == if Listed(elections, k) then [Entry(d, k)] else []
  {
    assert [k][..0] == [];
  }

  /** An election that is not configured, or no election at all, gives no entries. */
  lemma {:induction false} UnknownElectionEmpty(d: DistrictInfo, elections: Option<string>, keys: seq<string>)
    requires PropertyKey(elections) !in ElectionsConfig
    ensures Collect(d, elections, keys) == []
    decreases |keys|
  {
    if keys != [] {
      UnknownElectionEmpty(d, elections, keys[..|keys| - 1]);
    }
  }

  /** Calling `sortResults(district)` without an election gives no entries. */
  lemma MissingElectionEmpty(d: DistrictInfo)
    ensures Collect(d, None, d.keys) == []
  {
    UnknownElectionEmpty(d, None, d.keys);
  }

  predicate SortedDesc(s: seq<Results>)
  {
    forall i, j :: 0 <= i < j < |s| ==> s[i].result >= s[j].result
  }

  /** Puts `x` before the first entry whose count is not larger. */
  function InsertDesc(x: Results, s: seq<Results>): (r: seq<Results>)
    requires SortedDesc(s)
    ensures SortedDesc(r) && multiset(r) == multiset(s) + multiset{x}
    ensures |r| == |s| + 1 && r[0] == if s == [] || s[0].result <= x.result then x else s[0]
    decreases |s|
  {
    if s == [] || s[0].result <= x.result then
      SortedCons(x, s);
      [x] + s
    else
      SortedTail(s);
      var rest := InsertDesc(x, s[1..]);
      assert |s| > 1 ==> s[1] == s[1..][0];
      SortedCons(s[0], rest);
      assert s == [s[0]] + s[1..];
      [s[0]] + rest
  }

  /** An entry whose count is at least the first one's can go in front. */
  lemma SortedCons(x: Results, s: seq<Results>)
    requires SortedDesc(s) && (s == [] || s[0].result <= x.result)
    ensures SortedDesc([x] + s)
  {
    var r := [x] + s;
    forall i, j | 0 <= i < j < |r| ensures r[i].result >= r[j].result {
      assert r[j] == s[j - 1];
      if i > 0 { assert r[i] == s[i - 1]; }
    }
  }

  /**
   * `results.sort((a, b) => b.result - a.result)`. The sort is stable, so
   * entries with equal counts keep their order.
   */
  function SortDesc(s: seq<Results>): (r: seq<Results>)
    ensures SortedDesc(r) && multiset(r) == multiset(s)
    decreases |s|
  {
    if s == [] then []
    else
      assert s == [s[0]] + s[1..];
      InsertDesc(s[0], SortDesc(s[1..]))
  }

  /** The entries of `s` whose count is `c`, in their order. */
  function WithCount(s: seq<Results>, c: real): (r: seq<Results>)
    ensures |r| <= |s|
    ensures forall e :: e in r <==> e in s && e.result == c
  {
    if s == [] then []
    else (if s[0].result == c then [s[0]] else []) + WithCount(s[1..], c)
  }

  /** Inserting puts `x` before every entry with its count: among them it comes first. */
  lemma {:induction false} InsertDescWithCount(x: Results, s: seq<Results>, c: real)
    requires SortedDesc(s)
    ensures WithCount(InsertDesc(x, s), c) == (if x.result == c then [x] else []) + WithCount(s, c)
    decreases |s|
  {
    if s != [] && s[0].result > x.result {
      SortedTail(s);
      InsertDescWithCount(x, s[1..], c);
      InsertDescPast(x, s);
      WithCountSwap(s[0], x, InsertDesc(x, s[1..]), s[1..], c);
      assert [s[0]] + s[1..] == s;
    } else {
      WithCountCons(x, s, c);
    }
  }

  /** Two entries of different counts can be swapped in front of the entries with a count. */
  lemma WithCountSwap(y: Results, x: Results, a: seq<Results>, b: seq<Results>, c: real)
    requires y.result != x.result
    requires WithCount(a, c) == (if x.result == c then [x] else []) + WithCount(b, c)
    ensures WithCount([y] + a, c) == (if x.result == c then [x] else []) + WithCount([y] + b, c)
  {
    WithCountCons(y, a, c);
    WithCountCons(y, b, c);
  }

  /** An entry with a smaller count than the first one is inserted into the rest. */
  lemma InsertDescPast(x: Results, s: seq<Results>)
    requires SortedDesc(s) && s != [] && s[0].result > x.result && SortedDesc(s[1..])
    ensures InsertDesc(x, s) == [s[0]] + InsertDesc(x, s[1..])
  {
  }

  /** The entries with a count of a sequence that starts with `y`. */
  lemma WithCountCons(y: Results, s: seq<Results>, c: real)
    ensures WithCount([y] + s, c) == (if y.result == c then [y] else []) + WithCount(s, c)
  {
    assert ([y] + s)[1..] == s;
  }

  lemma SortedTail(s: seq<Results>)
    requires SortedDesc(s) && s != []
    ensures SortedDesc(s[1..])
  {
    forall i, j | 0 <= i < j < |s[1..]| ensures s[1..][i].result >= s[1..][j].result {
      assert s[1..][i] == s[i + 1] && s[1..][j] == s[j + 1];
    }
  }

  /**
   * The sort is stable: for every count, the entries with that count come out
   * in the order they went in.
   */
  lemma {:induction false} SortDescStable(s: seq<Results>, c: real)
    ensures WithCount(SortDesc(s), c) == WithCount(s, c)
    decreases |s|
  {
    if s != [] {
      SortDescStable(s[1..], c);
      InsertDescWithCount(s[0], SortDesc(s[1..]), c);
    }
  }

  /**
   * `sortResults(district, elections)`: an entry for each property that is a
   * candidate of the election, with the candidate's count and percentage,
   * ordered by count, largest first.
   */
  method SortResultsOf(district: DistrictInfo, elections: Option<string>) returns (results: seq<Results>)
    ensures SortedDesc(results)
    ensures multiset(results) == multiset(Collect(district, elections, district.keys))
    ensures forall c :: WithCount(results, c) == WithCount(Collect(district, elections, district.keys), c)
    ensures forall e :: e in results <==>
      exists i :: 0 <= i < |district.keys| && Listed(elections, district.keys[i]) && e == Entry(district, district.keys[i])
  {
    var collected := Gather(district, elections);
    results := SortDesc(collected);
    forall c ensures WithCount(results, c) == WithCount(collected, c) {
      SortDescStable(collected, c);
    }
    assert forall e :: e in results <==> e in collected by {
      forall e ensures e in results <==> e in collected {
        assert e in results <==> e in multiset(results);
        assert e in collected <==> e in multiset(collected);
      }
    }
  }

  /** The `forEach` of lines 7-16: `results.push` for every listed key. */
  method Gather(district: DistrictInfo, elections: Option<string>) returns (results: seq<Results>)
    ensures results == Collect(district, elections, district.keys)
  {
    results := [];
    var keys := district.keys;
    for i := 0 to |keys|
      invariant results == Collect(district, elections, keys[..i])
    {
      assert keys[..i + 1][..i] == keys[..i];
      if Listed(elections, keys[i]) {
        results := results + [Entry(district, keys[i])];
      }
    }
    assert keys[..|keys|] == keys;
  }
}
