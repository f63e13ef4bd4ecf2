/**
 * The module-level `fillColor` expression of
 * `frontend/src/components/Map/Map.tsx` (lines 4-31): a maplibre `case`
 * expression that colours a district by its turnout, one bucket per key of
 * `colors`, with black as the fallback.
 *
 * `Object.keys(colors)` lists integer-like keys in ascending numeric order,
 * so the keys are 20, 40, 60, 80 and 100, and `Number(key)` is the key's
 * value.
 */
module MapFillColor {
  import opened Expression

  const Keys: seq<nat> := [20, 40, 60, 80, 100]

  /** `colors`. */
  const Colors: map<nat, string> := map[20 := "#e0f2f199", 40 := "#80cbc499", 60 := "#26a69a99", 80 := "#00897b99", 100 := "#004d4099"]

  const Fallback: string := "#000000"

  function Turnout(): Expr
  {
    Get("turnout")
  }

  /** `["<", ["get", "turnout"], n]` and `[">=", ["get", "turnout"], n]`. */
  function Lt(n: nat): Expr
  {
    List([Str("<"), Turnout(), Num(n as real)])
  }

  function Ge(n: nat): Expr
  {
    List([Str(">="), Turnout(), Num(n as real)])
  }

  /** Whether a condition of this shape holds for the turnout `t`. */
  predicate Holds(e: Expr, t: real)
  {
    match e
    case List(items) =>
      if |items| == 3 && items[0] == Str("<") && items[1] == Turnout() && items[2].Num? then t < items[2].n
      else if |items| == 3 && items[0] == Str(">=") && items[1] == Turnout() && items[2].Num? then t >= items[2].n
      else if |items| >= 1 && items[0] == Str("all") then forall k :: 1 <= k < |items| ==> Holds(items[k], t)
      else false
    case _ => false
  }

  /** The output of `["case", c0, v0, c1, v1, …, fallback]` from `items` on. */
  function Pick(items: seq<Expr>, t: real): Expr
    decreases |items|
  {
    if |items| <= 1 then (if items == [] then Undefined else items[0])
    else if Holds(items[0], t) then items[1]
    else Pick(items[2..], t)
  }

  /** A `case` expression's value for the turnout `t`. */
  function EvalCase(fill: seq<Expr>, t: real): Expr
  {
    if fill != [] && fill[0] == Str("case") then Pick(fill[1..], t) else Undefined
  }

  /** The turnout bucket of the `i`-th key: below the first key, from the previous key up to this one, or from the one before the last key on. */
  predicate InBucket(i: nat, t: real)
    requires i < |Keys|
  {
    && (i == 0 || t >= Keys[i - 1] as real)
    && (i == |Keys| - 1 || t < Keys[i] as real)
  }

  /**
   * The loop of lines 12-31. The first key contributes `turnout < key`, the
   * last `turnout >= previous key`, every other one both bounds under "all";
   * each condition is followed by the key's colour, and black ends the list.
   */
  method BuildFillColor() returns (fill: seq<Expr>)
    ensures |fill| == 2 * |Keys| + 2
    ensures fill[0] == Str("case") && fill[|fill| - 1] == Str(Fallback)
    ensures fill[1] == Lt(Keys[0]) && fill[2 * |Keys| - 1] == Ge(Keys[|Keys| - 2])
    ensures forall i :: 0 < i < |Keys| - 1 ==> fill[1 + 2 * i] == List([Str("all"), Ge(Keys[i - 1]), Lt(Keys[i])])
    ensures forall i :: 0 <= i < |Keys| ==> fill[2 + 2 * i] == Str(Colors[Keys[i]])
  {
    fill := [Str("case")];
    var keys := Keys;
    for index := 0 to |keys|
      invariant |fill| == 1 + 2 * index && fill[0] == Str("case")
      invariant index > 0 ==> fill[1] == Lt(Keys[0])
      invariant forall i :: 0 < i < index && i < |Keys| - 1 ==> fill[1 + 2 * i] == List([Str("all"), Ge(Keys[i - 1]), Lt(Keys[i])])
      invariant index == |Keys| ==> fill[2 * |Keys| - 1] == Ge(Keys[|Keys| - 2])
      invariant forall i :: 0 <= i < index ==> fill[2 + 2 * i] == Str(Colors[Keys[i]])
    {
      var key := keys[index];
      var cond := Condition(keys, index);
      fill := fill + [cond, Str(Colors[key])];
    }
    fill := fill + [Str(Fallback)];
  }

  /**
   * The condition of the `index`-th key (lines 15-28): `turnout < key` for
   * the first, `turnout >= previous key` for the last, and both bounds
   * under "all" otherwise.
   */
  method Condition(keys: seq<nat>, index: nat) returns (cond: Expr)
    requires keys == Keys && index < |keys|
    ensures index == 0 ==> cond == Lt(Keys[0])
    ensures index == |Keys| - 1 ==> cond == Ge(Keys[|Keys| - 2])
    ensures 0 < index < |Keys| - 1 ==> cond == List([Str("all"), Ge(Keys[index - 1]), Lt(Keys[index])])
  {
    var key := keys[index];
    var isFirst := index == 0;
    var isLast := index == |keys| - 1;
    var lastElement := if isFirst then 0 else keys[index - 1];
    if isFirst {
      cond := Lt(key);
    } else if isLast {
      cond := Ge(lastElement);
    } else {
      cond := List([Str("all"), Ge(lastElement), Lt(key)]);
    }
  }

  /** Each condition of the built list holds exactly on its key's bucket. */
  lemma ConditionsAreBuckets(fill: seq<Expr>, i: nat, t: real)
    requires |fill| == 2 * |Keys| + 2
    requires fill[1] == Lt(Keys[0]) && fill[2 * |Keys| - 1] == Ge(Keys[|Keys| - 2])
    requires forall i :: 0 < i < |Keys| - 1 ==> fill[1 + 2 * i] == List([Str("all"), Ge(Keys[i - 1]), Lt(Keys[i])])
    requires i < |Keys|
    ensures Holds(fill[1 + 2 * i], t) <==> InBucket(i, t)
  {
    if 0 < i < |Keys| - 1 {
      var cond := fill[1 + 2 * i];
      assert cond == List([Str("all"), Ge(Keys[i - 1]), Lt(Keys[i])]);
      assert cond.items[1] == Ge(Keys[i - 1]) && cond.items[2] == Lt(Keys[i]);
      assert Holds(cond, t) <==> Holds(cond.items[1], t) && Holds(cond.items[2], t);
    }
  }

  /** The buckets do not overlap. */
  lemma BucketsDisjoint(i: nat, j: nat, t: real)
    requires i < j < |Keys|
    ensures !(InBucket(i, t) && InBucket(j, t))
  {
    assert Keys[i] <= Keys[j - 1];
  }

  /** Every turnout falls into some bucket. */
  lemma BucketsCover(t: real) returns (i: nat)
    ensures i < |Keys| && InBucket(i, t)
  {
    if t < 20.0 { i := 0; }
    else if t < 40.0 { i := 1; }
    else if t < 60.0 { i := 2; }
    else if t < 80.0 { i := 3; }
    else { i := 4; }
  }

  /**
   * Evaluated on a turnout, the expression gives the colour of the turnout's
   * bucket, so the black fallback is never chosen.
   */
  lemma {:induction false} CaseGivesBucketColor(fill: seq<Expr>, t: real, i: nat)
    requires |fill| == 2 * |Keys| + 2
    requires fill[0] == Str("case") && fill[|fill| - 1] == Str(Fallback)
    requires fill[1] == Lt(Keys[0]) && fill[2 * |Keys| - 1] == Ge(Keys[|Keys| - 2])
    requires forall k :: 0 < k < |Keys| - 1 ==> fill[1 + 2 * k] == List([Str("all"), Ge(Keys[k - 1]), Lt(Keys[k])])
    requires forall k :: 0 <= k < |Keys| ==> fill[2 + 2 * k] == Str(Colors[Keys[k]])
    requires i < |Keys| && InBucket(i, t)
    ensures EvalCase(fill, t) == Str(Colors[Keys[i]])
    ensures EvalCase(fill, t) != Str(Fallback)
  {
    forall k | 0 <= k < i ensures !Holds(fill[1 + 2 * k], t) {
      BucketsDisjoint(k, i, t);
      ConditionsAreBuckets(fill, k, t);
    }
    ConditionsAreBuckets(fill, i, t);
    PickFrom(fill, t, i, 0);
  }

  /** `Pick` from the `k`-th condition on reaches the `i`-th one, which holds. */
  lemma {:induction false} PickFrom(fill: seq<Expr>, t: real, i: nat, k: nat)
    requires |fill| == 2 * |Keys| + 2 && fill[0] == Str("case")
    requires k <= i < |Keys|
    requires forall j :: k <= j < i ==> !Holds(fill[1 + 2 * j], t)
    requires Holds(fill[1 + 2 * i], t)
    ensures Pick(fill[1 + 2 * k..], t) == fill[2 + 2 * i]
    decreases i - k
  {
    var rest := fill[1 + 2 * k..];
    assert rest[0] == fill[1 + 2 * k] && rest[1] == fill[2 + 2 * k];
    if k < i {
      assert rest[2..] == fill[1 + 2 * (k + 1)..];
      PickFrom(fill, t, i, k + 1);
    }
  }
}
