/**
 * `generateFillColors` of `frontend/src/utils/generateFillColors.ts`: the
 * `step` expression that colours a district by a percentage property, using
 * `g` colours of a gradient (`GRADIENT_COLORS`, 5 in `frontend/src/config.ts`).
 */
module FillColors {
  import opened Wrappers
  import opened Expression

  const GradientColors: nat := 5

  /** `gradient[idx]`, which is `undefined` past the end of the array. */
  function ColorAt(gradient: seq<string>, idx: nat): (e: Expr)
    ensures idx < |gradient| ==> e == Str(gradient[idx])
    ensures idx >= |gradient| ==> e == Undefined
  {
    if idx < |gradient| then Str(gradient[idx]) else Undefined
  }

  /** The `idx`-th threshold `((idx + 1) * 100) / g`. */
  function Threshold(idx: nat, g: nat): real
    requires g >= 1
  {
    (idx + 1) as real * 100.0 / g as real
  }

  /** The thresholds rise strictly, and all of them lie strictly between 0 and 100. */
  lemma ThresholdsIncrease(i: nat, j: nat, g: nat)
    requires g >= 1 && i < j < g - 1
    ensures 0.0 < Threshold(i, g) < Threshold(j, g) < 100.0
  {
    var G := g as real;
    assert (i + 1) as real * 100.0 < (j + 1) as real * 100.0;
    assert (j + 1) as real * 100.0 < G * 100.0;
    assert Threshold(i, g) * G == (i + 1) as real * 100.0;
    assert Threshold(j, g) * G == (j + 1) as real * 100.0;
  }

  /** With five colours the thresholds are 20, 40, 60 and 80. */
  lemma FiveThresholds()
    ensures Threshold(0, GradientColors) == 20.0 && Threshold(1, GradientColors) == 40.0
    ensures Threshold(2, GradientColors) == 60.0 && Threshold(3, GradientColors) == 80.0
  {
  }

  /**
   * `generateFillColors(key, gradient)` with `g == GRADIENT_COLORS`. Without a
   * gradient the colour is the constant grey; otherwise the list is "step",
   * the property, then colour 0, threshold 0, …, colour g-2, threshold g-2
   * and colour g-1. `Array(g - 1)` needs `g >= 1`.
   */
  method GenerateFillColors(key: string, gradient: Option<seq<string>>, g: nat) returns (e: Expr)
    requires g >= 1
    ensures gradient.None? ==> e == Str("#616161")
    ensures gradient.Some? ==>
      && e.List? && |e.items| == 2 * g + 1
      && e.items[0] == Str("step") && e.items[1] == Get(key)
      && (forall idx :: 0 <= idx < g - 1 ==>
            e.items[2 + 2 * idx] == ColorAt(gradient.value, idx) && e.items[3 + 2 * idx] == Num(Threshold(idx, g)))
      && e.items[2 * g] == ColorAt(gradient.value, g - 1)
  {
    if gradient.None? {
      return Str("#616161");
    }
    var gr := gradient.value;
    var arr := [Str("step"), Get(key)];
    for idx := 0 to g - 1
      invariant |arr| == 2 + 2 * idx
      invariant arr[0] == Str("step") && arr[1] == Get(key)
      invariant forall j :: 0 <= j < idx ==> arr[2 + 2 * j] == ColorAt(gr, j) && arr[3 + 2 * j] == Num(Threshold(j, g))
    {
      arr := arr + [ColorAt(gr, idx), Num(Threshold(idx, g))];
    }
    arr := arr + [ColorAt(gr, g - 1)];
    e := List(arr);
  }
}
