/**
 * The evaluation of a permanent district's clauses in
 * `scripts/match_addresses.py` (lines 290-328): each clause is a chain of
 * boolean masks over the group's address rows, and the rows it selects are
 * added to the district's rows.
 *
 * `district_addresses` starts as `None` and `concat(None, x)` is `x`, so it is
 * modelled as a sequence that starts empty; a mask on `None` selects nothing.
 */
module Evaluate {
  import opened Wrappers
  import opened Const
  import opened Records
  import opened BorderParser

  /** `rows[mask]`: the rows for which `p` holds, in table order. */
  function Filter(rows: seq<AddressRow>, p: AddressRow -> bool): (r: seq<AddressRow>)
    ensures |r| <= |rows|
    ensures forall x :: x in r <==> x in rows && p(x)
    decreases |rows|
  {
    if rows == [] then []
    else (if p(rows[0]) then [rows[0]] else []) + Filter(rows[1..], p)
  }

  /**
   * A mask keeps table order and multiplicity: masking a concatenation is
   * masking each part.
   */
  lemma {:induction false} FilterConcat(a: seq<AddressRow>, b: seq<AddressRow>, p: AddressRow -> bool)
    ensures Filter(a + b, p) == Filter(a, p) + Filter(b, p)
    decreases |a|
  {
    if a == [] {
      assert a + b == b;
    } else {
      assert (a + b)[0] == a[0] && (a + b)[1..] == a[1..] + b;
      FilterConcat(a[1..], b, p);
    }
  }

  /** A single row is kept exactly when the mask holds for it. */
  lemma FilterSingle(x: AddressRow, p: AddressRow -> bool)
    ensures Filter([x], p) == if p(x) then [x] else []
  {
    assert [x][1..] == [];
  }

  /** Two masks in a row are one mask with both conditions. */
  lemma {:induction false} FilterThen(rows: seq<AddressRow>, p: AddressRow -> bool, q: AddressRow -> bool, pq: AddressRow -> bool)
    requires forall x :: pq(x) == (p(x) && q(x))
    ensures Filter(Filter(rows, p), q) == Filter(rows, pq)
    decreases |rows|
  {
    if rows != [] {
      FilterThen(rows[1..], p, q, pq);
      if p(rows[0]) {
        assert Filter(rows, p) == [rows[0]] + Filter(rows[1..], p);
        assert Filter(rows, p)[1..] == Filter(rows[1..], p);
      } else {
        assert Filter(rows, p) == Filter(rows[1..], p);
      }
    }
  }

  /** Masks that agree on every row select the same rows. */
  lemma {:induction false} FilterSame(rows: seq<AddressRow>, p: AddressRow -> bool, q: AddressRow -> bool)
    requires forall x :: p(x) == q(x)
    ensures Filter(rows, p) == Filter(rows, q)
    decreases |rows|
  {
    if rows != [] {
      FilterSame(rows[1..], p, q);
    }
  }

  /** A mask on a table with distinct keys keeps the keys distinct. */
  lemma {:induction false} FilterUnique(rows: seq<AddressRow>, p: AddressRow -> bool)
    requires UniqueKeys(rows)
    ensures UniqueKeys(Filter(rows, p))
    decreases |rows|
  {
    if rows != [] {
      assert UniqueKeys(rows[1..]) by {
        forall i, j | 0 <= i < j < |rows[1..]| ensures rows[1..][i].fAddress != rows[1..][j].fAddress {
          assert rows[1..][i] == rows[i + 1] && rows[1..][j] == rows[j + 1];
        }
      }
      FilterUnique(rows[1..], p);
      var rest := Filter(rows[1..], p);
      if p(rows[0]) {
        var r := [rows[0]] + rest;
        forall i, j | 0 <= i < j < |r| ensures r[i].fAddress != r[j].fAddress {
          if i == 0 {
            assert r[j] in rows[1..];
            var m :| 0 <= m < |rows[1..]| && rows[1..][m] == r[j];
            assert rows[m + 1] == r[j];
          } else {
            assert r[i] == rest[i - 1] && r[j] == rest[j - 1];
          }
        }
      }
    }
  }

  // ---------------------------------------------------------------------------
  // One clause (lines 291-328)
  // ---------------------------------------------------------------------------

  /** The parity filter of lines 306-311; Python's `%` and Dafny's agree for the divisor 2. */
  predicate ParityMatch(c: Clause, x: AddressRow)
  {
    if c.isEven then x.buildingN % 2 == 0
    else if c.isOdd then x.buildingN % 2 == 1
    else true
  }

  /** A range bound counts only when its `building_n` is set (lines 318-321). */
  predicate FromOk(c: Clause, order: (nat, string) -> int, x: AddressRow)
  {
    c.numFrom.Some? && c.numFrom.value.n.Some? ==> x.buildingO >= order(c.numFrom.value.n.value, c.numFrom.value.l)
  }

  predicate ToOk(c: Clause, order: (nat, string) -> int, x: AddressRow)
  {
    c.numTo.Some? && c.numTo.value.n.Some? ==> x.buildingO <= order(c.numTo.value.n.value, c.numTo.value.l)
  }

  /**
   * Lines 313-323: a present range, with both bounds inclusive on the
   * building order, overrides `number`, which must equal the building exactly.
   */
  predicate NumberMatch(c: Clause, order: (nat, string) -> int, x: AddressRow)
  {
    if c.numFrom.Some? || c.numTo.Some? then FromOk(c, order, x) && ToOk(c, order, x)
    else c.number.Some? ==> x.building == c.number.value
  }

  /**
   * The rows a clause selects: rows of the clause's town whose address is
   * neither claimed by a special district nor already in the district; a
   * whole-town clause takes all of them, otherwise the street must match, a
   * whole-street clause takes all of those, and any other clause also
   * applies its parity and its range or number.
   */
  predicate Selects(c: Clause, special: seq<string>, sofar: seq<string>, order: (nat, string) -> int, x: AddressRow)
  {
    && x.town == c.town && x.fAddress !in special && x.fAddress !in sofar
    && (c.isTown || (x.street == c.street && (c.isStreet || (ParityMatch(c, x) && NumberMatch(c, order, x)))))
  }

  /** `Selects` as a mask. */
  function Selector(c: Clause, special: seq<string>, sofar: seq<string>, order: (nat, string) -> int): AddressRow -> bool
  {
    x => Selects(c, special, sofar, order, x)
  }

  function NumberSelector(c: Clause, order: (nat, string) -> int): AddressRow -> bool
  {
    x => NumberMatch(c, order, x)
  }

  /** The masks of lines 291-295: the town, and no address already taken. */
  predicate Open(c: Clause, special: seq<string>, sofar: seq<string>, x: AddressRow)
  {
    x.town == c.town && x.fAddress !in special && x.fAddress !in sofar
  }

  /** `Open` and, unless the clause is a whole town, the street (line 299). */
  predicate OnStreet(c: Clause, special: seq<string>, sofar: seq<string>, x: AddressRow)
  {
    Open(c, special, sofar, x) && (c.isTown || x.street == c.street)
  }

  function OpenSelector(c: Clause, special: seq<string>, sofar: seq<string>): AddressRow -> bool
  {
    x => Open(c, special, sofar, x)
  }

  function StreetSelector(c: Clause, special: seq<string>, sofar: seq<string>): AddressRow -> bool
  {
    x => OnStreet(c, special, sofar, x)
  }

  function ParitySelector(c: Clause): AddressRow -> bool
  {
    x => ParityMatch(c, x)
  }

  /**
   * Lines 291-323 for one clause, mask after mask as the script applies them:
   * the result is the table rows that the clause selects, in table order.
   * `sofar` holds the addresses already in the district.
   */
  method SelectRows(pool: seq<AddressRow>, c: Clause, special: seq<string>, sofar: seq<string>, order: (nat, string) -> int)
    returns (t: seq<AddressRow>)
    ensures t == Filter(pool, Selector(c, special, sofar, order))
  {
    t := StreetRows(pool, c, special, sofar);
    var p := StreetSelector(c, special, sofar);
    var sel := Selector(c, special, sofar, order);
    if c.isTown || c.isStreet {
      FilterSame(pool, p, sel);
      return;
    }
    var u := Parity(t, c);
    t := Numbers(u, c, order);
    MasksInTurn(pool, c, special, sofar, order);
  }

  /** The street, parity and number masks of a clause in turn are `Selects`. */
  lemma MasksInTurn(pool: seq<AddressRow>, c: Clause, special: seq<string>, sofar: seq<string>, order: (nat, string) -> int)
    requires !c.isTown && !c.isStreet
    ensures Filter(Filter(Filter(pool, StreetSelector(c, special, sofar)), ParitySelector(c)), NumberSelector(c, order))
      == Filter(pool, Selector(c, special, sofar, order))
  {
    var p := StreetSelector(c, special, sofar);
    var q := ParitySelector(c);
    var r := NumberSelector(c, order);
    var sel := Selector(c, special, sofar, order);
    var pq := (x: AddressRow) => OnStreet(c, special, sofar, x) && ParityMatch(c, x);
    assert forall x :: pq(x) == (p(x) && q(x));
    FilterThen(pool, p, q, pq);
    assert forall x :: sel(x) == (pq(x) && r(x));
    FilterThen(pool, pq, r, sel);
  }

  /** Lines 291-295 and the street mask of line 299. */
  method StreetRows(pool: seq<AddressRow>, c: Clause, special: seq<string>, sofar: seq<string>) returns (t: seq<AddressRow>)
    ensures t == Filter(pool, StreetSelector(c, special, sofar))
  {
    t := OpenRows(pool, c, special, sofar);
    var p := OpenSelector(c, special, sofar);
    var sel := StreetSelector(c, special, sofar);
    if c.isTown {
      FilterSame(pool, p, sel);
    } else {
      var q := (x: AddressRow) => x.street == c.street;
      t := Filter(t, q);
      FilterThen(pool, p, q, sel);
    }
  }

  /** Lines 291-295: the town mask, then the two "not yet taken" masks. */
  method OpenRows(pool: seq<AddressRow>, c: Clause, special: seq<string>, sofar: seq<string>) returns (t: seq<AddressRow>)
    ensures t == Filter(pool, OpenSelector(c, special, sofar))
  {
    var p := (x: AddressRow) => x.town == c.town;
    t := Filter(pool, p);
    var q := (x: AddressRow) => x.fAddress !in special;
    t := Filter(t, q);
    var pq := (x: AddressRow) => p(x) && q(x);
    FilterThen(pool, p, q, pq);
    var r := (x: AddressRow) => x.fAddress !in sofar;
    t := Filter(t, r);
    FilterThen(pool, pq, r, OpenSelector(c, special, sofar));
  }

  /** Lines 306-311: the parity mask of an even or odd clause. */
  method Parity(t0: seq<AddressRow>, c: Clause) returns (t: seq<AddressRow>)
    ensures t == Filter(t0, ParitySelector(c))
  {
    var q := ParitySelector(c);
    if c.isEven {
      var even := (x: AddressRow) => x.buildingN % 2 == 0;
      t := Filter(t0, even);
      FilterSame(t0, even, q);
    } else if c.isOdd {
      var odd := (x: AddressRow) => x.buildingN % 2 == 1;
      t := Filter(t0, odd);
      FilterSame(t0, odd, q);
    } else {
      t := t0;
      AllRows(t0, q);
    }
  }

  /** A mask that holds on every row selects every row. */
  lemma {:induction false} AllRows(rows: seq<AddressRow>, p: AddressRow -> bool)
    requires forall x :: p(x)
    ensures Filter(rows, p) == rows
    decreases |rows|
  {
    if rows != [] {
      AllRows(rows[1..], p);
    }
  }

  /** Lines 313-323: the range masks, or else the number mask. */
  method Numbers(t0: seq<AddressRow>, c: Clause, order: (nat, string) -> int) returns (t: seq<AddressRow>)
    ensures t == Filter(t0, NumberSelector(c, order))
  {
    var nm := NumberSelector(c, order);
    t := t0;
    if c.numFrom.Some? || c.numTo.Some? {
      var f := (x: AddressRow) => FromOk(c, order, x);
      if c.numFrom.Some? && c.numFrom.value.n.Some? {
        var lower := order(c.numFrom.value.n.value, c.numFrom.value.l);
        var atLeast := (x: AddressRow) => x.buildingO >= lower;
        t := Filter(t, atLeast);
        FilterSame(t0, atLeast, f);
      } else {
        AllRows(t0, f);
      }
      var g := (x: AddressRow) => ToOk(c, order, x);
      var fg := (x: AddressRow) => f(x) && g(x);
      if c.numTo.Some? && c.numTo.value.n.Some? {
        var upper := order(c.numTo.value.n.value, c.numTo.value.l);
        var atMost := (x: AddressRow) => x.buildingO <= upper;
        t := Filter(t, atMost);
        FilterSame(Filter(t0, f), atMost, g);
      } else {
        AllRows(Filter(t0, f), g);
      }
      FilterThen(t0, f, g, fg);
      FilterSame(t0, fg, nm);
    } else if c.number.Some? {
      var number := c.number.value;
      var same := (x: AddressRow) => x.building == number;
      t := Filter(t, same);
      FilterSame(t0, same, nm);
    } else {
      AllRows(t0, nm);
    }
  }

  // ---------------------------------------------------------------------------
  // All clauses of a district (lines 290-325)
  // ---------------------------------------------------------------------------

  /**
   * `district_addresses` after the clauses `cs`: each clause adds the rows it
   * selects among those whose address is not yet in the district.
   */
  function Accumulate(pool: seq<AddressRow>, cs: seq<Clause>, special: seq<string>, order: (nat, string) -> int): (a: seq<AddressRow>)
    ensures forall x :: x in a ==> x in pool && x.fAddress !in special
    decreases |cs|
  {
    if cs == [] then []
    else
      var prev := Accumulate(pool, cs[..|cs| - 1], special, order);
      prev + Filter(pool, Selector(cs[|cs| - 1], special, Keys(prev), order))
  }

  /** A row a clause selects when nothing is in the district yet. */
  predicate Matches(c: Clause, special: seq<string>, order: (nat, string) -> int, x: AddressRow)
  {
    Selects(c, special, [], order, x)
  }

  /** No address enters a district twice (the mask of lines 293-295). */
  lemma {:induction false} AccumulateUnique(pool: seq<AddressRow>, cs: seq<Clause>, special: seq<string>, order: (nat, string) -> int)
    requires UniqueKeys(pool)
    ensures UniqueKeys(Accumulate(pool, cs, special, order))
    decreases |cs|
  {
    if cs != [] {
      var prev := Accumulate(pool, cs[..|cs| - 1], special, order);
      AccumulateUnique(pool, cs[..|cs| - 1], special, order);
      var sel := Selector(cs[|cs| - 1], special, Keys(prev), order);
      var add := Filter(pool, sel);
      FilterUnique(pool, sel);
      forall x | x in add ensures x.fAddress !in Keys(prev) {
        assert sel(x);
      }
      UniqueAppend(prev, add);
    }
  }

  /** Two tables with unique keys and no key in common join into one with unique keys. */
  lemma UniqueAppend(a: seq<AddressRow>, b: seq<AddressRow>)
    requires UniqueKeys(a) && UniqueKeys(b)
    requires forall x :: x in b ==> x.fAddress !in Keys(a)
    ensures UniqueKeys(a + b)
  {
    var ab := a + b;
    forall i, j | 0 <= i < j < |ab| ensures ab[i].fAddress != ab[j].fAddress {
      if j < |a| {
        assert ab[i] == a[i] && ab[j] == a[j];
      } else if i >= |a| {
        assert ab[i] == b[i - |a|] && ab[j] == b[j - |a|];
      } else {
        assert ab[i] == a[i] && ab[j] == b[j - |a|];
        assert b[j - |a|] in b;
        assert a[i].fAddress == Keys(a)[i];
      }
    }
  }

  /** Every row of the district is a table row that some clause selects. */
  lemma {:induction false} AccumulateSound(pool: seq<AddressRow>, cs: seq<Clause>, special: seq<string>, order: (nat, string) -> int, x: AddressRow)
    requires x in Accumulate(pool, cs, special, order)
    ensures x in pool && exists k :: 0 <= k < |cs| && Matches(cs[k], special, order, x)
    decreases |cs|
  {
    var init := cs[..|cs| - 1];
    var prev := Accumulate(pool, init, special, order);
    if x in prev {
      AccumulateSound(pool, init, special, order, x);
      var k :| 0 <= k < |init| && Matches(init[k], special, order, x);
      assert init[k] == cs[k];
    } else {
      assert Matches(cs[|cs| - 1], special, order, x);
    }
  }

  /** Every table row that some clause selects is in the district, given distinct keys. */
  lemma {:induction false} AccumulateComplete(pool: seq<AddressRow>, cs: seq<Clause>, special: seq<string>, order: (nat, string) -> int, x: AddressRow, k: nat)
    requires UniqueKeys(pool) && x in pool
    requires k < |cs| && Matches(cs[k], special, order, x)
    ensures x in Accumulate(pool, cs, special, order)
    decreases |cs|
  {
    var init := cs[..|cs| - 1];
    var c := cs[|cs| - 1];
    var prev := Accumulate(pool, init, special, order);
    assert Accumulate(pool, cs, special, order) == prev + Filter(pool, Selector(c, special, Keys(prev), order));
    if k < |init| {
      assert init[k] == cs[k];
      AccumulateComplete(pool, init, special, order, x, k);
    } else if x.fAddress in Keys(prev) {
      var i :| 0 <= i < |prev| && Keys(prev)[i] == x.fAddress;
      var iy :| 0 <= iy < |pool| && pool[iy] == prev[i];
      var ix :| 0 <= ix < |pool| && pool[ix] == x;
      assert iy == ix;
    } else {
      assert Selector(c, special, Keys(prev), order)(x);
    }
  }

  /**
   * With distinct keys in the table, the district holds exactly the table
   * rows that some clause selects on its own: barring rows already taken
   * changes which clause contributes a row, never whether it is there.
   */
  lemma AccumulateExactly(pool: seq<AddressRow>, cs: seq<Clause>, special: seq<string>, order: (nat, string) -> int, x: AddressRow)
    requires UniqueKeys(pool)
    ensures x in Accumulate(pool, cs, special, order) <==> x in pool && exists k :: 0 <= k < |cs| && Matches(cs[k], special, order, x)
  {
    if x in Accumulate(pool, cs, special, order) {
      AccumulateSound(pool, cs, special, order, x);
    }
    if x in pool && exists k :: 0 <= k < |cs| && Matches(cs[k], special, order, x) {
      var k :| 0 <= k < |cs| && Matches(cs[k], special, order, x);
      AccumulateComplete(pool, cs, special, order, x, k);
    }
  }

  /**
   * Whether `district_addresses` is no longer `None` after the clauses `cs`:
   * a whole-town or whole-street clause always concatenates its rows, any
   * other clause only when it selects some (lines 297-325).
   */
  function Produced(pool: seq<AddressRow>, cs: seq<Clause>, special: seq<string>, order: (nat, string) -> int): bool
    decreases |cs|
  {
    if cs == [] then false
    else
      var c := cs[|cs| - 1];
      var prev := Accumulate(pool, cs[..|cs| - 1], special, order);
      || Produced(pool, cs[..|cs| - 1], special, order)
      || c.isTown || c.isStreet
      || Filter(pool, Selector(c, special, Keys(prev), order)) != []
  }

  /** A district with rows has a table. */
  lemma {:induction false} RowsAreProduced(pool: seq<AddressRow>, cs: seq<Clause>, special: seq<string>, order: (nat, string) -> int)
    ensures Accumulate(pool, cs, special, order) != [] ==> Produced(pool, cs, special, order)
    decreases |cs|
  {
    if cs != [] {
      RowsAreProduced(pool, cs[..|cs| - 1], special, order);
    }
  }

  /**
   * The clause loop of lines 290-325; `special` is `special_addresses` and
   * `order` is `get_building_order`. `made` tells whether
   * `district_addresses` is no longer `None`.
   */
  method EvaluateDistrict(pool: seq<AddressRow>, cs: seq<Clause>, special: seq<string>, order: (nat, string) -> int)
    returns (addrs: seq<AddressRow>, made: bool)
    ensures addrs == Accumulate(pool, cs, special, order)
    ensures made == Produced(pool, cs, special, order)
  {
    addrs := [];
    made := false;
    for i := 0 to |cs|
      invariant addrs == Accumulate(pool, cs[..i], special, order)
      invariant made == Produced(pool, cs[..i], special, order)
    {
      var t := SelectRows(pool, cs[i], special, Keys(addrs), order);
      assert cs[..i + 1][..i] == cs[..i];
      if cs[i].isTown || cs[i].isStreet || t != [] {
        made := true;
      }
      addrs := addrs + t;
    }
    assert cs[..|cs|] == cs;
  }
}
