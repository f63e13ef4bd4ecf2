/**
 * The per-TERYT loop of `main` in `scripts/match_addresses.py` (lines 86-111
 * and 325-341): the group's districts are ordered by type, a special district
 * takes the rows at its own address and bars that address from the permanent
 * districts after it, a permanent district's borders are parsed and
 * evaluated, every row is tagged with its district, and two reports are
 * derived from the result.
 *
 * `addresses` is the group's address table after lines 79-84 (the sort of
 * line 82 is not modelled) and `streets` the voivodeship's street table.
 */
module MatchGroup {
  import opened Wrappers
  import opened Const
  import opened Records
  import opened StreetSearch
  import opened BorderParser
  import opened Evaluate

  /** A row of `addresses_out`: an address with its `district_id`. */
  datatype Tagged = Tagged(row: AddressRow, districtId: string)

  // ---------------------------------------------------------------------------
  // Ordering by type (line 87)
  // ---------------------------------------------------------------------------

  /** The sort key `district_types[type]`; a type outside the table is NaN, which sorts last. */
  function TypeKey(d: District): (k: nat)
    ensures k <= 2
    ensures k == 0 <==> d.kind in SpecialTypes
    ensures k == 1 <==> d.kind == Permanent
  {
    match DistrictTypeRank(d.kind)
    case Some(r) => r
    case None => 2
  }

  /** The districts with sort key `k`, in table order. */
  function OfKey(ds: seq<District>, k: nat): (s: seq<District>)
    ensures forall i :: 0 <= i < |s| ==> TypeKey(s[i]) == k
    decreases |ds|
  {
    if ds == [] then []
    else (if TypeKey(ds[0]) == k then [ds[0]] else []) + OfKey(ds[1..], k)
  }

  lemma {:induction false} OfKeyPartition(ds: seq<District>)
    ensures multiset(OfKey(ds, 0) + OfKey(ds, 1) + OfKey(ds, 2)) == multiset(ds)
    decreases |ds|
  {
    if ds != [] {
      var t := ds[1..];
      OfKeyPartition(t);
      var h := [ds[0]];
      assert ds == h + t;
      assert OfKey(ds, 0) == (if TypeKey(ds[0]) == 0 then h else []) + OfKey(t, 0);
      assert OfKey(ds, 1) == (if TypeKey(ds[0]) == 1 then h else []) + OfKey(t, 1);
      assert OfKey(ds, 2) == (if TypeKey(ds[0]) == 2 then h else []) + OfKey(t, 2);
      assert multiset(OfKey(ds, 0) + OfKey(ds, 1) + OfKey(ds, 2))
          == multiset(OfKey(ds, 0)) + multiset(OfKey(ds, 1)) + multiset(OfKey(ds, 2));
      assert multiset(OfKey(t, 0) + OfKey(t, 1) + OfKey(t, 2))
          == multiset(OfKey(t, 0)) + multiset(OfKey(t, 1)) + multiset(OfKey(t, 2));
    }
  }

  /**
   * `sort_values("type", key=...)`: the districts ordered by the rank of their
   * type; within a rank the table order is kept.
   */
  function OrderByType(ds: seq<District>): (r: seq<District>)
    ensures multiset(r) == multiset(ds)
    ensures forall i, j :: 0 <= i < j < |r| ==> TypeKey(r[i]) <= TypeKey(r[j])
  {
    OfKeyPartition(ds);
    var a, b, c := OfKey(ds, 0), OfKey(ds, 1), OfKey(ds, 2);
    assert forall i :: 0 <= i < |a + b + c| ==> TypeKey((a + b + c)[i]) == if i < |a| then 0 else if i < |a| + |b| then 1 else 2 by {
      forall i | 0 <= i < |a + b + c|
        ensures TypeKey((a + b + c)[i]) == if i < |a| then 0 else if i < |a| + |b| then 1 else 2
      {
        if i < |a| { assert (a + b + c)[i] == a[i]; }
        else if i < |a| + |b| { assert (a + b + c)[i] == b[i - |a|]; }
        else { assert (a + b + c)[i] == c[i - |a| - |b|]; }
      }
    }
    a + b + c
  }

  /** Every institutional district comes before every permanent one. */
  lemma SpecialsFirst(ds: seq<District>, i: nat, j: nat)
    requires i < |OrderByType(ds)| && j < |OrderByType(ds)|
    requires OrderByType(ds)[i].kind in SpecialTypes && OrderByType(ds)[j].kind == Permanent
    ensures i < j
  {
  }

  // ---------------------------------------------------------------------------
  // Tables of one district (lines 96-99)
  // ---------------------------------------------------------------------------

  function InTeryt(t: string): AddressRow -> bool
  {
    (x: AddressRow) => x.teryt == t
  }

  function AtAddress(a: string): AddressRow -> bool
  {
    (x: AddressRow) => x.fAddress == a
  }

  /** `teryt_addresses`: the rows with the district's TERYT, in table order. */
  function Pool(addresses: seq<AddressRow>, t: string): seq<AddressRow>
  {
    Filter(addresses, InTeryt(t))
  }

  /** The TERYT whose streets a district uses: every Warsaw borough uses the city's. */
  function StreetTeryt(t: string): string
  {
    if |t| >= 4 && t[..4] == "1465" then "146501" else t
  }

  /** `streets[streets["teryt"] == t]`. */
  function StreetsOf(streets: seq<StreetRow>, t: string): (r: seq<StreetRow>)
    ensures forall s :: s in r <==> s in streets && s.teryt == t
    decreases |streets|
  {
    if streets == [] then []
    else (if streets[0].teryt == t then [streets[0]] else []) + StreetsOf(streets[1..], t)
  }

  /** All Warsaw boroughs look streets up in the same table. */
  lemma WarsawSharesStreets(streets: seq<StreetRow>, t1: string, t2: string)
    requires |t1| >= 4 && t1[..4] == "1465" && |t2| >= 4 && t2[..4] == "1465"
    ensures StreetsOf(streets, StreetTeryt(t1)) == StreetsOf(streets, StreetTeryt(t2))
    ensures forall s :: s in StreetsOf(streets, StreetTeryt(t1)) <==> s in streets && s.teryt == "146501"
  {
  }

  // ---------------------------------------------------------------------------
  // One district (lines 95-111, 117-328)
  // ---------------------------------------------------------------------------

  /** The addresses claimed by the special districts in `ds`, in order (line 102). */
  function Specials(ds: seq<District>): (r: seq<string>)
    ensures forall a :: a in r <==> exists j :: 0 <= j < |ds| && ds[j].kind != Permanent && ds[j].fAddress == a
    decreases |ds|
  {
    if ds == [] then []
    else
      var init := Specials(ds[..|ds| - 1]);
      assert forall j :: 0 <= j < |ds| - 1 ==> ds[..|ds| - 1][j] == ds[j];
      init + (if ds[|ds| - 1].kind != Permanent then [ds[|ds| - 1].fAddress] else [])
  }

  /**
   * The rows one district takes, given the addresses claimed so far. A
   * special district takes the rows at its own address; a permanent one the
   * rows its parsed clauses `cs` select. `made` tells whether
   * `district_addresses` is no longer `None`.
   */
  method MatchDistrict(d: District, addresses: seq<AddressRow>, streets: seq<StreetRow>, special: seq<string>, env: Env)
    returns (rows: seq<AddressRow>, made: bool, cs: seq<Clause>)
    ensures d.kind != Permanent ==> rows == Filter(Pool(addresses, d.teryt), AtAddress(d.fAddress)) && made && cs == []
    ensures d.kind == Permanent ==>
      && rows == Accumulate(Pool(addresses, d.teryt), cs, special, env.buildingOrder)
      && made == Produced(Pool(addresses, d.teryt), cs, special, env.buildingOrder)
    ensures ClausesOk(cs, d, Pool(addresses, d.teryt))
  {
    var pool := Pool(addresses, d.teryt);
    var tStreets := StreetsOf(streets, StreetTeryt(d.teryt));
    if d.kind != Permanent {
      rows := Filter(pool, AtAddress(d.fAddress));
      made := true;
      cs := [];
      return;
    }
    var p := new Parser(pool, tStreets, env, d.town);
    p.Parse(d.borders);
    cs := p.Clauses();
    rows, made := EvaluateDistrict(pool, cs, special, env.buildingOrder);
  }

  // ---------------------------------------------------------------------------
  // The group (lines 86-111, 325-341)
  // ---------------------------------------------------------------------------

  /**
   * Every clause selects at most one parity and names a town of the
   * district's pool or the district's own town.
   */
  predicate ClausesOk(cs: seq<Clause>, d: District, pool: seq<AddressRow>)
  {
    forall k :: 0 <= k < |cs| ==> ParityOk(cs[k]) && (cs[k].town == d.town || IsTown(pool, cs[k].town))
  }

  /** `district_id = f"{teryt}_{district.number}"` on every row. */
  function Tag(rows: seq<AddressRow>, id: string): (r: seq<Tagged>)
    ensures |r| == |rows| && forall i :: 0 <= i < |rows| ==> r[i] == Tagged(rows[i], id)
  {
    seq(|rows|, i requires 0 <= i < |rows| => Tagged(rows[i], id))
  }

  function DistrictId(teryt: string, d: District): string
  {
    teryt + "_" + d.number
  }

  /** `addresses_out`: the districts' rows, tagged, one district after another. */
  function TagAll(teryt: string, ds: seq<District>, blocks: seq<seq<AddressRow>>): seq<Tagged>
    requires |blocks| == |ds|
    decreases |ds|
  {
    if ds == [] then []
    else TagAll(teryt, ds[..|ds| - 1], blocks[..|ds| - 1]) + Tag(blocks[|ds| - 1], DistrictId(teryt, ds[|ds| - 1]))
  }

  /** A tagged row comes from one of the districts and carries that district's id. */
  lemma {:induction false} TagAllFrom(teryt: string, ds: seq<District>, blocks: seq<seq<AddressRow>>, e: Tagged)
    requires |blocks| == |ds| && e in TagAll(teryt, ds, blocks)
    ensures exists k :: 0 <= k < |ds| && e.row in blocks[k] && e.districtId == DistrictId(teryt, ds[k])
    decreases |ds|
  {
    var n := |ds| - 1;
    if e in TagAll(teryt, ds[..n], blocks[..n]) {
      TagAllFrom(teryt, ds[..n], blocks[..n], e);
      var k :| 0 <= k < n && e.row in blocks[..n][k] && e.districtId == DistrictId(teryt, ds[..n][k]);
      assert blocks[..n][k] == blocks[k] && ds[..n][k] == ds[k];
    } else {
      var i :| 0 <= i < |blocks[n]| && Tag(blocks[n], DistrictId(teryt, ds[n]))[i] == e;
    }
  }

  function TagKeys(out: seq<Tagged>): (ks: seq<string>)
    ensures |ks| == |out| && forall i :: 0 <= i < |out| ==> ks[i] == out[i].row.fAddress
  {
    seq(|out|, i requires 0 <= i < |out| => out[i].row.fAddress)
  }

  /** The rows of `es` whose address occurs at least twice in `keys`, in order. */
  function RepeatedIn(es: seq<Tagged>, keys: seq<string>): (r: seq<Tagged>)
    ensures forall e :: e in r <==> e in es && multiset(keys)[e.row.fAddress] >= 2
    decreases |es|
  {
    if es == [] then []
    else (if multiset(keys)[es[0].row.fAddress] >= 2 then [es[0]] else []) + RepeatedIn(es[1..], keys)
  }

  /**
   * `addresses_out[addresses_out.duplicated(subset=["f_address"], keep=False)]`:
   * every output row whose address is in the output more than once.
   */
  function Duplicated(out: seq<Tagged>): (r: seq<Tagged>)
    ensures forall e :: e in r <==> e in out && multiset(TagKeys(out))[e.row.fAddress] >= 2
  {
    RepeatedIn(out, TagKeys(out))
  }

  /** An address taken by two districts is reported with both of its rows. */
  lemma DuplicatedBoth(out: seq<Tagged>, i: nat, j: nat)
    requires i < j < |out| && out[i].row.fAddress == out[j].row.fAddress
    ensures out[i] in Duplicated(out) && out[j] in Duplicated(out)
  {
    var ks := TagKeys(out);
    assert ks == ks[..i] + [ks[i]] + ks[i + 1..j] + [ks[j]] + ks[j + 1..];
    assert multiset(ks)[ks[i]] >= 2;
  }

  function NotIn(keys: seq<string>): AddressRow -> bool
  {
    (x: AddressRow) => x.fAddress !in keys
  }

  /** `addresses[~addresses["f_address"].isin(addresses_out.f_address)]`. */
  function NoDistrict(addresses: seq<AddressRow>, out: seq<Tagged>): (r: seq<AddressRow>)
    ensures forall x :: x in r <==> x in addresses && forall e :: e in out ==> e.row.fAddress != x.fAddress
  {
    var ks := TagKeys(out);
    assert forall x: AddressRow :: x.fAddress in ks <==> exists e :: e in out && e.row.fAddress == x.fAddress by {
      forall x: AddressRow | x.fAddress in ks ensures exists e :: e in out && e.row.fAddress == x.fAddress {
        var i :| 0 <= i < |ks| && ks[i] == x.fAddress;
        assert out[i] in out;
      }
    }
    Filter(addresses, NotIn(ks))
  }

  /** The two reports of lines 338-341. */
  datatype Reports = Reports(duplicated: seq<Tagged>, noDistrict: seq<AddressRow>)

  /**
   * The rows of the `k`-th district of `ds` given the clauses `cs` parsed
   * from its borders: a special district's own address rows, or what the
   * clauses select with the addresses of the special districts before it
   * barred. A special district has no clauses; a permanent district's
   * clauses each select at most one parity and name a known town.
   */
  predicate BlockOk(addresses: seq<AddressRow>, env: Env, ds: seq<District>, k: nat, block: seq<AddressRow>, cs: seq<Clause>)
    requires k < |ds|
  {
    && ClausesOk(cs, ds[k], Pool(addresses, ds[k].teryt))
    && if ds[k].kind != Permanent then block == Filter(Pool(addresses, ds[k].teryt), AtAddress(ds[k].fAddress)) && cs == []
       else block == Accumulate(Pool(addresses, ds[k].teryt), cs, Specials(ds[..k]), env.buildingOrder)
  }

  /** Whether the `k`-th district leaves `district_addresses` other than `None`. */
  predicate Made(addresses: seq<AddressRow>, env: Env, ds: seq<District>, k: nat, cs: seq<Clause>)
    requires k < |ds|
  {
    ds[k].kind != Permanent || Produced(Pool(addresses, ds[k].teryt), cs, Specials(ds[..k]), env.buildingOrder)
  }

  lemma SpecialsSnoc(ds: seq<District>, i: nat)
    requires i < |ds|
    ensures Specials(ds[..i + 1]) == Specials(ds[..i]) + (if ds[i].kind != Permanent then [ds[i].fAddress] else [])
  {
    assert ds[..i + 1][..i] == ds[..i];
  }

  lemma TagAllSnoc(teryt: string, ds: seq<District>, i: nat, blocks: seq<seq<AddressRow>>, b: seq<AddressRow>)
    requires i < |ds| && |blocks| == i
    ensures TagAll(teryt, ds[..i + 1], blocks + [b]) == TagAll(teryt, ds[..i], blocks) + Tag(b, DistrictId(teryt, ds[i]))
  {
    assert ds[..i + 1][..i] == ds[..i];
    assert (blocks + [b])[..i] == blocks;
  }

  /** Every district of `ds` so far holds the rows `BlockOk` describes. */
  predicate BlocksOk(addresses: seq<AddressRow>, env: Env, ds: seq<District>, blocks: seq<seq<AddressRow>>, clauses: seq<seq<Clause>>)
    requires |blocks| <= |ds| && |clauses| == |blocks|
  {
    forall k :: 0 <= k < |blocks| ==> BlockOk(addresses, env, ds, k, blocks[k], clauses[k])
  }

  /** Some district of `ds` so far left `district_addresses` other than `None`. */
  predicate AnyMade(addresses: seq<AddressRow>, env: Env, ds: seq<District>, clauses: seq<seq<Clause>>)
    requires |clauses| <= |ds|
  {
    exists k :: 0 <= k < |clauses| && Made(addresses, env, ds, k, clauses[k])
  }

  lemma BlocksSnoc(addresses: seq<AddressRow>, env: Env, ds: seq<District>,
                   blocks: seq<seq<AddressRow>>, clauses: seq<seq<Clause>>, b: seq<AddressRow>, c: seq<Clause>)
    requires |blocks| < |ds| && |clauses| == |blocks|
    requires BlocksOk(addresses, env, ds, blocks, clauses)
    requires BlockOk(addresses, env, ds, |blocks|, b, c)
    ensures BlocksOk(addresses, env, ds, blocks + [b], clauses + [c])
  {
    var i := |blocks|;
    forall k | 0 <= k < i + 1 ensures BlockOk(addresses, env, ds, k, (blocks + [b])[k], (clauses + [c])[k]) {
      if k < i {
        assert (blocks + [b])[k] == blocks[k] && (clauses + [c])[k] == clauses[k];
      }
    }
  }

  lemma MadeSnoc(addresses: seq<AddressRow>, env: Env, ds: seq<District>, clauses: seq<seq<Clause>>, c: seq<Clause>)
    requires |clauses| < |ds|
    ensures AnyMade(addresses, env, ds, clauses + [c]) <==> AnyMade(addresses, env, ds, clauses) || Made(addresses, env, ds, |clauses|, c)
  {
    var i := |clauses|;
    assert forall k :: 0 <= k < i ==> (clauses + [c])[k] == clauses[k];
    assert (clauses + [c])[i] == c;
  }

  /** The loop body of lines 90-328 for the `i`-th district. */
  method MatchStep(addresses: seq<AddressRow>, streets: seq<StreetRow>, env: Env, ds: seq<District>, i: nat, special: seq<string>)
    returns (rows: seq<AddressRow>, made: bool, cs: seq<Clause>)
    requires i < |ds| && special == Specials(ds[..i])
    ensures BlockOk(addresses, env, ds, i, rows, cs)
    ensures made == Made(addresses, env, ds, i, cs)
  {
    rows, made, cs := MatchDistrict(ds[i], addresses, streets, special, env);
  }

  /**
   * One TERYT group. `out` is `addresses_out`, `reports` is `None` exactly when
   * `addresses_out` stays `None`. The ghost results show the work: the
   * ordered districts, each district's rows and, for a permanent district,
   * its parsed clauses.
   */
  method MatchGroup(teryt: string, addresses: seq<AddressRow>, streets: seq<StreetRow>, districts: seq<District>, env: Env)
    returns (out: seq<Tagged>, reports: Option<Reports>,
             ghost ordered: seq<District>, ghost blocks: seq<seq<AddressRow>>, ghost clauses: seq<seq<Clause>>)
    ensures ordered == OrderByType(GroupDistricts(districts, teryt))
    ensures |blocks| == |ordered| && |clauses| == |ordered|
    ensures out == TagAll(teryt, ordered, blocks)
    ensures forall k :: 0 <= k < |ordered| ==> BlockOk(addresses, env, ordered, k, blocks[k], clauses[k])
    ensures reports.Some? <==> exists k :: 0 <= k < |ordered| && Made(addresses, env, ordered, k, clauses[k])
    ensures reports.Some? ==> reports.value == Reports(Duplicated(out), NoDistrict(addresses, out))
  {
    var group := OrderByType(GroupDistricts(districts, teryt));
    ordered := group;
    var any;
    out, any, blocks, clauses := MatchAll(teryt, addresses, streets, env, group);
    if any {
      reports := Some(Reports(Duplicated(out), NoDistrict(addresses, out)));
    } else {
      reports := None;
    }
  }

  /**
   * The loop over the ordered districts `ds` (lines 90-328); `special`
   * collects the addresses of the special districts met so far and `any`
   * tells whether `addresses_out` is still other than `None`.
   */
  method MatchAll(teryt: string, addresses: seq<AddressRow>, streets: seq<StreetRow>, env: Env, ds: seq<District>)
    returns (out: seq<Tagged>, any: bool, ghost blocks: seq<seq<AddressRow>>, ghost clauses: seq<seq<Clause>>)
    ensures |blocks| == |ds| && |clauses| == |ds|
    ensures out == TagAll(teryt, ds, blocks)
    ensures BlocksOk(addresses, env, ds, blocks, clauses)
    ensures any == AnyMade(addresses, env, ds, clauses)
  {
    out := [];
    blocks := [];
    clauses := [];
    var special: seq<string> := [];
    any := false;
    for i := 0 to |ds|
      invariant |blocks| == i && |clauses| == i
      invariant special == Specials(ds[..i])
      invariant out == TagAll(teryt, ds[..i], blocks)
      invariant BlocksOk(addresses, env, ds, blocks, clauses)
      invariant any == AnyMade(addresses, env, ds, clauses)
    {
      var rows, made, cs := MatchStep(addresses, streets, env, ds, i, special);
      TagAllSnoc(teryt, ds, i, blocks, rows);
      SpecialsSnoc(ds, i);
      BlocksSnoc(addresses, env, ds, blocks, clauses, rows, cs);
      MadeSnoc(addresses, env, ds, clauses, cs);
      out := out + Tag(rows, DistrictId(teryt, ds[i]));
      if ds[i].kind != Permanent {
        special := special + [ds[i].fAddress];
      }
      any := any || made;
      blocks := blocks + [rows];
      clauses := clauses + [cs];
    }
    assert ds[..|ds|] == ds;
  }

  // ---------------------------------------------------------------------------
  // What the group's output guarantees
  // ---------------------------------------------------------------------------

  /** With distinct keys in the table, no district holds the same address twice. */
  lemma BlockUnique(addresses: seq<AddressRow>, env: Env, ds: seq<District>, k: nat, block: seq<AddressRow>, cs: seq<Clause>)
    requires k < |ds| && BlockOk(addresses, env, ds, k, block, cs)
    requires UniqueKeys(addresses)
    ensures UniqueKeys(block)
  {
    var pool := Pool(addresses, ds[k].teryt);
    FilterUnique(addresses, InTeryt(ds[k].teryt));
    if ds[k].kind != Permanent {
      FilterUnique(pool, AtAddress(ds[k].fAddress));
    } else {
      AccumulateUnique(pool, cs, Specials(ds[..k]), env.buildingOrder);
    }
  }

  /** Every row a district takes is a row of its TERYT in the table. */
  lemma BlockFromTable(addresses: seq<AddressRow>, env: Env, ds: seq<District>, k: nat, block: seq<AddressRow>, cs: seq<Clause>, x: AddressRow)
    requires k < |ds| && BlockOk(addresses, env, ds, k, block, cs)
    requires x in block
    ensures x in addresses && x.teryt == ds[k].teryt
  {
  }

  /**
   * After ordering by type, no permanent district takes a row at the
   * address of an institutional district of the group.
   */
  lemma InstitutionsBarred(addresses: seq<AddressRow>, env: Env, g: seq<District>, k: nat, j: nat, block: seq<AddressRow>, cs: seq<Clause>, x: AddressRow)
    requires k < |OrderByType(g)| && j < |OrderByType(g)|
    requires OrderByType(g)[k].kind == Permanent && OrderByType(g)[j].kind in SpecialTypes
    requires BlockOk(addresses, env, OrderByType(g), k, block, cs)
    requires x in block
    ensures x.fAddress != OrderByType(g)[j].fAddress
  {
    var ds := OrderByType(g);
    SpecialsFirst(g, j, k);
    assert ds[..k][j] == ds[j];
    assert ds[j].kind != Permanent by {
      assert Permanent !in SpecialTypes;
    }
    assert ds[j].fAddress in Specials(ds[..k]);
  }

  /** Every output row is a table row, tagged with the id of a district of the group. */
  lemma OutputFromTable(teryt: string, addresses: seq<AddressRow>, env: Env, ds: seq<District>,
                        blocks: seq<seq<AddressRow>>, clauses: seq<seq<Clause>>, e: Tagged)
    requires |blocks| == |ds| && |clauses| == |ds|
    requires forall k :: 0 <= k < |ds| ==> BlockOk(addresses, env, ds, k, blocks[k], clauses[k])
    requires e in TagAll(teryt, ds, blocks)
    ensures e.row in addresses
    ensures exists k :: 0 <= k < |ds| && e.row.teryt == ds[k].teryt && e.districtId == DistrictId(teryt, ds[k])
  {
    TagAllFrom(teryt, ds, blocks, e);
    var k :| 0 <= k < |ds| && e.row in blocks[k] && e.districtId == DistrictId(teryt, ds[k]);
    BlockFromTable(addresses, env, ds, k, blocks[k], clauses[k], e.row);
  }

  /** `districts[districts["teryt"] == teryt]`. */
  function GroupDistricts(districts: seq<District>, teryt: string): (r: seq<District>)
    ensures forall d :: d in r <==> d in districts && d.teryt == teryt
    decreases |districts|
  {
    if districts == [] then []
    else (if districts[0].teryt == teryt then [districts[0]] else []) + GroupDistricts(districts[1..], teryt)
  }
}
