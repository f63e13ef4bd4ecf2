/**
 * The tables of `scripts/match_addresses.py` as sequences of records, and the
 * two lookups `is_town` and `is_street` as membership tests on them.
 */
module Records {

  /**
   * An address point of a TERYT group after normalisation. `buildingN` is the
   * `building_n` column once a missing value has become -1; `buildingO` is the
   * `building_o` column, computed outside this model.
   */
  datatype AddressRow = AddressRow(
    teryt: string, town: string, street: string, building: string,
    buildingN: int, buildingO: int, fAddress: string)

  /** A row of the street table. */
  datatype StreetRow = StreetRow(teryt: string, town: string, street: string)

  /** A polling district: its `type`, its `borders` text and its own address key. */
  datatype District = District(
    teryt: string, number: string, town: string, kind: string, borders: string, fAddress: string)

  /** `is_town(addresses, name)`: some address row lies in the town `name`. */
  function IsTown(pool: seq<AddressRow>, name: string): bool
  {
    if pool == [] then false else pool[0].town == name || IsTown(pool[1..], name)
  }

  lemma {:induction false} IsTownIff(pool: seq<AddressRow>, name: string)
    ensures IsTown(pool, name) <==> exists i :: 0 <= i < |pool| && pool[i].town == name
    decreases |pool|
  {
    if pool != [] {
      var t := pool[1..];
      IsTownIff(t, name);
      assert forall i :: 0 <= i < |t| ==> t[i] == pool[i + 1];
      if exists i :: 0 <= i < |pool| && pool[i].town == name {
        var i :| 0 <= i < |pool| && pool[i].town == name;
        assert i == 0 || t[i - 1].town == name;
      }
    }
  }

  /** `is_street(streets, town, name)`: the street table has `name` in `town`. */
  function IsStreet(streets: seq<StreetRow>, town: string, name: string): bool
  {
    if streets == [] then false
    else (streets[0].town == town && streets[0].street == name) || IsStreet(streets[1..], town, name)
  }

  lemma {:induction false} IsStreetIff(streets: seq<StreetRow>, town: string, name: string)
    ensures IsStreet(streets, town, name) <==>
      exists i :: 0 <= i < |streets| && streets[i].town == town && streets[i].street == name
    decreases |streets|
  {
    if streets != [] {
      var t := streets[1..];
      IsStreetIff(t, town, name);
      assert forall i :: 0 <= i < |t| ==> t[i] == streets[i + 1];
      if exists i :: 0 <= i < |streets| && streets[i].town == town && streets[i].street == name {
        var i :| 0 <= i < |streets| && streets[i].town == town && streets[i].street == name;
        assert i == 0 || (t[i - 1].town == town && t[i - 1].street == name);
      }
    }
  }

  /** The address keys of a table, in order. */
  function Keys(rows: seq<AddressRow>): (ks: seq<string>)
    ensures |ks| == |rows| && forall i :: 0 <= i < |rows| ==> ks[i] == rows[i].fAddress
  {
    seq(|rows|, i requires 0 <= i < |rows| => rows[i].fAddress)
  }

  predicate UniqueKeys(rows: seq<AddressRow>)
  {
    forall i, j :: 0 <= i < j < |rows| ==> rows[i].fAddress != rows[j].fAddress
  }
}
