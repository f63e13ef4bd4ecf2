/**
 * The constants of `scripts/const.py`: the column renamings applied to the raw
 * data sets, the ranking of district types, and the word patterns that the
 * boundary parser tries with `re.match` (which anchors a pattern at the start
 * of the word but not at its end unless the pattern says `$`).
 */
module Const {
  import opened Wrappers
  import opened Text

  // ---------------------------------------------------------------------------
  // Column renamings
  // ---------------------------------------------------------------------------

  /** The renaming of the polling-district spreadsheet's columns, in dict order. */
  const DistrictsColumns: seq<(string, string)> := [
    ("TERYT gminy", "teryt"),
    ("Gmina", "gmina"),
    ("Powiat", "powiat"),
    ("Województwo", "voivodeship"),
    ("Numer", "number"),
    ("Siedziba", "location"),
    ("Miejscowość", "town"),
    ("Ulica", "street"),
    ("Numer posesji", "building"),
    ("Kod pocztowy", "post_code"),
    ("Poczta", "post_off"),
    ("Typ obwodu", "type"),
    ("Opis granic", "borders")
  ]

  /** The renaming of the address-point shapefile's columns, in dict order. */
  const AddressesColumns: seq<(string, string)> := [
    ("TERYT", "teryt"),
    ("PNA", "post_code"),
    ("SIMC_nazwa", "town"),
    ("ULIC_nazwa", "street"),
    ("Numer", "building"),
    ("geometry", "geometry")
  ]

  /** No two source columns share a name and no two get the same target name. */
  predicate InjectiveRenaming(m: seq<(string, string)>)
  {
    forall i, j :: 0 <= i < j < |m| ==> m[i].0 != m[j].0 && m[i].1 != m[j].1
  }

  /**
   * Both renamings are injective: `DataFrame.rename` never merges two source
   * columns into one target name.
   */
  lemma ColumnRenamingsInjective()
    ensures InjectiveRenaming(DistrictsColumns)
    ensures InjectiveRenaming(AddressesColumns)
  {
  }

  // ---------------------------------------------------------------------------
  // District types
  // ---------------------------------------------------------------------------

  const Permanent: string := "stały"

  /** The institutional district types; each is ranked 0. */
  const SpecialTypes: seq<string> := [
    "areszt śledczy",
    "dom pomocy społecznej",
    "dom studencki",
    "oddział zewnętrzny aresztu śledczego",
    "oddział zewnętrzny zakładu karnego",
    "zakład karny",
    "zakład leczniczy",
    "zespół domów studenckich"
  ]

  /**
   * `district_types[t]`: 0 for an institutional type, 1 for a permanent
   * district; a type not in the table maps to NaN (None here).
   */
  function DistrictTypeRank(t: string): (r: Option<nat>)
    ensures r == Some(0) <==> t in SpecialTypes
    ensures r == Some(1) <==> t == Permanent
    ensures r.Some? ==> r.value <= 1
  {
    if t in SpecialTypes then Some(0)
    else if t == Permanent then Some(1)
    else None
  }

  // ---------------------------------------------------------------------------
  // Building designators
  // ---------------------------------------------------------------------------

  /**
   * `re.match(building_num_regex, w)` with `((\d+)\w*|\w{1})$`: a run of word
   * characters that starts with a digit, or exactly one word character (so a
   * lone letter such as "w" passes).
   */
  predicate BuildingNumMatch(w: string)
  {
    || (|w| > 0 && IsDigit(w[0]) && AllWordChars(w))
    || (|w| == 1 && IsWordChar(w[0]))
  }

  /** The parsed form of a building designator: `building_n` ("" is None) and `building_l`. */
  datatype BuildingNumber = BuildingNumber(n: Option<nat>, l: string)

  /**
   * `get_building_number`: group 2 of `building_num_regex` read as an integer and
   * group 1 of `building_letter_regex` (`\d+(\w*)$`), both only for a word of
   * word characters that starts with a digit. The word is then exactly the
   * digits of `n` followed by the suffix `l`, which does not start with a digit.
   */
  function GetBuildingNumber(w: string): (r: BuildingNumber)
    ensures r.n.Some? <==> |w| > 0 && IsDigit(w[0]) && AllWordChars(w)
    ensures r.n.None? ==> r.l == ""
    ensures r.n.Some? ==>
      && |r.l| < |w| && w[|w| - |r.l|..] == r.l
      && AllDigits(w[..|w| - |r.l|])
      && r.n.value == DigitsValue(w[..|w| - |r.l|])
      && (r.l == [] || !IsDigit(r.l[0]))
  {
    if |w| > 0 && IsDigit(w[0]) && AllWordChars(w) then
      var k := LeadingDigits(w);
      BuildingNumber(Some(DigitsValue(w[..k])), w[k..])
    else BuildingNumber(None, "")
  }

  /** Reading back a number written in decimal with a letter suffix gives the number and suffix. */
  lemma BuildingNumberRoundTrip(n: nat, l: string)
    requires AllWordChars(l) && (l == [] || !IsDigit(l[0]))
    ensures GetBuildingNumber(NatToDigits(n) + l) == BuildingNumber(Some(n), l)
  {
    var ds := NatToDigits(n);
    var w := ds + l;
    assert AllWordChars(w) by {
      forall i | 0 <= i < |w| ensures IsWordChar(w[i]) {
        if i < |ds| { assert w[i] == ds[i]; } else { assert w[i] == l[i - |ds|]; }
      }
    }
    var r := GetBuildingNumber(w);
    assert w[..|ds|] == ds && w[|ds|..] == l;
    LeadingDigitsOfConcat(ds, l);
    DigitsRoundTrip(n);
  }

  lemma {:induction false} LeadingDigitsOfConcat(ds: string, l: string)
    requires AllDigits(ds) && (l == [] || !IsDigit(l[0]))
    ensures LeadingDigits(ds + l) == |ds|
    decreases |ds|
  {
    if ds != [] {
      assert (ds + l)[1..] == ds[1..] + l;
      LeadingDigitsOfConcat(ds[1..], l);
    } else {
      assert ds + l == l;
    }
  }

  // ---------------------------------------------------------------------------
  // Qualifier words
  // ---------------------------------------------------------------------------

  /** `re.match(all_regex, w)` with `cał[ae]`. */
  predicate IsAllWord(w: string)
  {
    |w| >= 4 && w[..3] == "cał" && (w[3] == 'a' || w[3] == 'e')
  }

  /** `re.match(odd_regex, w)` with `nieparzyst[ae]`. */
  predicate IsOddWord(w: string)
  {
    |w| >= 11 && w[..10] == "nieparzyst" && (w[10] == 'a' || w[10] == 'e')
  }

  /** `re.match(even_regex, w)` with `parzyst[ae]`. */
  predicate IsEvenWord(w: string)
  {
    |w| >= 8 && w[..7] == "parzyst" && (w[7] == 'a' || w[7] == 'e')
  }

  /** Because the patterns are anchored at the start, no word is both odd and even. */
  lemma OddEvenExclusive(w: string)
    ensures !(IsOddWord(w) && IsEvenWord(w))
  {
    if IsOddWord(w) {
      assert w[0] == w[..10][0] == 'n';
    }
  }
}
