/**
 * The boundary-text parser of `scripts/match_addresses.py` (lines 113-288):
 * a permanent district's `borders` text becomes a list of clauses, each a
 * `ParsedToken` dictionary that later statements update in place.
 *
 * The dictionaries are objects here because the script relies on their
 * identity: a clause appended to `parsed_tokens` may still be the one the
 * parser goes on writing to (lines 226-229 and 275).
 */
module BorderParser {
  import opened Wrappers
  import opened Text
  import opened Const
  import opened Records
  import opened MatchText
  import opened StreetSearch

  /** A snapshot of a `ParsedToken`; `None` is a key that the dictionary lacks. */
  datatype Clause = Clause(
    token: string, isTown: bool, isStreet: bool, isOdd: bool, isEven: bool,
    town: string, street: string,
    number: Option<string>, numFrom: Option<BuildingNumber>, numTo: Option<BuildingNumber>)

  /** A clause never selects odd and even numbers at once. */
  predicate ParityOk(c: Clause)
  {
    !(c.isOdd && c.isEven)
  }

  /** The dictionary a new segment starts with (lines 139-147). */
  function NewClause(token: string, isTown: bool): (c: Clause)
    ensures c.token == token && c.isTown == isTown && ParityOk(c)
    ensures !c.isStreet && c.town == "" && c.street == ""
    ensures c.number.None? && c.numFrom.None? && c.numTo.None?
  {
    Clause(token, isTown, false, false, false, "", "", None, None, None)
  }

  /** The copy made on "i"/"oraz" (lines 242-247): parity cleared and the numbers removed. */
  function Cleared(c: Clause): (r: Clause)
    ensures ParityOk(r) && !r.isOdd && !r.isEven
    ensures r.number.None? && r.numFrom.None? && r.numTo.None?
    ensures r.token == c.token && r.isTown == c.isTown && r.isStreet == c.isStreet
    ensures r.town == c.town && r.street == c.street
  {
    c.(isOdd := false, isEven := false, number := None, numFrom := None, numTo := None)
  }

  /**
   * A word after the clean-up of lines 250-254: parentheses and colons removed,
   * a multi-number designator cut to its first number (a lone "-" is kept),
   * and lower case.
   */
  function CleanWord(word: string): string
  {
    var w := RemoveParensColons(word);
    Lower(if w == "-" then w else MultiNumberCut(w))
  }

  /** The parity words of lines 260-265: an odd word selects odd numbers only, an even word even ones. */
  function WithParity(c: Clause, w: string): (r: Clause)
    ensures IsOddWord(w) ==> r == c.(isOdd := true, isEven := false)
    ensures !IsOddWord(w) && IsEvenWord(w) ==> r == c.(isOdd := false, isEven := true)
    ensures !IsOddWord(w) && !IsEvenWord(w) ==> r == c
    ensures ParityOk(c) ==> ParityOk(r)
  {
    if IsOddWord(w) then c.(isOdd := true, isEven := false)
    else if IsEvenWord(w) then c.(isEven := true, isOdd := false)
    else c
  }

  predicate IsDash(w: string)
  {
    w == "-" || w == "–"
  }

  /**
   * The fourth branch of lines 268-281: the word right after a leading "do"
   * closes the range of the clause before, if that clause has the same street.
   */
  predicate ClosesPrevious(prevStreet: Option<string>, c: Clause, w: string, prevWord: string, wordIdx: nat)
  {
    && !IsDash(w) && prevWord != "od" && !IsDash(prevWord)
    && prevStreet == Some(c.street) && wordIdx == 1 && prevWord == "do"
  }

  /**
   * The other branches of lines 268-281, which write to the current clause: a
   * dash takes `num_from` from the word before it, the word after "od" is
   * `num_from`, the word after a dash or "do" is `num_to`, and any other word
   * of the building grammar is `number`.
   */
  function Qualified(c: Clause, w: string, prevWord: string): (r: Clause)
    ensures IsDash(w) ==> r == c.(numFrom := Some(GetBuildingNumber(prevWord)))
    ensures !IsDash(w) && prevWord == "od" ==> r == c.(numFrom := Some(GetBuildingNumber(w)))
    ensures !IsDash(w) && prevWord != "od" && (IsDash(prevWord) || prevWord == "do") ==>
      r == c.(numTo := Some(GetBuildingNumber(w)))
    ensures !IsDash(w) && prevWord != "od" && !IsDash(prevWord) && prevWord != "do" ==>
      r == if BuildingNumMatch(w) then c.(number := Some(w)) else c
    ensures r.isOdd == c.isOdd && r.isEven == c.isEven && r.town == c.town && r.street == c.street
  {
    if IsDash(w) then c.(numFrom := Some(GetBuildingNumber(prevWord)))
    else if prevWord == "od" then c.(numFrom := Some(GetBuildingNumber(w)))
    else if IsDash(prevWord) then c.(numTo := Some(GetBuildingNumber(w)))
    else if prevWord == "do" then c.(numTo := Some(GetBuildingNumber(w)))
    else if BuildingNumMatch(w) then c.(number := Some(w))
    else c
  }

  /** What the scan of one word did. */
  datatype WordStep = Conjunction | WholeStreet | Qualifier(word: string)

  /** A `ParsedToken` dictionary. */
  class ParsedToken {
    var token: string
    var isTown: bool
    var isStreet: bool
    var isOdd: bool
    var isEven: bool
    var town: string
    var street: string
    var number: Option<string>
    var numFrom: Option<BuildingNumber>
    var numTo: Option<BuildingNumber>

    function Value(): Clause
      reads this
    {
      Clause(token, isTown, isStreet, isOdd, isEven, town, street, number, numFrom, numTo)
    }

    /** A new dictionary with the entries of `c` (a literal, or `copy()` of another). */
    constructor (c: Clause)
      ensures Value() == c
    {
      token, isTown, isStreet, isOdd, isEven := c.token, c.isTown, c.isStreet, c.isOdd, c.isEven;
      town, street, number, numFrom, numTo := c.town, c.street, c.number, c.numFrom, c.numTo;
    }
  }

  /**
   * The parser state of one district (lines 132-136): the clauses so far, the
   * clause being built (`parsed_token`), the inherited town, street and parity.
   * `pool` is the group's address table, `streets` its street table and
   * `districtTown` the district's own town.
   */
  class Parser {
    const pool: seq<AddressRow>
    const streets: seq<StreetRow>
    const env: Env
    const districtTown: string
    var tokens: seq<ParsedToken>
    var cur: ParsedToken
    var town: Option<string>
    var lastStreet: string
    var lastIsOdd: bool
    var lastIsEven: bool
    ghost var Repr: set<ParsedToken>

    /** A town a clause may name: a town of the address table, or the district's own. */
    predicate TownOk(t: string)
    {
      IsTown(pool, t) || t == districtTown
    }

    /**
     * Every clause, and the clause being built, selects at most one parity;
     * so does the inherited parity; every clause and the inherited town name
     * a town of the table or the district's town.
     */
    ghost predicate Valid()
      reads this, Repr
    {
      && cur in Repr
      && (forall k :: 0 <= k < |tokens| ==> tokens[k] in Repr)
      && !(cur.isOdd && cur.isEven)
      && (forall k :: 0 <= k < |tokens| ==> !(tokens[k].isOdd && tokens[k].isEven) && TownOk(tokens[k].town))
      && !(lastIsOdd && lastIsEven)
      && (town.Some? ==> TownOk(town.value))
    }

    /** The clauses as values, in order. */
    function Clauses(): (cs: seq<Clause>)
      reads this, tokens
      ensures |cs| == |tokens| && forall k :: 0 <= k < |tokens| ==> cs[k] == tokens[k].Value()
    {
      seq(|tokens|, k reads this, tokens requires 0 <= k < |tokens| => tokens[k].Value())
    }

    /** The street of the last clause, if any (`parsed_tokens[-1]["street"]`). */
    function PrevStreet(): Option<string>
      reads this, tokens
    {
      if |tokens| > 0 then Some(tokens[|tokens| - 1].street) else None
    }

    /** The state before the first segment of a district (lines 132-136). */
    constructor (pool: seq<AddressRow>, streets: seq<StreetRow>, env: Env, districtTown: string)
      ensures Valid() && fresh(Repr)
      ensures this.pool == pool && this.streets == streets && this.env == env && this.districtTown == districtTown
      ensures tokens == [] && town.None? && lastStreet == "" && !lastIsOdd && !lastIsEven
    {
      this.pool, this.streets, this.env, this.districtTown := pool, streets, env, districtTown;
      tokens, town, lastStreet, lastIsOdd, lastIsEven := [], None, "", false, false;
      var c := new ParsedToken(NewClause("", false));
      cur := c;
      Repr := {c};
    }

    // -------------------------------------------------------------------------
    // The word scan (lines 236-284)
    // -------------------------------------------------------------------------

    /**
     * An in-place update of the clause being built that keeps its town and
     * selects at most one parity.
     */
    method SetValue(v: Clause)
      requires Valid() && ParityOk(v) && v.town == cur.town
      modifies cur
      ensures Valid() && cur.Value() == v
    {
      cur.token, cur.isTown, cur.isStreet, cur.isOdd, cur.isEven := v.token, v.isTown, v.isStreet, v.isOdd, v.isEven;
      cur.street, cur.number, cur.numFrom, cur.numTo := v.street, v.number, v.numFrom, v.numTo;
    }

    /**
     * Lines 275-276: the last clause is taken back from the list, becomes the
     * clause being built, and gets `num_to` from `w`.
     */
    method Reopen(w: string)
      requires Valid() && |tokens| > 0
      modifies this, tokens[|tokens| - 1]
      ensures Valid() && Repr == old(Repr)
      ensures town == old(town) && lastStreet == old(lastStreet)
      ensures lastIsOdd == old(lastIsOdd) && lastIsEven == old(lastIsEven)
      ensures cur == old(tokens[|tokens| - 1]) && tokens == old(tokens[..|tokens| - 1])
      ensures cur.Value() == old(tokens[|tokens| - 1].Value()).(numTo := Some(GetBuildingNumber(w)))
    {
      cur := tokens[|tokens| - 1];
      tokens := tokens[..|tokens| - 1];
      cur.numTo := Some(GetBuildingNumber(w));
    }

    /**
     * Lines 260-281 for the cleaned word `w`: the parity words, then the range
     * and number rules. When `w` closes the range of the clause before, that
     * clause is taken back and becomes the one being built, and the current
     * one is dropped; otherwise the current clause is updated.
     */
    method ScanQualifier(w: string, prevWord: string, wordIdx: nat)
      requires Valid() && TownOk(cur.town)
      modifies this, Repr
      ensures Valid() && Repr == old(Repr) && TownOk(cur.town) && cur.street == old(cur.street)
      ensures town == old(town) && lastStreet == old(lastStreet)
      ensures lastIsOdd == old(lastIsOdd) && lastIsEven == old(lastIsEven)
      ensures ClosesPrevious(old(PrevStreet()), old(cur.Value()), w, prevWord, wordIdx) ==>
        && |old(tokens)| > 0
        && cur == old(tokens[|tokens| - 1]) && tokens == old(tokens[..|tokens| - 1])
        && cur.Value() ==
             (if cur == old(cur) then WithParity(old(cur.Value()), w)
              else old(tokens[|tokens| - 1].Value())).(numTo := Some(GetBuildingNumber(w)))
        && (cur != old(cur) ==> old(cur).Value() == WithParity(old(cur.Value()), w))
      ensures !ClosesPrevious(old(PrevStreet()), old(cur.Value()), w, prevWord, wordIdx) ==>
        && cur == old(cur) && tokens == old(tokens)
        && cur.Value() == Qualified(WithParity(old(cur.Value()), w), w, prevWord)
      ensures forall o :: o in old(Repr) && o != old(cur) && o != cur ==> unchanged(o)
    {
      var v := WithParity(cur.Value(), w);
      if ClosesPrevious(PrevStreet(), v, w, prevWord, wordIdx) {
        SetValue(v);
        Reopen(w);
      } else {
        SetValue(Qualified(v, w, prevWord));
      }
    }

    /**
     * One pass of the loop body of lines 239-283 for `word`, given the
     * previous cleaned word and the count of qualifier words so far.
     */
    method ScanWord(word: string, prevWord: string, wordIdx: nat) returns (step: WordStep)
      requires Valid() && TownOk(cur.town)
      modifies this, Repr
      ensures Valid() && fresh(Repr - old(Repr)) && TownOk(cur.town) && cur.street == old(cur.street)
      ensures town == old(town) && lastStreet == old(lastStreet)
      ensures lastIsOdd == old(lastIsOdd) && lastIsEven == old(lastIsEven)
      // "i" and "oraz": the clause is appended and a cleared copy goes on.
      ensures word == "i" || word == "oraz" ==>
        && step == Conjunction
        && tokens == old(tokens) + [old(cur)] && old(cur).Value() == old(cur.Value())
        && fresh(cur) && cur.Value() == Cleared(old(cur.Value()))
      // "cała"/"całe": the clause covers its whole street and the scan stops.
      ensures word != "i" && word != "oraz" && IsAllWord(CleanWord(word)) ==>
        && step == WholeStreet
        && tokens == old(tokens) && cur == old(cur)
        && cur.Value() == old(cur.Value()).(isStreet := true)
      // Any other word: see ScanQualifier.
      ensures word != "i" && word != "oraz" && !IsAllWord(CleanWord(word)) ==>
        step == Qualifier(CleanWord(word))
      ensures forall o :: o in old(Repr) && o != old(cur) && o != cur ==> unchanged(o)
    {
      if word == "i" || word == "oraz" {
        Conjoin();
        return Conjunction;
      }
      var w := CleanWord(word);
      if IsAllWord(w) {
        SetValue(cur.Value().(isStreet := true));
        return WholeStreet;
      }
      ScanQualifier(w, prevWord, wordIdx);
      step := Qualifier(w);
    }

    /** Lines 240-248: the clause is appended and a cleared copy of it goes on. */
    method Conjoin()
      requires Valid() && TownOk(cur.town)
      modifies this
      ensures Valid() && fresh(Repr - old(Repr)) && TownOk(cur.town)
      ensures town == old(town) && lastStreet == old(lastStreet)
      ensures lastIsOdd == old(lastIsOdd) && lastIsEven == old(lastIsEven)
      ensures tokens == old(tokens) + [old(cur)]
      ensures fresh(cur) && cur.Value() == Cleared(old(cur.Value()))
    {
      var c := new ParsedToken(Cleared(cur.Value()));
      tokens := tokens + [cur];
      cur := c;
      Repr := Repr + {c};
    }

    /**
     * The loop of lines 236-284 over the words of `rest`: `prev_word` and
     * `word_idx` follow the qualifier words, a conjunction skips them, and
     * "cała"/"całe" ends the scan.
     */
    method ScanRest(rest: string)
      requires Valid() && TownOk(cur.town)
      modifies this, Repr
      ensures Valid() && fresh(Repr - old(Repr)) && TownOk(cur.town) && cur.street == old(cur.street)
      ensures town == old(town) && lastStreet == old(lastStreet)
      ensures lastIsOdd == old(lastIsOdd) && lastIsEven == old(lastIsEven)
    {
      var words := SplitSpaces(rest);
      var prevWord := "";
      var wordIdx := 0;
      var i := 0;
      while i < |words|
        invariant 0 <= i <= |words|
        invariant Valid() && fresh(Repr - old(Repr)) && TownOk(cur.town) && cur.street == old(cur.street)
        invariant town == old(town) && lastStreet == old(lastStreet)
        invariant lastIsOdd == old(lastIsOdd) && lastIsEven == old(lastIsEven)
        decreases |words| - i
      {
        var step := ScanWord(words[i], prevWord, wordIdx);
        match step {
          case Conjunction =>
          case WholeStreet =>
            break;
          case Qualifier(w) =>
            wordIdx := wordIdx + 1;
            prevWord := w;
        }
        i := i + 1;
      }
    }
  
    // -------------------------------------------------------------------------
    // The clauses of one segment (lines 209-288)
    // -------------------------------------------------------------------------

    /**
     * Lines 285-288: the clause being built is appended, its parity becomes the
     * inherited parity, and a new clause with the entries `next` is started.
     */
    method Finish(next: Clause)
      requires Valid() && TownOk(cur.town) && ParityOk(next)
      modifies this
      ensures Valid() && fresh(Repr - old(Repr))
      ensures tokens == old(tokens) + [old(cur)]
      ensures lastIsOdd == old(cur.isOdd) && lastIsEven == old(cur.isEven)
      ensures fresh(cur) && cur.Value() == next
      ensures town == old(town) && lastStreet == old(lastStreet)
    {
      tokens := tokens + [cur];
      lastIsOdd, lastIsEven := cur.isOdd, cur.isEven;
      var c := new ParsedToken(next);
      cur := c;
      Repr := Repr + {c};
    }

    /** Lines 231-233: a segment without a street inherits the last street and parity. */
    method InheritLast()
      requires Valid()
      modifies cur
      ensures Valid()
      ensures cur.Value() == old(cur.Value()).(street := lastStreet, isOdd := lastIsOdd, isEven := lastIsEven)
    {
      SetValue(cur.Value().(street := lastStreet, isOdd := lastIsOdd, isEven := lastIsEven));
    }

    /**
     * One pass of the loop of lines 214-288 for the street `f`, found in
     * `words` before position `prevEnd`. The clause takes the street and the
     * words from the street's start to `prevEnd`. When nothing follows the
     * street name before `prevEnd`, the clause covers the whole street and is
     * appended, and it stays the clause being built: the later streets of the
     * segment are written into this same, already listed, clause. Otherwise
     * the words after the name are scanned, the clause (of the street `f`) is
     * appended last and its parity is inherited.
     */
    method EmitStreet(words: seq<string>, f: FoundStreet, prevEnd: nat)
      requires f.start < f.end <= prevEnd <= |words|
      requires Valid() && TownOk(cur.town)
      modifies this, Repr
      ensures Valid() && fresh(Repr - old(Repr)) && TownOk(cur.town)
      ensures town == old(town) && lastStreet == old(lastStreet)
      ensures |tokens| > 0 && tokens[|tokens| - 1].street == f.street
      ensures Join(words[f.end..prevEnd], " ") == "" ==>
        && tokens == old(tokens) + [old(cur)] && cur == old(cur)
        && cur.Value() == old(cur.Value()).(street := f.street, token := Join(words[f.start..prevEnd], " "), isStreet := true)
        && lastIsOdd == old(lastIsOdd) && lastIsEven == old(lastIsEven)
      ensures Join(words[f.end..prevEnd], " ") != "" ==>
        && fresh(cur) && cur.Value() == old(cur.Value()).(street := f.street)
        && lastIsOdd == tokens[|tokens| - 1].isOdd && lastIsEven == tokens[|tokens| - 1].isEven
    {
      var next := cur.Value().(street := f.street);
      var token := Join(words[f.start..prevEnd], " ");
      var rest := Join(words[f.end..prevEnd], " ");
      SetValue(cur.Value().(street := f.street, token := token));
      if rest == "" {
        AppendWholeStreet();
        return;
      }
      ScanRest(rest);
      Finish(next);
    }

    /** Lines 225-227: a street with nothing after its name is a whole-street clause and is appended. */
    method AppendWholeStreet()
      requires Valid() && TownOk(cur.town)
      modifies this, cur
      ensures Valid() && Repr == old(Repr) && cur == old(cur) && TownOk(cur.town)
      ensures cur.Value() == old(cur.Value()).(isStreet := true)
      ensures tokens == old(tokens) + [cur]
      ensures town == old(town) && lastStreet == old(lastStreet)
      ensures lastIsOdd == old(lastIsOdd) && lastIsEven == old(lastIsEven)
    {
      SetValue(cur.Value().(isStreet := true));
      tokens := tokens + [cur];
    }

    /**
     * The loop of lines 214-288 when the segment has no street (`[None]`): the
     * clause takes the last street and parity, its words are scanned, it is
     * appended last, and its parity is inherited.
     */
    method EmitInherited(words: seq<string>)
      requires Valid() && TownOk(cur.town)
      modifies this, Repr
      ensures Valid() && fresh(Repr - old(Repr))
      ensures town == old(town) && lastStreet == old(lastStreet)
      ensures fresh(cur) && cur.Value() == old(cur.Value())
      ensures |tokens| > 0 && tokens[|tokens| - 1].street == old(lastStreet)
      ensures lastIsOdd == tokens[|tokens| - 1].isOdd && lastIsEven == tokens[|tokens| - 1].isEven
    {
      var next := cur.Value();
      InheritLast();
      ScanRest(Join(words, " "));
      Finish(next);
    }

    /**
     * Lines 209-288: the streets of the segment, last first, each from its
     * start to where the next began; the last clause listed is that of the
     * segment's first street, or of the inherited street when there is none.
     */
    method EmitClauses(words: seq<string>, found: seq<FoundStreet>)
      requires forall j :: 0 <= j < |found| ==> found[j].start < found[j].end <= |words|
      requires forall j :: 0 <= j < |found| - 1 ==> found[j].end <= found[j + 1].start
      requires Valid() && TownOk(cur.town)
      modifies this, Repr
      ensures Valid() && fresh(Repr - old(Repr))
      ensures town == old(town) && lastStreet == old(lastStreet)
      ensures |tokens| > 0 && tokens[|tokens| - 1].street == if found == [] then old(lastStreet) else found[0].street
    {
      if found == [] {
        EmitInherited(words);
        return;
      }
      var prevEnd := |words|;
      var k := |found|;
      while k > 0
        invariant 0 <= k <= |found|
        invariant prevEnd == if k == |found| then |words| else found[k].start
        invariant Valid() && fresh(Repr - old(Repr)) && TownOk(cur.town)
        invariant town == old(town) && lastStreet == old(lastStreet)
        invariant k < |found| ==> |tokens| > 0 && tokens[|tokens| - 1].street == found[k].street
        decreases k
      {
        k := k - 1;
        EmitStreet(words, found[k], prevEnd);
        prevEnd := found[k].start;
      }
    }
  
    // -------------------------------------------------------------------------
    // Segments (lines 137-207)
    // -------------------------------------------------------------------------

    /**
     * Lines 155-163 for a segment that is not a town, `token` being its text
     * without the place type: the place type is dropped again; the town is
     * the part before the first hyphen when that is a town, else the inherited
     * town, else the district's own; the clause gets the town, and the town's
     * name and any street-list marker are removed from the text, giving `rest`.
     */
    method LocateTown(token: string) returns (rest: string)
      requires Valid() && cur !in tokens
      modifies this, cur
      ensures Valid() && Repr == old(Repr) && cur == old(cur) && TownOk(cur.town)
      ensures tokens == old(tokens) && lastStreet == old(lastStreet)
      ensures lastIsOdd == old(lastIsOdd) && lastIsEven == old(lastIsEven)
      ensures var t := Strip(PlaceTypeSub(token));
        && town == Some(if IsTown(pool, HyphenHead(t)) then HyphenHead(t)
                        else if old(town).Some? then old(town).value else districtTown)
        && cur.Value() == old(cur.Value()).(town := town.value)
        && rest == Strip(StreetsMarkerSub(ReplaceAll(t, town.value, ""), false))
    {
      var t := Strip(PlaceTypeSub(token));
      ResolveTown(HyphenHead(t));
      rest := Strip(StreetsMarkerSub(ReplaceAll(t, town.value, ""), false));
    }

    /** Lines 139-147: a new clause for the segment text `token`. */
    method NewSegmentClause(token: string)
      requires Valid()
      modifies this
      ensures Valid() && fresh(Repr - old(Repr)) && fresh(cur) && cur !in tokens
      ensures cur.Value() == NewClause(token, IsTown(pool, token))
      ensures tokens == old(tokens) && town == old(town) && lastStreet == old(lastStreet)
      ensures lastIsOdd == old(lastIsOdd) && lastIsEven == old(lastIsEven)
    {
      var c := new ParsedToken(NewClause(token, IsTown(pool, token)));
      cur := c;
      Repr := Repr + {c};
    }

    /** Lines 149-153: a segment that is a town is a whole-town clause. */
    method AppendWholeTown()
      requires Valid() && cur.isTown && IsTown(pool, cur.token) && cur !in tokens
      modifies this, cur
      ensures Valid() && Repr == old(Repr) && cur == old(cur)
      ensures cur.Value() == old(cur.Value()).(town := cur.token)
      ensures tokens == old(tokens) + [cur]
      ensures town == old(town) && lastStreet == old(lastStreet)
      ensures lastIsOdd == old(lastIsOdd) && lastIsEven == old(lastIsEven)
    {
      cur.town := cur.token;
      tokens := tokens + [cur];
    }

    /**
     * Lines 157-163: `head` becomes the town when it is one; with no town yet
     * the district's own is taken; the clause gets the town.
     */
    method ResolveTown(head: string)
      requires Valid() && cur !in tokens
      modifies this, cur
      ensures Valid() && Repr == old(Repr) && cur == old(cur) && TownOk(cur.town)
      ensures town == Some(if IsTown(pool, head) then head else if old(town).Some? then old(town).value else districtTown)
      ensures cur.Value() == old(cur.Value()).(town := town.value)
      ensures tokens == old(tokens) && lastStreet == old(lastStreet)
      ensures lastIsOdd == old(lastIsOdd) && lastIsEven == old(lastIsEven)
    {
      if IsTown(pool, head) {
        town := Some(head);
      }
      if town.None? {
        town := Some(districtTown);
      }
      cur.town := town.value;
    }

    /**
     * One pass of the loop of lines 137-288: the place type is dropped and the
     * segment's clause started; a segment that is a town is a whole-town clause
     * and ends there; otherwise its town is located, its streets are searched
     * (the last one found becomes `last_street`) and its clauses emitted.
     */
    method ParseSegment(seg: string)
      requires Valid()
      modifies this, Repr
      ensures Valid() && fresh(Repr - old(Repr))
    {
      var token := Strip(PlaceTypeSub(seg));
      var whole := StartClause(token);
      if !whole {
        ContinueSegment(token);
      }
    }

    /**
     * Lines 139-153: a new clause for the segment text `token`; when the text
     * is a town the clause covers the whole town and is appended.
     */
    method StartClause(token: string) returns (whole: bool)
      requires Valid()
      modifies this
      ensures Valid() && fresh(Repr - old(Repr))
      ensures whole == IsTown(pool, token)
      ensures whole ==> tokens == old(tokens) + [cur] && town == old(town) && cur.Value() == NewClause(token, true).(town := token)
      ensures !whole ==> cur !in tokens && tokens == old(tokens) && town == old(town) && cur.Value() == NewClause(token, false)
    {
      NewSegmentClause(token);
      whole := cur.isTown;
      if whole {
        AppendWholeTown();
      }
    }

    /** Lines 155-288 for a segment that is not a town: its town is located and its clauses emitted. */
    method ContinueSegment(token: string)
      requires Valid() && cur !in tokens
      modifies this, Repr
      ensures Valid() && fresh(Repr - old(Repr))
    {
      var rest := LocateTown(token);
      EmitSegment(rest);
    }

    /** Lines 166-288 for the segment text `rest`, cut into words at every whitespace character. */
    method EmitSegment(rest: string)
      requires Valid() && town.Some? && TownOk(cur.town)
      modifies this, Repr
      ensures Valid() && fresh(Repr - old(Repr))
    {
      var words := SplitSpaces(rest);
      var found := SearchStreets(words);
      EmitClauses(words, found);
    }

    /**
     * Lines 166-207 in the segment's town: the streets named by windows of
     * `words` (see `FindStreets`); the last one found becomes `last_street`.
     */
    method SearchStreets(words: seq<string>) returns (found: seq<FoundStreet>)
      requires Valid() && town.Some? && TownOk(cur.town)
      modifies this
      ensures Valid() && TownOk(cur.town)
      ensures tokens == old(tokens) && cur == old(cur) && Repr == old(Repr) && town == old(town)
      ensures forall j :: 0 <= j < |found| ==> found[j].start < found[j].end <= |words|
      ensures forall j :: 0 <= j < |found| - 1 ==> found[j].end <= found[j + 1].start
      ensures lastStreet == if found == [] then old(lastStreet) else found[|found| - 1].street
      ensures lastIsOdd == old(lastIsOdd) && lastIsEven == old(lastIsEven)
    {
      var q := SearchOf(env, streets, town.value, words);
      var last;
      found, last := FindStreets(q, lastStreet);
      lastStreet := last;
    }

    /**
     * Lines 113-288: the clauses of a district's `borders` text. Every clause
     * selects at most one parity and names a town of the table or the
     * district's own.
     */
    method Parse(borders: string)
      requires Valid()
      modifies this, Repr
      ensures Valid() && fresh(Repr - old(Repr))
      ensures forall k :: 0 <= k < |Clauses()| ==> ParityOk(Clauses()[k]) && TownOk(Clauses()[k].town)
    {
      var segs := ExpandTowns(pool, Segments(borders));
      var i := 0;
      while i < |segs|
        invariant 0 <= i <= |segs|
        invariant Valid() && fresh(Repr - old(Repr))
        decreases |segs| - i
      {
        ParseSegment(segs[i]);
        i := i + 1;
      }
      forall k | 0 <= k < |Clauses()| ensures ParityOk(Clauses()[k]) && TownOk(Clauses()[k].town) {
        assert Clauses()[k] == tokens[k].Value();
      }
    }
  }

  /**
   * Lines 114-116: the street-list marker is rewritten to " ulica: " (or
   * " ulice: "), "nr"/"numer" are dropped, and the text is cut at commas and
   * semicolons.
   */
  function Segments(borders: string): (segs: seq<string>)
    ensures |segs| >= 1 && forall k :: 0 <= k < |segs| ==> ',' !in segs[k]
  {
    SplitSegments(RemoveNumberWords(StreetsMarkerSub(borders, true)))
  }

  /**
   * A description without a street-list marker and without number words is
   * cut exactly as `SplitSegments` cuts it.
   */
  lemma SegmentsOfPlain(borders: string)
    requires forall j :: 0 <= j <= |borders| ==> !MarkerAt(borders, j)
    requires forall j :: 0 <= j <= |borders| ==> NumberWordAt(borders, j).None?
    ensures Segments(borders) == SplitSegments(borders)
  {
    StreetsMarkerSubNoMarker(borders, true);
    RemoveNumberWordsFromNone(borders, 0);
    assert borders[0..] == borders;
  }

  /**
   * Lines 117-130: when the last segment splits on " i " into several parts
   * and every part is a town of the table, the parts replace that segment;
   * otherwise the segments stay as they are.
   */
  method ExpandTowns(pool: seq<AddressRow>, segs: seq<string>) returns (r: seq<string>)
    requires |segs| >= 1
    ensures var parts := SplitAnd(segs[|segs| - 1]);
      && (|parts| > 1 && (forall j :: 0 <= j < |parts| ==> IsTown(pool, parts[j])) ==> r == segs[..|segs| - 1] + parts)
      && (!(|parts| > 1 && (forall j :: 0 <= j < |parts| ==> IsTown(pool, parts[j]))) ==> r == segs)
  {
    var last := SplitAnd(segs[|segs| - 1]);
    r := segs;
    if |last| > 1 {
      var allTowns := true;
      var i := 0;
      while i < |last|
        invariant 0 <= i <= |last|
        invariant allTowns <==> forall j :: 0 <= j < i ==> IsTown(pool, last[j])
        decreases |last| - i
      {
        if allTowns {
          allTowns := IsTown(pool, last[i]);
        } else {
          allTowns := false;
          break;
        }
        i := i + 1;
      }
      if allTowns {
        r := segs[..|segs| - 1] + last;
      }
    }
  }
}
