# Polling-district address matching, modelled in Dafny

The repository assigns every address point of a Polish municipality (a TERYT
group) to the polling district whose textual boundary description
("Opis granic") covers it, and shows the districts and the election results
on a web map. This project models:

- **the data preparation** `process_addresses` in `scripts/process_data.py`. It is
  a fixed pipeline of cell rewrites: fill a missing street, strip the street
  prefixes, normalise whitespace, capitalise, apply the replacement table, drop
  a repeated first word, and normalise building numbers. It then builds the
  `f_address` key and drops repeated keys. `ProcessData`, with the string
  primitives in `Text` and the dictionary and table parsing of `scripts/utils.py`
  in `Utils`;
- **the constants** of `scripts/const.py`: the column renamings, the ranking of
  district types and the building-number and parity patterns (`Const`);
- **the matcher** in `scripts/match_addresses.py`:
  - the rewriting and cutting of a boundary text into segments and the
    expansion of a final "A i B" list of towns (`MatchText`,
    `BorderParser.Segments`, `BorderParser.ExpandTowns`);
  - the windowed street search (`StreetSearch`);
  - the clause parser that turns the segments into clauses of town, street,
    parity, range and number. It is a `Parser` class over mutable `ParsedToken`
    objects, because the script appends the same dictionary to the list and keeps
    writing to it (`BorderParser`);
  - the mask chain that turns clauses into the district's address rows
    (`Evaluate`);
  - the per-group orchestration: districts ordered by type, addresses of
    institutional districts barred from permanent ones, rows tagged with the
    district id, and the duplicate and no-district reports (`MatchGroup`);
- **the frontend helpers**:
  - `sortResults` (`SortResults`);
  - `generateFillColors` (`FillColors`);
  - the `elections` Redux slice (`ElectionsSlice`);
  - the turnout `fillColor` expression of the map (`MapFillColor`, over the
    maplibre expression values of `Expression`).

The helpers that the matcher imports but whose source is not part of this model
are fields of the `StreetSearch.Env` datatype. These are the street-prefix
table, `Utils.remove_first_name`, `Utils.remove_first_letter`, the ordinal
pattern and `get_building_order`. Every property holds whatever they do.

## Model

| member | source | states |
|---|---|---|
| Text.Strip | scripts/process_data.py:22 | `str.strip()`: the result is empty or begins and ends with a non-whitespace character |
| Text.StripTrims | scripts/process_data.py:22 | the result of `str.strip()` is a slice of the input from which only whitespace was cut, at either end |
| Text.StripIdempotent | scripts/process_data.py:22 | stripping a stripped string changes nothing |
| Text.CollapseSpaces | scripts/process_data.py:22 | `re.sub(r"\s+", " ")`: empty exactly when the input is, and each end is whitespace exactly when the input's end is |
| Text.CollapseIsCollapsed | scripts/process_data.py:22 | every whitespace character left is a blank, and no two of them are adjacent |
| Text.CollapseRun | scripts/process_data.py:22 | a whitespace run of any length between two stretches of text becomes exactly one blank, and each side collapses on its own |
| Text.CollapseNoSpace | scripts/process_data.py:22 | a text without whitespace is unchanged |
| Text.CollapseKeepsNonSpaces | scripts/process_data.py:22 | collapsing whitespace keeps exactly the non-whitespace characters, in order |
| Text.CollapseIdempotent | scripts/process_data.py:22 | collapsing twice is collapsing once |
| Text.Lower | scripts/process_data.py:37 | `str.lower()` maps every character and keeps the length |
| Text.Split | scripts/utils.py:11 | `str.split(sep)`: at least one field, no field contains the separator, and joining the fields with the separator gives the input back |
| Text.SplitSpaces | scripts/match_addresses.py:167 | `re.split(r"\s", s)`: no field holds whitespace, and the fields joined by blanks are the input with every whitespace character turned into a blank |
| Text.ReplaceAll | scripts/match_addresses.py:186 | `str.replace`: a text without an occurrence of the pattern is unchanged, and a one-character pattern absent from the replacement is absent from the result |
| Text.ReplaceAllCut | scripts/match_addresses.py:186 | the text before the first occurrence is kept, the occurrence becomes the replacement, and the rest is replaced on its own; with ReplaceAll's unchanged case this fixes the result on every input |
| Text.ReplaceAllAt | scripts/match_addresses.py:186 | an occurrence at the front is replaced and the rest is replaced on its own |
| Text.ReplaceAllPast | scripts/match_addresses.py:186 | a character that starts no occurrence is copied and the rest is replaced on its own |
| Text.ReplaceAllIgnoreCase | scripts/match_addresses.py:180 | the case-insensitive literal substitution leaves a text without a match unchanged |
| Text.ReplaceAllIgnoreCaseCut | scripts/match_addresses.py:180 | the text before the first match up to case is kept, the match becomes the replacement, and the rest is replaced on its own |
| Text.ReplaceIgnoreCaseAtFront | scripts/match_addresses.py:180 | a match at the front is replaced and the scan continues after it |
| Text.DigitsRoundTrip | scripts/match_addresses.py:55 | `int(str(n)) == n` for the decimal text of a natural number |
| Text.MultiNumberCutHasNoSep | scripts/process_data.py:40 | after the multi-number cut no character of the class `[,-/]` remains |
| Text.MultiNumberCutWithoutSep | scripts/process_data.py:40 | a designator without a separator is unchanged |
| Text.MultiNumberCutIdempotent | scripts/process_data.py:40 | cutting twice is cutting once |
| Text.MultiNumberCutOfPair | scripts/match_addresses.py:253 | "w-t", "w,t", "w/t" or "w.t" of word characters keeps the first word (100/102 becomes 100) |
| Const.ColumnRenamingsInjective | scripts/const.py:1-24 | neither column renaming merges two columns or has a repeated source column |
| Const.DistrictTypeRank | scripts/const.py:26-36 | rank 0 exactly for the eight institutional types, 1 exactly for "stały", no rank for any other type |
| Const.GetBuildingNumber | scripts/match_addresses.py:50-60 | a number exactly for a word of word characters starting with a digit; the word is then that number's digits followed by the letter suffix; otherwise both parts are empty |
| Const.BuildingNumberRoundTrip | scripts/const.py:38-39 | a number written in decimal followed by a non-digit suffix is read back as that number and suffix |
| Const.OddEvenExclusive | scripts/const.py:41-42 | no word matches both the odd and the even pattern |
| Utils.Capitalize | scripts/utils.py:6-7 | same length, first character no longer lower case and equal up to case, the rest unchanged |
| Utils.CapitalizeEmpty | scripts/utils.py:7 | the empty string stays empty |
| Utils.CapitalizeIdempotent | scripts/utils.py:6-7 | capitalising twice is capitalising once |
| Utils.LookupAt | scripts/utils.py:12 | in a dict with distinct keys, looking up a stored key gives its value |
| Utils.LookupAbsent | scripts/utils.py:12 | an absent key gives no value |
| Utils.Insert | scripts/utils.py:12 | `d[k] = v`: keys stay distinct, an existing key keeps its place, a new key goes last |
| Utils.InsertLookup | scripts/utils.py:12 | after `d[k] = v`, `k` maps to `v` and every other key keeps its value |
| Utils.FromPairs | scripts/utils.py:12 | `dict(zip(...))` has distinct keys |
| Utils.FromPairsLastWins | scripts/utils.py:12 | each key maps to the value of its last pair |
| Utils.ReplacementFields | scripts/utils.py:11 | a stripped line split at ";" has at least one field |
| Utils.ReplacementPairs | scripts/utils.py:12 | one (search, replacement) pair per line |
| Utils.ParseReplacements | scripts/utils.py:9-13 | parsing succeeds exactly when every stripped line holds a ";" (otherwise `x[1]` raises); the table has distinct keys |
| Utils.SplitHasSeparator | scripts/utils.py:11 | a split yields two or more fields exactly when the separator occurs |
| Utils.ParseReplacementsLastLineWins | scripts/utils.py:9-13 | the entry of a search text is the replacement field of the last line whose first field it is |
| Utils.ApplyReplacementsInOrder | scripts/match_addresses.py:179-180 | applying a table is applying its first part and then the rest, so file order matters |
| ProcessData.FillStreet | scripts/process_data.py:12 | a missing street becomes the town; a present one is kept |
| ProcessData.PrefixPatterns | scripts/process_data.py:16 | one prefix per line of the prefix file |
| ProcessData.PrefixMatchLen | scripts/process_data.py:16-18 | `^p\.? ` matches, case-insensitively, exactly when the street begins with `p` followed by ". " or by " " (the dot tried first); the match then covers `p`, the dot if present, and a blank |
| ProcessData.PrefixMatchLenOf | scripts/process_data.py:16-18 | a street `q + dot + " " + rest` with `q` equal to `p` up to case and `dot` empty or "." matches over exactly `q + dot + " "` |
| ProcessData.StripStreetPrefix | scripts/process_data.py:18 | the result is a suffix of the street |
| ProcessData.StripStreetPrefixFirstMatch | scripts/process_data.py:17-18 | the first prefix in file order that matches is removed together with the text its match covers (by PrefixMatchLen: the prefix, an optional dot and a blank), and nothing else is |
| ProcessData.StripStreetPrefixOf | scripts/process_data.py:16-18 | when the first prefix in file order that the street begins with (up to case) is followed by an optional dot and a blank, all of that is removed and the rest of the street is kept |
| ProcessData.StripStreetPrefixNoMatch | scripts/process_data.py:18 | a street beginning with no prefix is unchanged |
| ProcessData.NormalizeSpaces | scripts/process_data.py:22 | no blank at either end, every whitespace character left is a blank, no two blanks are adjacent, and the non-whitespace characters are kept |
| ProcessData.NormalizeSpacesOfPadded | scripts/process_data.py:22 | whitespace before the first and after the last non-whitespace character is removed |
| ProcessData.NormalizeSpacesOfWord | scripts/process_data.py:22 | a text without whitespace is unchanged |
| ProcessData.NormalizeSpacesRun | scripts/process_data.py:22 | every internal whitespace run becomes exactly one blank between the normalised text on either side |
| ProcessData.RemoveRepeatedFirstWord | scripts/process_data.py:33 | the street is unchanged or loses text after its first word only |
| ProcessData.RemoveRepeatedFirstWordOf | scripts/process_data.py:33 | "w w rest" becomes "w rest" |
| ProcessData.RemoveRepeatedFirstWordKeeps | scripts/process_data.py:33 | a street whose first word is not followed by whitespace and that word again is unchanged |
| ProcessData.RemoveRepeatedFirstWordOfWord | scripts/process_data.py:33 | a street without whitespace is unchanged |
| ProcessData.JoinTrailingSuffix | scripts/process_data.py:38 | only whitespace is removed from the building designator |
| ProcessData.JoinTrailingSuffixOf | scripts/process_data.py:38 | "…12 a" becomes "…12a" |
| ProcessData.JoinTrailingSuffixKeeps | scripts/process_data.py:38 | a designator whose final word does not follow a digit and whitespace is unchanged |
| ProcessData.JoinTrailingSuffixOfWord | scripts/process_data.py:38 | a designator without whitespace is unchanged |
| ProcessData.DropComment | scripts/process_data.py:42 | the result is a prefix of the designator |
| ProcessData.DropCommentOf | scripts/process_data.py:42 | a number followed by whitespace and a one-line comment keeps only the number |
| ProcessData.DropCommentKeeps | scripts/process_data.py:42 | a designator in which no number is followed by a comment is unchanged |
| ProcessData.DropCommentOfWord | scripts/process_data.py:42 | a designator without whitespace is unchanged |
| ProcessData.DropDuplicates | scripts/process_data.py:46 | `drop_duplicates(subset=["f_address"])`: no key repeats, every key survives, every row comes from the input, every first occurrence of a key is kept, and the survivors keep the order of their keys' first occurrences |
| ProcessData.FirstIndex | scripts/process_data.py:46 | the position of the first row with a key, or the table length when no row has it |
| ProcessData.DropDuplicatesSeen | scripts/process_data.py:46 | a row whose key was already seen is dropped |
| ProcessData.DropDuplicatesNew | scripts/process_data.py:46 | a row with a new key is kept, last |
| ProcessData.Normalized | scripts/process_data.py:44 | a row keeps its TERYT, town and other columns, and its key is the four columns joined by blanks |
| ProcessData.NormalizeStreetColumn | scripts/process_data.py:12-33 | the street column after the six street steps, in the script's order, cell by cell |
| ProcessData.CleanStreetColumn | scripts/process_data.py:12-26 | the street column after filling, prefix removal, whitespace normalisation and capitalisation, cell by cell |
| ProcessData.ReplaceColumn | scripts/process_data.py:30-31 | one column pass per table entry gives every cell with the whole table applied in order |
| ProcessData.NormalizeBuildingColumn | scripts/process_data.py:37-42 | the building column after the four building steps, in order |
| ProcessData.ProcessAddresses | scripts/process_data.py:9-47 | fails exactly when the replacement table does not parse; otherwise every row normalised, then deduplicated by key for address points (distinct keys) and kept one-for-one for districts |
| MatchText.LastMarker | scripts/match_addresses.py:13 | the greedy `.*` before "ulice" or "ulica" stops at the last marker reachable on the same line, and no later one is |
| MatchText.StreetsMarkerSubNoMarker | scripts/match_addresses.py:114 | a text without "ulica"/"ulice" is unchanged |
| MatchText.StreetsMarkerSubDropsPrefix | scripts/match_addresses.py:114 | on one line everything before the last marker goes; with `" \1: "` the marker is kept and followed by ": " |
| MatchText.RemoveNumberWordsOfPrefix | scripts/match_addresses.py:115 | "nr 5" and "numer 5" become "5" |
| MatchText.RemoveNumberWordsFromNone | scripts/match_addresses.py:115 | with no "nr"/"numer" before whitespace the text is copied |
| MatchText.SplitSegments | scripts/match_addresses.py:116 | at least one segment, none holds a comma, and no segment after the first starts with whitespace; where the cuts fall is stated by SplitSegmentsCut |
| MatchText.SplitSegmentsSingle | scripts/match_addresses.py:116 | a text without commas and semicolons is one segment |
| MatchText.Commas | scripts/match_addresses.py:116 | every semicolon becomes a comma and every other character is kept |
| MatchText.ReplaceSemicolons | scripts/match_addresses.py:116 | `replace(";", ",")` changes each semicolon into a comma and nothing else |
| MatchText.SplitAfterPlain | scripts/match_addresses.py:116 | a comma after comma-free text ends the first piece, and the pieces of the rest follow |
| MatchText.SplitSegmentsCut | scripts/match_addresses.py:116 | a comma or a semicolon cuts the same way: the text before the first one is the first segment, and the segments of the rest follow, the first of them without its leading whitespace |
| MatchText.FirstAnd | scripts/match_addresses.py:117 | a match of `\s+i\s+` at or after a position: its start and its end |
| MatchText.FirstAndLeftmost | scripts/match_addresses.py:117 | the match FirstAnd finds is the leftmost one, and it finds none only when there is no match at or after the position |
| MatchText.SplitAnd | scripts/match_addresses.py:117 | `re.split(r"\s+i\s+")` gives at least one piece; SplitAndCut states where it cuts |
| MatchText.SplitAndCut | scripts/match_addresses.py:117 | the text before the leftmost " i " match is the first piece, and the pieces of the text after the match follow |
| MatchText.FirstAndIs | scripts/match_addresses.py:117 | the scan for a match stops at the first one |
| MatchText.SplitAndNone | scripts/match_addresses.py:117 | without " i " the segment stays whole |
| MatchText.PlaceTypeSub | scripts/match_addresses.py:138 | the result is a suffix of the segment, which is unchanged when it starts with no place type |
| MatchText.PlaceTypeSubOfType | scripts/match_addresses.py:12 | any of the ten place types, in any case, with or without ':' and with the whitespace after it, is removed, and the rest of the segment is kept |
| MatchText.PlaceTypeSubOfPrefix | scripts/match_addresses.py:12 | "Miasto: Nowa Wola" becomes "Nowa Wola" |
| MatchText.PlaceTypeLenOf | scripts/match_addresses.py:12 | a segment that starts with a place type in any case is matched with exactly that place type's length |
| MatchText.PlaceTypesNoPrefix | scripts/match_addresses.py:12 | no place type is a prefix of another, so the order of the alternatives does not matter |
| MatchText.PlaceTypeMatchUnique | scripts/match_addresses.py:12 | at most one place type, in any case, starts a text |
| MatchText.HyphenHead | scripts/match_addresses.py:157 | `split("-")[0]` is the longest prefix without a hyphen: it holds none, and it ends at the end or at a hyphen |
| MatchText.RemoveParensColons | scripts/match_addresses.py:250 | no parenthesis or colon remains, a word without them is unchanged, and a single parenthesis or colon is removed |
| MatchText.RemoveParensColonsConcat | scripts/match_addresses.py:250 | characters are removed one by one, so the removal from a concatenation is the concatenation of the removals; with the two cases above this fixes the result |
| Records.IsTownIff | scripts/match_addresses.py:42-44 | true exactly when some address row has that town |
| Records.IsStreetIff | scripts/match_addresses.py:46-48 | true exactly when some street row has that town and street |
| StreetSearch.StreetCandidate | scripts/match_addresses.py:176-188 | the normalised window text is empty or does not begin with a lower-case letter |
| StreetSearch.SearchOf | scripts/match_addresses.py:176-190 | the search names each window with the script's normalisation of it |
| StreetSearch.FindStreets | scripts/match_addresses.py:169-207 | found windows are non-empty, in order, do not overlap and each names a street of the town; each is the first hit from its start, extended while it stays a street, and stops at the end or where one more word breaks the name; from every uncovered position no window names a street; `last_street` is the last street found or stays |
| StreetSearch.GrowWindow | scripts/match_addresses.py:174-204 | without a hit no window from `idx` names a street; otherwise every window from the first hit to the returned end names a street and one more word does not |
| StreetSearch.WindowEndUnique | scripts/match_addresses.py:174-204 | the end `GrowWindow` promises is unique, so the windows found are fixed by the words |
| StreetSearch.AppendFound | scripts/match_addresses.py:198-203 | appending a found window keeps the search invariants |
| BorderParser.NewClause | scripts/match_addresses.py:139-147 | the fresh dictionary: its token and town flag, nothing else set |
| BorderParser.Cleared | scripts/match_addresses.py:242-247 | the copy on "i"/"oraz" has parity cleared and no range or number; town, street and flags are kept |
| BorderParser.WithParity | scripts/match_addresses.py:260-265 | an odd word selects odd only, an even word even only, any other word changes nothing, and at most one parity is ever set |
| BorderParser.Qualified | scripts/match_addresses.py:268-281 | a dash takes `num_from` from the previous word, the word after "od" is `num_from`, the word after a dash or "do" is `num_to`, any other building number is `number`; parity, town and street are kept |
| BorderParser.ParsedToken.constructor | scripts/match_addresses.py:139 | a new dictionary holding the given entries |
| BorderParser.Parser.Clauses | scripts/match_addresses.py:132 | the values of `parsed_tokens`, in order |
| BorderParser.Parser.constructor | scripts/match_addresses.py:132-136 | no clauses, no town, empty last street, no inherited parity |
| BorderParser.Parser.Reopen | scripts/match_addresses.py:275-276 | the last clause leaves the list, becomes the current one and gains `num_to` |
| BorderParser.Parser.ScanQualifier | scripts/match_addresses.py:260-281 | a word closing the previous clause's range reopens it, with `num_to`; otherwise the current clause gets the parity and the range or number rules; nothing else changes |
| BorderParser.Parser.ScanWord | scripts/match_addresses.py:239-283 | "i"/"oraz" appends the current clause and starts its cleared copy; "cała"/"całe" marks the clause whole-street and stops; any other word is a qualifier |
| BorderParser.Parser.ScanRest | scripts/match_addresses.py:236-284 | the word loop keeps the parser valid, the current clause's street, and the town, last street and inherited parity unchanged |
| BorderParser.Parser.Conjoin | scripts/match_addresses.py:240-248 | "i"/"oraz": the current clause is appended and a fresh, cleared copy of it becomes current; town, last street and inherited parity stay |
| BorderParser.Parser.Finish | scripts/match_addresses.py:285-288 | the current clause is appended, its parity is inherited, a fresh clause begins |
| BorderParser.Parser.InheritLast | scripts/match_addresses.py:231-233 | a segment without a street takes the last street and parity |
| BorderParser.Parser.EmitStreet | scripts/match_addresses.py:214-288 | the last clause listed has the street; with nothing after the street name, the same object is appended as a whole-street clause and stays current, and the inherited parity stays (the aliasing of lines 226-229); otherwise the inherited parity becomes the appended clause's and a fresh clause with the street goes on |
| BorderParser.Parser.AppendWholeStreet | scripts/match_addresses.py:225-227 | the same clause object is marked whole-street and appended; nothing else changes |
| BorderParser.Parser.EmitInherited | scripts/match_addresses.py:230-288 | a segment without streets appends a clause of the last street, whose parity becomes the inherited one, and finishes with a fresh copy of the current clause |
| BorderParser.Parser.EmitClauses | scripts/match_addresses.py:209-288 | the found streets, last first, are emitted one after another; the last clause listed is that of the first street found, or of the inherited street when none was found |
| BorderParser.Parser.StartClause | scripts/match_addresses.py:139-153 | a segment that is a town becomes a whole-town clause of that town, is appended and leaves the current town; any other segment starts an unlisted clause with no town flag |
| BorderParser.Parser.LocateTown | scripts/match_addresses.py:155-163 | the town is the segment's head if that is a town, else the previous or the district's town; the clause takes it, and the rest is the segment with the town and the street marker removed |
| BorderParser.Parser.ContinueSegment | scripts/match_addresses.py:155-288 | a segment that is not a town is located and its clauses emitted, keeping the parser valid |
| BorderParser.Parser.NewSegmentClause | scripts/match_addresses.py:139-147 | the current clause is the new dictionary, with its town flag from the table |
| BorderParser.Parser.AppendWholeTown | scripts/match_addresses.py:149-153 | the clause gets its own token as town and is appended |
| BorderParser.Parser.ResolveTown | scripts/match_addresses.py:157-163 | the town is the head if it is a town, else the old town, else the district's; the clause takes it |
| BorderParser.Parser.ParseSegment | scripts/match_addresses.py:137-288 | parsing a segment keeps the parser valid |
| BorderParser.Parser.EmitSegment | scripts/match_addresses.py:166-288 | the segment's words are searched and its clauses emitted, keeping the parser valid |
| BorderParser.Parser.SearchStreets | scripts/match_addresses.py:166-207 | the found windows are in order and do not overlap, and the last one becomes `last_street` |
| BorderParser.Parser.Parse | scripts/match_addresses.py:113-288 | every clause selects at most one parity and names a town of the table or the district's own |
| BorderParser.Segments | scripts/match_addresses.py:114-116 | at least one segment, none holding a comma |
| BorderParser.SegmentsOfPlain | scripts/match_addresses.py:114-116 | a description without a street-list marker and without number words is cut exactly as SplitSegments cuts it |
| BorderParser.ExpandTowns | scripts/match_addresses.py:117-130 | a final "A i B i …" whose parts are all towns replaces the last segment by its parts; otherwise the segments stay |
| Evaluate.Filter | scripts/match_addresses.py:291 | a row is kept exactly when it satisfies the mask |
| Evaluate.FilterConcat | scripts/match_addresses.py:291 | masking a concatenation masks each part, so table order and multiplicity are kept |
| Evaluate.FilterSingle | scripts/match_addresses.py:291 | a single row is kept exactly when the mask holds for it |
| Evaluate.FilterThen | scripts/match_addresses.py:291-323 | masks applied one after another are one mask with all their conditions |
| Evaluate.FilterUnique | scripts/match_addresses.py:291 | masking keeps keys distinct |
| Evaluate.SelectRows | scripts/match_addresses.py:291-323 | the masks of one clause, as applied, select exactly the table rows the clause selects |
| Evaluate.MasksInTurn | scripts/match_addresses.py:299-323 | the street, parity and number masks applied in turn select exactly the rows the clause selects |
| Evaluate.OpenRows | scripts/match_addresses.py:291-295 | the rows of the town not taken by a special district or already in the district |
| Evaluate.StreetRows | scripts/match_addresses.py:301 | the open rows on the clause's street |
| Evaluate.Parity | scripts/match_addresses.py:306-311 | an even clause keeps even numbers, else an odd one odd numbers, else all |
| Evaluate.Numbers | scripts/match_addresses.py:313-323 | a range keeps the building orders between its set bounds; otherwise a number keeps that building only |
| Evaluate.Accumulate | scripts/match_addresses.py:290-328 | `district_addresses` holds only table rows not claimed by special districts |
| Evaluate.AccumulateUnique | scripts/match_addresses.py:293-295 | no address enters a district twice |
| Evaluate.UniqueAppend | scripts/match_addresses.py:325-328 | appending rows with distinct keys, none already present, keeps the keys distinct |
| Evaluate.AccumulateSound | scripts/match_addresses.py:290-328 | every district row is a table row that some clause selects |
| Evaluate.AccumulateComplete | scripts/match_addresses.py:290-328 | every table row some clause selects is in the district |
| Evaluate.AccumulateExactly | scripts/match_addresses.py:290-328 | the district holds exactly the table rows some clause selects on its own |
| Evaluate.RowsAreProduced | scripts/match_addresses.py:297-328 | a district with rows has left `None` |
| Evaluate.EvaluateDistrict | scripts/match_addresses.py:290-328 | the clause loop computes the accumulated rows and whether `district_addresses` left `None` |
| MatchGroup.TypeKey | scripts/match_addresses.py:87 | key 0 for institutional types, 1 for permanent, 2 (NaN, last) for anything else |
| MatchGroup.OfKeyPartition | scripts/match_addresses.py:87 | the three key classes together are the districts |
| MatchGroup.OrderByType | scripts/match_addresses.py:87 | a permutation of the districts sorted by type key |
| MatchGroup.SpecialsFirst | scripts/match_addresses.py:87 | every institutional district precedes every permanent one |
| MatchGroup.StreetsOf | scripts/match_addresses.py:99 | exactly the street rows of the TERYT |
| MatchGroup.WarsawSharesStreets | scripts/match_addresses.py:98-99 | all Warsaw boroughs use the street table of 146501 |
| MatchGroup.Specials | scripts/match_addresses.py:102 | exactly the addresses of the non-permanent districts seen |
| MatchGroup.MatchDistrict | scripts/match_addresses.py:95-328 | a special district takes the rows at its address; a permanent one the rows its parsed clauses select, with valid parity and towns |
| MatchGroup.Tag | scripts/match_addresses.py:108 | every row tagged with the district id |
| MatchGroup.TagAllFrom | scripts/match_addresses.py:109 | every output row comes from a district and carries its id |
| MatchGroup.Duplicated | scripts/match_addresses.py:338 | exactly the output rows whose address occurs twice or more |
| MatchGroup.DuplicatedBoth | scripts/match_addresses.py:338 | both rows of an address taken twice are reported |
| MatchGroup.NoDistrict | scripts/match_addresses.py:340 | exactly the addresses without an output row |
| MatchGroup.MatchStep | scripts/match_addresses.py:91-333 | one district's rows and whether it leaves `None`: a special district takes the rows at its address and has no clauses; a permanent one takes the rows its clauses select, and those clauses are bound only by their validity (at most one parity each, known towns), not by the boundary text |
| MatchGroup.MatchAll | scripts/match_addresses.py:91-333 | the output is every district's block, tagged, in order; each block is what MatchStep states, so a permanent district's rows follow its clauses, which are bound only by their validity |
| MatchGroup.MatchGroup | scripts/match_addresses.py:86-341 | the ordered group's districts each get the block MatchAll states (a permanent district's clauses bound only by their validity); reports exist exactly when some district produced a table, and are the duplicates and undistricted addresses |
| MatchGroup.BlockUnique | scripts/match_addresses.py:293-295 | no district holds an address twice |
| MatchGroup.BlockFromTable | scripts/match_addresses.py:97 | every district row is a table row of its TERYT |
| MatchGroup.InstitutionsBarred | scripts/match_addresses.py:87-102 | no permanent district takes the address of an institutional district |
| MatchGroup.OutputFromTable | scripts/match_addresses.py:86-332 | every output row is a table row tagged with its district's id |
| MatchGroup.GroupDistricts | scripts/match_addresses.py:86 | exactly the districts of the TERYT |
| SortResults.Entry | frontend/src/utils/sortResults.ts:10-14 | the candidate, their count and their `_proc` percentage |
| SortResults.Collect | frontend/src/utils/sortResults.ts:7-16 | the entries are exactly those of the listed keys |
| SortResults.CollectConcat | frontend/src/utils/sortResults.ts:7-16 | the keys of a concatenation give the first part's entries followed by the second's, so key order and multiplicity are kept |
| SortResults.CollectSingle | frontend/src/utils/sortResults.ts:7-16 | a single key gives its entry exactly when it is a candidate of the election |
| SortResults.UnknownElectionEmpty | frontend/src/utils/sortResults.ts:9 | an unconfigured election gives no entries |
| SortResults.MissingElectionEmpty | frontend/src/utils/sortResults.ts:4 | no election gives no entries |
| SortResults.InsertDesc | frontend/src/utils/sortResults.ts:18 | insertion keeps descending order and adds the entry |
| SortResults.SortDesc | frontend/src/utils/sortResults.ts:18 | a descending permutation |
| SortResults.SortResultsOf | frontend/src/utils/sortResults.ts:4-21 | descending by count, a permutation of the listed candidates' entries, and entries with equal counts stay in key order |
| SortResults.WithCount | frontend/src/utils/sortResults.ts:18 | the entries with a given count, in order: exactly the entries of the input with that count |
| SortResults.InsertDescWithCount | frontend/src/utils/sortResults.ts:18 | an inserted entry comes before every entry with its count |
| SortResults.SortDescStable | frontend/src/utils/sortResults.ts:18 | the sort is stable: for every count, the entries with that count keep their order |
| SortResults.Gather | frontend/src/utils/sortResults.ts:7-16 | the `forEach` collects the listed entries in order |
| FillColors.ColorAt | frontend/src/utils/generateFillColors.ts:15 | a colour inside the gradient, `undefined` past its end |
| FillColors.ThresholdsIncrease | frontend/src/utils/generateFillColors.ts:15 | the thresholds rise strictly within 0 and 100 |
| FillColors.FiveThresholds | frontend/src/config.ts:25 | with five colours the thresholds are 20, 40, 60, 80 |
| FillColors.GenerateFillColors | frontend/src/utils/generateFillColors.ts:5-19 | grey without a gradient; otherwise "step", the property, colour/threshold pairs and the last colour |
| ElectionsSlice.Reduce | frontend/src/redux/electionsSlice.ts:22-29 | `setElections` sets the election and resets the candidate; `setCandidate` sets the candidate and keeps the election |
| ElectionsSlice.SetElectionsIdempotent | frontend/src/redux/electionsSlice.ts:22-25 | choosing an election twice is choosing it once |
| ElectionsSlice.SetElectionsForgetsCandidate | frontend/src/redux/electionsSlice.ts:22-25 | the result does not depend on the old state |
| ElectionsSlice.CandidateThenElections | frontend/src/redux/electionsSlice.ts:22-28 | a candidate choice before an election choice is lost |
| ElectionsSlice.Store.constructor | frontend/src/redux/electionsSlice.ts:13-16 | the store begins at `initialState` |
| ElectionsSlice.Store.SetElections | frontend/src/redux/electionsSlice.ts:22-25 | the new state is the reducer's result |
| ElectionsSlice.Store.SetCandidate | frontend/src/redux/electionsSlice.ts:26-28 | the new state is the reducer's result |
| MapFillColor.BuildFillColor | frontend/src/components/Map/Map.tsx:12-31 | "case", a condition and a colour per key (below the first key, between neighbours, from the second-to-last key on) and black last |
| MapFillColor.Condition | frontend/src/components/Map/Map.tsx:15-28 | the first key's condition is `turnout < key`, the last key's `turnout >= previous key`, any other both bounds under "all" |
| MapFillColor.ConditionsAreBuckets | frontend/src/components/Map/Map.tsx:14-28 | each condition holds exactly on its key's bucket |
| MapFillColor.BucketsDisjoint | frontend/src/components/Map/Map.tsx:14-28 | the buckets do not overlap |
| MapFillColor.BucketsCover | frontend/src/components/Map/Map.tsx:14-28 | every turnout falls in some bucket |
| MapFillColor.CaseGivesBucketColor | frontend/src/components/Map/Map.tsx:4-31 | a turnout gets its bucket's colour, never the black fallback |
| MapFillColor.PickFrom | frontend/src/components/Map/Map.tsx:12-31 | the `case` evaluation reaches the first condition that holds |

## Left out

- File reading and writing, printing, `error.log` and the GeoJSON/shapefile output: the mains become functions of their inputs, which are the rows and the lines of the files.
- process_data.py `process_data` and match_addresses.py `main` besides the group loop of lines 86-341: they load and store data sets.
- The sort of line 82 and the `building_n` conversion of lines 83-84: rows arrive sorted, with `buildingN` already -1 when missing.
- Lines 103-107: the `len(teryt_districts) == 0` branch and `special_addresses.count` do nothing.
- The `Env` helpers (`remove_first_name`, `remove_first_letter`, the street-prefix table, `ordinal_regex`, `get_building_order`): their source is not part of this model, so they are parameters.
- `concat` (utils.py): its source is not part of this model; it is taken as `concat(None, x) == x`, and otherwise as concatenation in order.
- `sort_values` with the district-type key: the model uses a stable order; pandas's default quicksort is not stable, so districts of equal rank may come out in another order.
- process_data.py:4 imports `capitalize` from `shared`, whose source is not part of this model; it is modelled by `utils.capitalize`.
- ProcessData.PrefixMatchLen: a prefix line is matched as literal text; the script inserts it into the pattern unescaped, so a line holding regex metacharacters behaves differently.
- Text.ReplaceAllIgnoreCase: the replacement is inserted literally; `re.sub` also interprets backslash escapes in it.
- Regex `$` matches at the end of the string only; Python's `$` also matches before a final newline.
- `\d` is the ASCII digits; Python's `\d` also matches other Unicode decimal digits.
- `\w` is the ASCII letters and digits, `_`, and U+00C0 to U+024F (the Latin-1 letters, Latin Extended-A and Latin Extended-B) without × and ÷. Python's `\w` matches further Unicode letters and digits, among them ª, µ, º, ², ³ and ¹, which the model does not.
- Case mapping (Text.ToLower, Text.ToUpper) covers ASCII, the Latin-1 letters U+00C0 to U+00DE and U+00E0 to U+00FE without × and ÷, and the Polish letters of Latin Extended-A. It leaves ß, ÿ and µ unchanged, where Python's `upper()` gives "SS", "Ÿ" and "Μ"; so Utils.Capitalize keeps the length of a text beginning with ß, which Python lengthens.
- The NaN building of process_data: the building column is taken to be a string in every row.
- BorderParser.Parser.ScanWord: for a qualifier word it states the word to scan, and ScanQualifier states its effect.
- BorderParser.Parser.SearchStreets: it states the shape of the found windows and `last_street`; StreetSearch.FindStreets states what they are.
- BorderParser.Parser.Parse: it states that every clause selects at most one parity and names a valid town, not a closed form of the clause list.
- BorderParser.Parser.ParseSegment: it states the parser invariants; StartClause, LocateTown and the emitting steps state the effects.
- BorderParser.Parser.ContinueSegment: it states the parser invariants; LocateTown and EmitSegment's steps state the effects.
- BorderParser.Parser.EmitSegment: it states the parser invariants; SearchStreets and EmitClauses state the effects.
- BorderParser.Parser.EmitClauses: it states the parser invariants and the street of the last clause listed; EmitStreet and EmitInherited state the effect of each street.
- BorderParser.Parser.EmitStreet: when words follow the street name it states the last clause listed, the inherited parity and the next clause, not the clauses the word scan appends or reopens before that; ScanWord and ScanQualifier state those.
- BorderParser.Parser.EmitInherited: it states the last clause's street, the inherited parity and the next clause, not the clauses the word scan appends or reopens before that; ScanWord and ScanQualifier state those.
- BorderParser.Parser.ScanRest: it states the parser invariants and what stays unchanged; ScanWord states the effect of each word.
- MatchGroup.MatchDistrict: the clauses of a permanent district are stated through their properties, not as a function of the boundary text.
- MatchGroup.MatchStep: inherits the MatchDistrict gap: a permanent district's clause list is bound only by its validity, so its rows are not tied to its boundary text (an empty clause list, and so an empty block, also meets the contract).
- MatchGroup.MatchAll: inherits the same gap for every permanent district of the group; the ghost clause lists it returns are what carries it.
- MatchGroup.MatchGroup: inherits the same gap; the rows of a permanent district are not stated as a function of its boundary text. Tying them would need the clause parser as a function, and it is modelled as the object the script mutates.
- JavaScript numbers are modelled as reals: there is no NaN, Infinity or rounding; `b.result - a.result` is the exact difference.
- SortResults.DistrictInfo: every property reads as a number, through a total function.
- FillColors.GenerateFillColors: `requires g >= 1`; `Array(GRADIENT_COLORS - 1)` would throw for a negative length, and `GRADIENT_COLORS` is 5.
- The Redux store setup, `useElectionsStore`, the selectors and the React components: they are wiring.
