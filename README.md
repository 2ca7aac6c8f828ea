# Tile logic of the kifu analysis API

The kifu API (`apps/kifu_api/app/main.py`) serves two analysis endpoints for
Riichi mahjong hands.

- **`/analysis/hand`** scores a winning hand. Before it calls the scoring
  library it:
  - rewrites the client's tile tokens into the library's spelling (honour
    letters E S W N P F C become the romaji to na sh pe hk ht ty);
  - checks every tile: it must be a known tile, no tile kind may appear more
    than four times, and no red five (`0m` `0p` `0s`) more than once;
  - lowers the melds into the library's "actions" and marks the tile that
    was called from another player;
  - turns the dora indicators into dora tiles, adding the ura-dora
    indicators only for a riichi hand;
  - builds the tile list for the scorer from the hand and the meld tiles,
    and appends the win tile once if the list is shorter than 14 tiles plus
    one for each kan of at least four tiles.

  Afterwards it expands each dora-type yaku into one entry per han.
- **`/analysis/tenpai`** prepares a hand for the wait finder:
  - it normalises the hand and turns red fives into plain fives;
  - it keeps at most thirteen tiles.

  It then reports agari, a shanten number, another status, or the waits,
  written back in letters.
- **`_normalize_detected_tile`** cleans the labels an image detector
  produces.

The project models all of this in Dafny, in nine modules.

| module | what it models |
|---|---|
| `Wrappers` | Option and Result |
| `Text` | the Python string operations the handlers use: `strip`, `split()[0]`, `split()[-1]`, `split(sep)[-1]`, `lower`, `in`, `str(n)` and `int(s)` |
| `Tiles` | the honour maps, the tile normalisation functions, `_base_key`, `has_aka` and the detector label cleaner |
| `Dora` | `dora_from_indicator`, and the dora list with its riichi rule |
| `Validation` | the validation pass |
| `Melds` | meld lowering, `fromOther` marking, the kan count and the meld tiles for the scorer |
| `Yaku` | the yaku list |
| `HandApi` | the whole `/analysis/hand` handler |
| `TenpaiApi` | the whole `/analysis/tenpai` handler |

How the imperative parts are modelled:

- **Loops become methods with invariants**, each proved equal to a
  specification function:
  - the dictionary-counting validation: `CountTiles`, `FindOver` and `CheckTiles`;
  - the meld loop and its `used_called` flag: `LowerMelds` and `MarkCalled`;
  - the kan and tile collection: `CollectForCalc`;
  - the yaku loop: `ExpandYaku`;
  - the handler itself: `AnalyzeHand`, with its steps `CollectTiles`, `BuildDoraTiles`, `BuildRequest` and `ScoreAndAnswer`.
- **A Python dict becomes a `Tally`**: its insertion-ordered keys plus a map
  of counts. This means the "first failure" the handler reports follows dict
  iteration order.
- **Python's `None` for a tile becomes `""`.** Every handler tests tiles with
  `if not tile`, so the two behave alike.
- **External pieces are parameters**, stated on whole values. These are the
  scoring library `calc_analyze_hand`, the wait finder `machi_hai_13`, the
  meld converter `convert_to_melds` and the tile set `ALL_TILES`. The three
  routines may raise; they return a Result whose Failure holds the text of
  the exception.

## Model

| member | source | states |
|---|---|---|
| Text.SpaceIn | apps/kifu_api/app/main.py:121-123 | the whitespace test used by `strip()` and `split()` holds exactly for the characters of Python's `isspace` table |
| Text.Strip | apps/kifu_api/app/main.py:121 | `strip()` returns the slice of its argument left after the leading and the trailing runs of whitespace (Python's `isspace` set); the result has no whitespace at either end, and a string with non-space ends is returned unchanged |
| Text.StripChars | apps/kifu_api/app/main.py:125 | every character `strip()` leaves comes from its argument |
| Text.LastWord | apps/kifu_api/app/main.py:123 | `split()[-1]` is a non-empty run of non-space characters of the string that starts the string or follows whitespace and is followed only by whitespace; it is the string itself when the string has no whitespace |
| Text.LastWordJoined | apps/kifu_api/app/main.py:123 | the last word of `q + " " + t` is `t` when `t` is non-empty and has no whitespace |
| Text.FirstWord | apps/kifu_api/app/main.py:420 | `split()[0]` is a non-empty run of non-space characters of the string that is preceded only by whitespace and ends the string or is followed by whitespace; it is the string itself when the string has no whitespace |
| Text.FirstWordJoined | apps/kifu_api/app/main.py:420 | the first word of `w + " " + rest` is `w` when `w` has no whitespace |
| Text.AfterLast | apps/kifu_api/app/main.py:125 | `split(sep)[-1]` is a suffix without `sep`, preceded by `sep` whenever it is shorter than the string |
| Text.Lower | apps/kifu_api/app/main.py:216 | `lower()` keeps the length, maps A-Z to a-z and KELVIN SIGN to k, and keeps every other character; no A-Z is left and lowering the result again changes nothing |
| Text.Contains | apps/kifu_api/app/main.py:418 | `sub in s` (as in `"shanten" in result`, and `"Dora" in name` at line 363) never holds for a `sub` longer than `s` and holds whenever `s` starts with `sub` |
| Text.ContainsAt | apps/kifu_api/app/main.py:418 | when `sub in s` holds, `sub` is the slice of `s` at some position |
| Text.ContainsFrom | apps/kifu_api/app/main.py:418 | `sub` as the slice of `s` at any position makes `sub in s` hold; with ContainsAt, `in` holds exactly when `sub` occurs at some position |
| Text.NatString | apps/kifu_api/app/main.py:261 | `str(n)` for a count is a non-empty string of decimal digits without a leading zero |
| Text.IntString | apps/kifu_api/app/main.py:420 | `str(n)` is non-empty and starts with '-' exactly when n is negative |
| Text.ParseInt | apps/kifu_api/app/main.py:420 | `int(s)` succeeds only on a string starting with a digit or a sign |
| Text.ParseIntString | apps/kifu_api/app/main.py:420 | `int(str(n)) == n` |
| Text.NatStringValue | apps/kifu_api/app/main.py:420 | the digits `str(n)` prints for n >= 0 form a digit string `int()` accepts, with value n |
| Tiles.HonorMapsInverse | apps/kifu_api/app/main.py:21-30 | HONOR_MAP_REVERSE is HONOR_MAP with keys and values swapped: each undoes the other, and no romaji is a letter code |
| Tiles.NormalizeTile | apps/kifu_api/app/main.py:173-176 | letters become their romaji, "" stays "", every other token is kept; the result is never a letter code |
| Tiles.NormalizeTileIdempotent | apps/kifu_api/app/main.py:173-176 | normalising twice equals normalising once |
| Tiles.DenormalizeTile | apps/kifu_api/app/main.py:397-400 | romaji become their letters, every other token is kept; the result is never romaji |
| Tiles.DenormalizeNormalize | apps/kifu_api/app/main.py:397-400 | denormalise after normalise gives back every token that was not already romaji |
| Tiles.NormalizeDenormalize | apps/kifu_api/app/main.py:397-400 | normalise after denormalise gives back every token that is not a letter code |
| Tiles.NormalizeTiles | apps/kifu_api/app/main.py:178-179 | the result is no longer than the input and holds no empty and no letter token; without empty tokens it is the elementwise normalisation |
| Tiles.NormalizeTilesLength | apps/kifu_api/app/main.py:178-179 | exactly the empty tokens are dropped: the length is the input length less the number of "" |
| Tiles.NormalizeTilesAppend | apps/kifu_api/app/main.py:178-179 | normalising a concatenation concatenates the normalisations |
| Tiles.NormalizeTilesIdempotent | apps/kifu_api/app/main.py:178-179 | normalising a normalised list changes nothing |
| Tiles.BaseKey | apps/kifu_api/app/main.py:240-245 | exactly the three red fives change, each into the five of its own suit |
| Tiles.BaseKeyIdempotent | apps/kifu_api/app/main.py:240-245 | `_base_key` is idempotent |
| Tiles.HasAka | apps/kifu_api/app/main.py:181-182 | true exactly when some non-empty token starts with '0'; any red five makes it true |
| Tiles.IndexOf | apps/kifu_api/app/main.py:195 | `list.index` returns the first position holding the value |
| Tiles.NormalizeDetectedTile | apps/kifu_api/app/main.py:118-126 | a cleaned detector label never holds a space |
| Tiles.LabelWord | apps/kifu_api/app/main.py:122-123 | a label with a space is cut to its last word: a non-empty run without whitespace that starts the label or follows whitespace and is followed only by whitespace; a label without a space is kept |
| Tiles.LabelName | apps/kifu_api/app/main.py:124-125 | the hyphen rule never introduces a space |
| Tiles.LetterOf | apps/kifu_api/app/main.py:126 | the reverse lookup is `denormalize_tile`: romaji become letters, other text is kept, and no space is introduced |
| Tiles.DetectedPlainLabel | apps/kifu_api/app/main.py:118-126 | a label with no whitespace and no hyphen is only mapped from romaji to letter ("to" gives "E", "5m" stays "5m") |
| Tiles.DetectedPrefixedLabel | apps/kifu_api/app/main.py:118-126 | a label `p-t` without whitespace is read as `t` mapped to its letter ("x-to" gives "E") |
| Tiles.DetectedSpacedLabel | apps/kifu_api/app/main.py:118-126 | a label `p + " " + t`, with `t` non-empty and free of whitespace and hyphens, is read as `t` mapped to its letter, whatever the prefix `p` |
| Tiles.SpacedLabelWord | apps/kifu_api/app/main.py:121-123 | stripping `p + " " + t` and taking its last word gives `t` |
| Tiles.AfterLastJoined | apps/kifu_api/app/main.py:125 | the part after the last `sep` of `p + sep + t` is `t` when `t` has no `sep` |
| Dora.DoraFromIndicator | apps/kifu_api/app/main.py:184-198 | the successor fails exactly for a two-character suited token whose rank is not a digit, with that token; a digit rank gives a rank 1-9 of the same suit; "" gives "" and nothing else does |
| Dora.DoraSuited | apps/kifu_api/app/main.py:188-191 | a suited indicator of rank n (0 read as 5) gives rank n mod 9 + 1 of the same suit: "0m" gives "6m", "9p" gives "1p" |
| Dora.DoraWind | apps/kifu_api/app/main.py:192-195 | winds cycle to, na, sh, pe, to |
| Dora.DoraDragon | apps/kifu_api/app/main.py:193-197 | dragons cycle hk, ht, ty, hk |
| Dora.WindCycleShape | apps/kifu_api/app/main.py:192 | the wind cycle lists four distinct winds and closes on the first |
| Dora.DragonCycleShape | apps/kifu_api/app/main.py:193 | the dragon cycle lists three distinct dragons, closes on the first and shares nothing with the winds |
| Dora.DoraOtherToken | apps/kifu_api/app/main.py:185-198 | any other token comes back normalised, and "" gives "" |
| Dora.DoraRedFive | apps/kifu_api/app/main.py:188-191 | a red five indicates the same dora as the plain five |
| Dora.SuitedRoundTrip | apps/kifu_api/app/main.py:188-191 | on the 27 suited kinds the successor and the predecessor undo each other |
| Dora.WindRoundTrip | apps/kifu_api/app/main.py:192-195 | on the four winds the successor and the predecessor undo each other |
| Dora.DragonRoundTrip | apps/kifu_api/app/main.py:193-197 | on the three dragons the successor and the predecessor undo each other |
| Dora.DoraPermutesKinds | apps/kifu_api/app/main.py:184-198 | the successor permutes the 34 tile kinds: IndicatorFor is its two-sided inverse |
| Dora.Successors | apps/kifu_api/app/main.py:284 | a successful dora list holds one entry per indicator, the successor of each |
| Dora.SuccessorsFailure | apps/kifu_api/app/main.py:284 | the list fails exactly when some indicator raises, and with the first such indicator |
| Dora.SuccessorsAppend | apps/kifu_api/app/main.py:283-284 | the list for joined indicators is the two lists joined, or the first failure |
| Dora.DoraTiles | apps/kifu_api/app/main.py:280-284 | a built dora list has one non-empty entry per non-empty dora indicator, plus one per non-empty ura indicator under riichi |
| Dora.DoraTilesUra | apps/kifu_api/app/main.py:273-284 | without riichi the ura indicators are not read; with riichi their dora follow the plain ones |
| Validation.Message | apps/kifu_api/app/main.py:249-268 | each failure's error text starts "invalid tile: ", "tile overflow: " or "red overflow: " |
| Validation.BaseKeys | apps/kifu_api/app/main.py:253 | the base key of every tile, in order |
| Validation.Reds | apps/kifu_api/app/main.py:255-256 | only red fives are kept |
| Validation.RedsAppend | apps/kifu_api/app/main.py:252-256 | the red fives of a joined list are those of the first part followed by those of the second |
| Validation.RedsCount | apps/kifu_api/app/main.py:255-256 | every copy of each red five is kept, and nothing else |
| Validation.Distinct | apps/kifu_api/app/main.py:257 | the dict's keys are exactly the values counted |
| Validation.FirstOver | apps/kifu_api/app/main.py:257-270 | what the scan finds is a key whose count is over the limit |
| Validation.FirstUnknown | apps/kifu_api/app/main.py:247-249 | what the unknown-tile pass finds is a tile of the list that is not known |
| Validation.Validate | apps/kifu_api/app/main.py:247-270 | an invalid tile is a listed, unknown tile; a tile overflow has a count above four; a red overflow names a red five counted more than once |
| Validation.FirstUnknownNone | apps/kifu_api/app/main.py:247-249 | the unknown-tile pass finds nothing exactly when every tile is known |
| Validation.FirstUnknownSome | apps/kifu_api/app/main.py:247-249 | what it finds is the earliest unknown tile |
| Validation.FirstOverDistinct | apps/kifu_api/app/main.py:257-270 | a scan of the dict keys finds nothing iff no entry is over the limit, and otherwise finds the earliest entry that is |
| Validation.IncrementCounts | apps/kifu_api/app/main.py:254 | `d[k] = d.get(k, 0) + 1` keeps the dict equal to the counts of the list so far, keys in first-occurrence order |
| Validation.CountTiles | apps/kifu_api/app/main.py:250-256 | the counting loop builds `counts` over the base keys and `red_counts` over the red fives |
| Validation.FindOver | apps/kifu_api/app/main.py:257-270 | the `items()` scan returns the first key, in insertion order, whose count is over the limit |
| Validation.CheckTiles | apps/kifu_api/app/main.py:247-270 | the handler's validation loops return Validate's verdict |
| Validation.BaseOverNone | apps/kifu_api/app/main.py:257-263 | no tile overflow is found exactly when no base key occurs more than four times |
| Validation.BaseOverSome | apps/kifu_api/app/main.py:257-263 | the overflow found is the key of the earliest tile whose key overflows |
| Validation.RedOver | apps/kifu_api/app/main.py:264-270 | no red overflow exactly when every red five occurs at most once; otherwise the earliest overflowing red five |
| Validation.ValidatePass | apps/kifu_api/app/main.py:247-270 | the check passes iff every tile is known, no base key occurs more than four times and no red five more than once |
| Validation.ValidateInvalid | apps/kifu_api/app/main.py:247-249 | an unknown tile is reported first, and it is the earliest one |
| Validation.ValidateTileOverflow | apps/kifu_api/app/main.py:257-263 | a tile overflow is reported only for all-known tiles, with the true count (> 4) of the earliest overflowing key |
| Validation.ValidateRedOverflow | apps/kifu_api/app/main.py:264-270 | a red overflow is reported only with no unknown tile and no base overflow, with the true count (> 1) of the earliest overflowing red five |
| Melds.KindOf | apps/kifu_api/app/main.py:216-220 | a kind that is kept is, lower-cased, a kan spelling, "chi" or "pon" |
| Melds.KindOfSpellings | apps/kifu_api/app/main.py:216-220 | each lower-cased kan spelling names a kan, "chi" and "pon" name themselves, and every other kind is skipped |
| Melds.LowerIdempotent | apps/kifu_api/app/main.py:216 | lower-casing twice equals lower-casing once |
| Melds.KindOfCaseBlind | apps/kifu_api/app/main.py:216 | the kind is read without regard to case |
| Melds.Targets | apps/kifu_api/app/main.py:224-233 | one target per meld tile, carrying that tile, in order |
| Melds.MarkCalled | apps/kifu_api/app/main.py:224-233 | the marking loop with its `used_called` flag and first-tile fallback yields Targets |
| Melds.TargetsMarkOne | apps/kifu_api/app/main.py:224-233 | a called non-empty meld has exactly one tile marked `fromOther`; an uncalled meld has none |
| Melds.TargetsMarkCalledTile | apps/kifu_api/app/main.py:228-233 | the marked tile is the first copy of the called tile, or the first tile when the called tile is absent |
| Melds.LowerMeld | apps/kifu_api/app/main.py:215-234 | a meld becomes an action exactly when its kind is kept, with that kind and one target per non-empty tile |
| Melds.Lowered | apps/kifu_api/app/main.py:214-234 | at most one action per meld, and exactly one each when no meld is skipped |
| Melds.MeldTiles | apps/kifu_api/app/main.py:221-235 | the tiles the melds add to the validated list are none empty and none a letter code |
| Melds.LowerMelds | apps/kifu_api/app/main.py:215-235 | the meld loop yields the lowered actions and the meld tiles added to `all_tiles` |
| Melds.SkippedMeld | apps/kifu_api/app/main.py:219-220 | a skipped meld adds no action and no tile |
| Melds.KanCount | apps/kifu_api/app/main.py:291-294 | there are no more kans than actions |
| Melds.KanCountIndices | apps/kifu_api/app/main.py:291-294 | `kan_count` is the number of actions that are kans with at least four target tiles |
| Melds.TileNames | apps/kifu_api/app/main.py:295-298 | the tiles taken from one action are at most its targets, none empty |
| Melds.ActionTiles | apps/kifu_api/app/main.py:295-298 | `meld_tiles_for_calc` holds no empty tile |
| Melds.CollectForCalc | apps/kifu_api/app/main.py:289-298 | the action loop collects the non-empty target tiles and counts the kans with four or more tiles |
| Melds.ActionTilesLowered | apps/kifu_api/app/main.py:295-298 | the meld tiles handed to the scorer are exactly the meld tiles validated |
| Melds.KanCountTiles | apps/kifu_api/app/main.py:293-294 | every counted kan holds at least four of the meld tiles |
| Yaku.Repeat | apps/kifu_api/app/main.py:370 | `[x] * n` has n entries, all x |
| Yaku.HanCount | apps/kifu_api/app/main.py:364-368 | the han count read for a dora-type yaku is the closed value whenever that is an integer, the open value only otherwise, and absent exactly when neither is an integer |
| Yaku.Entries | apps/kifu_api/app/main.py:358-372 | a dora-type yaku with han count above one gives that many copies of its name; every other yaku gives its label once |
| Yaku.YakuNames | apps/kifu_api/app/main.py:356-372 | the list has at least one entry per yaku |
| Yaku.ExpandYaku | apps/kifu_api/app/main.py:356-372 | the yaku loop yields YakuNames |
| Yaku.YakuNamesAppend | apps/kifu_api/app/main.py:356-372 | the list for joined yaku runs is the two lists joined |
| Yaku.YakuNamesFromScorer | apps/kifu_api/app/main.py:356-372 | every entry is the label of a reported yaku, and there is at least one entry per yaku |
| Yaku.YakuNamesPlain | apps/kifu_api/app/main.py:356-372 | without repeated dora yaku the list is the labels, one each, in order |
| HandApi.WindOf | apps/kifu_api/app/main.py:32-37 | "S", "W" and "N" name their winds; every other value reads as East |
| HandApi.AllTiles | apps/kifu_api/app/main.py:210-235 | `all_tiles` holds the hand, the win tile when set, and the kept meld tiles; none is empty or a letter code |
| HandApi.InRiichi | apps/kifu_api/app/main.py:273-284 | `is_riichi` holds exactly when one of `riichi`, `is_riichi`, `is_daburu_riichi` and `is_open_riichi` is set; when it does not, the dora list is the one built with no ura-dora indicators at all |
| HandApi.ConvertedMelds | apps/kifu_api/app/main.py:272 | the converter is consulted only when some meld was kept, and its answer, or its exception, is taken as it is |
| HandApi.ScoreArgs | apps/kifu_api/app/main.py:324-348 | the scorer gets the tiles, win tile, melds, dora list and red-five flag given; riichi when any riichi flag is set; tsumo exactly for win type "tsumo"; the paarenchan count read |
| HandApi.Request | apps/kifu_api/app/main.py:299-348 | the request carries the normalised win tile, the converted melds, the dora list and the red-five flag of the validated tiles |
| HandApi.CollectTiles | apps/kifu_api/app/main.py:210-235 | the handler's first steps give the normalised hand and win tile, the lowered actions and `all_tiles` |
| HandApi.BuildDoraTiles | apps/kifu_api/app/main.py:280-284 | the handler's dora steps give DoraTiles, with the ura indicators read only under riichi |
| HandApi.ScoreAndAnswer | apps/kifu_api/app/main.py:324-382 | the scorer call and the reading of its result give Answer: its exception, its error, or its score with the yaku expanded |
| HandApi.WithMelds | apps/kifu_api/app/main.py:273-382 | after the melds are converted: a failing dora indicator is the answer exactly when the dora list fails, naming that indicator; otherwise the answer is Answer of what the scorer does with the request built from the melds and the dora list |
| HandApi.Answer | apps/kifu_api/app/main.py:350-382 | an exception from the scorer is answered with its text; a non-empty `error` on the result is answered as that error; otherwise the answer is the score with han, fu and cost as returned and the yaku expanded by YakuNames, at least one entry per yaku; never a validation or indicator failure |
| HandApi.BuildRequest | apps/kifu_api/app/main.py:289-348 | the handler's tile-list loop and keyword arguments give Request |
| HandApi.Analyze | apps/kifu_api/app/main.py:209-384 | the answer is a validation failure, with its error text, exactly when validation fails; an indicator error comes only after the melds were converted, for the failing indicator |
| HandApi.CalcTiles | apps/kifu_api/app/main.py:299-303 | the scorer tiles are the hand and meld tiles, plus the win tile once at most, exactly when it is set and the list is below 14 + kan count |
| HandApi.AnalyzeHand | apps/kifu_api/app/main.py:209-384 | the handler's steps, including an exception from the converter or the scorer, give the answer Analyze states on whole values |
| HandApi.ClosedHandRequest | apps/kifu_api/app/main.py:299-348 | a closed 13-tile hand with a win tile reaches the scorer as the hand plus the win tile, with no melds |
| HandApi.RejectedBeforeScoring | apps/kifu_api/app/main.py:247-270 | a hand failing validation gets that failure and its error text, whatever the scorer and converter do |
| HandApi.ConverterRaisesFirst | apps/kifu_api/app/main.py:272-284 | when the converter raises on a validated hand, its exception is the answer, whatever the dora indicators |
| HandApi.CalcTilesWithinAll | apps/kifu_api/app/main.py:213-303 | the scorer tiles are a sub-multiset of the validated tiles |
| HandApi.RequestTilesValidated | apps/kifu_api/app/main.py:247-303 | after validation passes, each scorer tile is known and no red five reaches the scorer twice |
| HandApi.WithinKnown | apps/kifu_api/app/main.py:247-270 | a sub-multiset of a validated list is known tiles with no repeated red five |
| HandApi.AnalyzeDependsOn | apps/kifu_api/app/main.py:209-384 | the answer depends only on the validated tiles, the converted melds, the dora list and the scorer request |
| HandApi.SamePlayRequest | apps/kifu_api/app/main.py:299-348 | the indicators do not affect the tiles validated, the converted melds or the request for given melds and dora list |
| HandApi.UraIgnoredWithoutRiichi | apps/kifu_api/app/main.py:273-284 | without a riichi flag, changing the ura-dora indicators changes nothing |
| HandApi.ScoredMeansValid | apps/kifu_api/app/main.py:350-382 | a scored answer means validation passed, the melds were converted and the dora list built, and the scorer returned without raising and reported no error; its yaku are the expanded list |
| TenpaiApi.NormalizeForTenpai | apps/kifu_api/app/main.py:402-407 | the same map as `_base_key`: it changes exactly the red fives |
| TenpaiApi.NormalizeForTenpaiIdempotent | apps/kifu_api/app/main.py:402-407 | it is idempotent |
| TenpaiApi.PlainFives | apps/kifu_api/app/main.py:410 | elementwise base keys, never a red five, and plain non-empty tokens stay so |
| TenpaiApi.TenpaiHand | apps/kifu_api/app/main.py:410-412 | the wait finder gets the first min(n, 13) normalised tiles with red fives made plain, none empty, red or a letter code |
| TenpaiApi.TenpaiHandPrefix | apps/kifu_api/app/main.py:411-412 | tiles after the thirteenth normalised tile are ignored |
| TenpaiApi.TenpaiHandAppend | apps/kifu_api/app/main.py:410 | within thirteen tiles the sent hand is built piece by piece |
| TenpaiApi.PlainFivesAppend | apps/kifu_api/app/main.py:410 | the red-five map distributes over concatenation |
| TenpaiApi.TenpaiHandPlain | apps/kifu_api/app/main.py:410-412 | at most thirteen plain tiles are sent unchanged |
| TenpaiApi.DenormalizeTiles | apps/kifu_api/app/main.py:425 | each wait keeps its place with romaji written as letters: no romaji is left, "" stays exactly where it was, and for waits that are non-empty and not letter codes normalising the result gives the waits back |
| TenpaiApi.DenormalizedRoundTrip | apps/kifu_api/app/main.py:425 | normalising the denormalised waits gives them back when none is empty or a letter code |
| TenpaiApi.Report | apps/kifu_api/app/main.py:414-426 | waits are answered as tenpai, "agari" as agari, and a status other than "agari" that mentions "shanten" and whose first word parses is answered as shanten with that number, exactly those statuses and no others; any other status is answered as itself; the answer is never an exception |
| TenpaiApi.ShantenOf | apps/kifu_api/app/main.py:415-426 | the response carries a `shanten` field exactly for agari (-1), tenpai (0) and a shanten answer (its number), and none for another status or an exception |
| TenpaiApi.ShantenField | apps/kifu_api/app/main.py:414-426 | the `shanten` field of the answer to the wait finder is -1 for "agari", 0 for waits, and for any other status present exactly when the status mentions "shanten" and its first word parses, with that number |
| TenpaiApi.AnalyzeTenpai | apps/kifu_api/app/main.py:408-428 | an exception from the wait finder is answered with its text; otherwise the answer is Report of the finder's result for the normalised hand |
| TenpaiApi.ShantenStatus | apps/kifu_api/app/main.py:418-421 | a status "<n> shanten..." is answered as shanten n |
| TenpaiApi.ShantenText | apps/kifu_api/app/main.py:416-420 | such a status is not "agari", mentions "shanten" and its first word is `str(n)` |
| TenpaiApi.WaitsRoundTrip | apps/kifu_api/app/main.py:425-426 | waits come back as tenpai with shanten 0, in letters, and normalising them again gives the finder's list |
| TenpaiApi.EastTripletRedFive | apps/kifu_api/app/main.py:410-412 | "E", "E", "E", "0m" reaches the finder as "to", "to", "to", "5m" |
| TenpaiApi.RedFiveHandSent | apps/kifu_api/app/main.py:410-412 | nine plain tiles then "E", "E", "E", "0m" reach the finder as the nine tiles then "to", "to", "to", "5m" |
| TenpaiApi.RedFiveHand | apps/kifu_api/app/main.py:409-426 | if the finder answers that hand with the single wait "5m", the handler reports tenpai on ["5m"] (the red-five test of the characterization tests) |

## Left out

- Web plumbing and I/O are not modelled:
  - the FastAPI app, CORS and the routes `health`, `get_sample` and `validate_kifu`;
  - sample and weights file loading;
  - image upload and YOLO inference (`tiles_from_image`, `capture`, `_run_tile_inference`);
  - `_safe_float`, which works on floating point;
  - the pydantic check `_validate_kifu`.
- The debug lines and the `debug` field of every answer are not modelled; they change no other field.
- The internals of `calc_analyze_hand`, `machi_hai_13`, `convert_to_melds` and `ALL_TILES` belong to a library that is not part of this model. They are parameters.
  - As a result, the tanyao test (han 1, fu 40, cost 2000) is a statement about the scorer and is not proved.
  - HandApi.ClosedHandRequest states what that test's hand sends to the scorer.
- Exceptions from the library are modelled: `convert_to_melds`, `calc_analyze_hand` and `machi_hai_13` return Failure with the text `str(exc)` when they raise, and the handlers answer `Raised` with it.
  - The `ValueError` of `int(t[0])` in `dora_from_indicator` for a non-digit rank is modelled as `IndicatorError` with the failing token, without Python's message text.
  - The `except Exception` answers for a payload whose fields have the wrong type are not modelled: a non-string `kind`, a non-list `hand`, a `riichiSticks` that is not an integer, and so on.
- HandApi.AnalyzeHand: the converter is assumed not to change the `actions` list it receives. The handler reads that list again in the kan and tile loop, so a converter that mutated it would change the scorer's tiles; the model hands the same actions to both.
- The `int()` in the `paarenchan` field is modelled as its result: an optional integer read from the payload.
- `getattr` defaults on the scorer's result are not modelled: the result always has `han`, `fu`, `cost` and `yaku`. A `han_open`/`han_closed` that is not an int is `None`, and a `bool` is not told apart from an int.
- Text.Lower: only A-Z and KELVIN SIGN are lowered. Every other character is kept, which changes no comparison against the ASCII meld kinds.
- Dora.DoraFromIndicator: the rank is read with ASCII digits only. Python's `int(t[0])` also accepts other Unicode decimal digits, so a token such as "５m" (a fullwidth five) gives "6m" there, while here it is an `IndicatorError`.
- Text.ParseInt: only ASCII digits are accepted, not the other Unicode decimal digits Python's `int()` takes.
- Tiles.NormalizeDetectedTile: its own contract only says that the result holds no space. The lemmas fix the result for labels without whitespace, for `p-t` labels, and for labels `p + " " + t` whose last word has no hyphen.
- TenpaiApi.RedFiveHand: stated for any nine plain tiles in front of "E", "E", "E", "0m", not only for the test's 1m 2m 3m 1p 2p 3p 1s 2s 3s. The finder's answer "5m" is an assumption about the finder.
