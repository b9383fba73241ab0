# HnD-Bot record layer in Dafny

HnD-Bot is a Discord bot for a tabletop campaign. Each player links a Google
spreadsheet character sheet to their account, and the bot reads that sheet
by fixed A1-style cell addresses. This project models the bot's
spreadsheet-address and record layer and proves properties of it. The layer
is written twice, in `main.py` and again in `ext/utils.py`. The model defines
each concept once. Where the two revisions differ, a `Revision` parameter or
a second function covers the difference.

The model covers:

- **Column letters** (`letter2num`): bijective base-26 numerals, with a round
  trip against repeated division by 26 (`columns.dfy`).
- **Cell lookup** (`POS_RE`, `GSheet._get_value`, `value`,
  `unformatted_value`, `value_range`) over a fetched grid, with Python's
  negative indexing and slice clamping written out (`cells.dfy`).
- **The stat block** (`Stats.load`, the coin-encumbrance flag, `ce_calc`) and
  the modifier lookup of `CharSheet.roll` through `acmap`, in both revisions
  (`stats.dfy`).
- **Character sheets** (`CharSheet.__init__`, the pronoun and verb choice,
  `CharSheet.load` with each revision's name and race casing, and the
  invalid-sheet error) (`characters.dfy`).
- **The monster directory** (`DMSheet.reload` as `dict(zip(...))`), the
  `monster_dex` lookup and the three autocomplete filters (`monsters.dfy`).
- **The user-data store** (`Data`): `__setitem__` writes the file on every
  fifth assignment; `force_save`, `new_sheet` and `del` are also modelled
  (`userdata.dfy`).
- **The branch choice of the `roll` command** (`commands.dfy`).
- Supporting modules: `results.dfy` holds `Option`, `Result` and the error
  kinds, named after the Python exceptions. `text.dfy` holds the ASCII
  versions of `lower`, `upper`, `title`, `strip`, `split`, `in` and `int()`.

The Google backend is outside the model. The grids a worksheet fetch returns
are inputs. The outcome of opening a sheet URL is an input too: the
workbook, a failure named by the load's `except` clause, or any other
failure. The file written by the store is modelled as the map it last
received. The dice total is an input.

`_get_value` guards its lookup with `IndexError("Cell out of bounds.")`
(main.py:75-76), so a cell outside the grid is meant to fail. The row
number 0 slips past that guard and wraps round to the last row (see
Findings). The model of `_get_value` follows the
code. The snapshot's `value` and `unformatted_value` use the corrected
lookup.

## Model

| member | source | states |
|---|---|---|
| Text.Split | main.py:147-150 | `split('/')` keeps empty pieces, so it gives at least one piece; no piece contains the separator; joining the pieces gives back the input |
| Text.SplitJoin | ext/utils.py:144-147 | splitting undoes joining, for at least one piece when no piece contains the separator |
| Text.Strip | main.py:205 | `strip()` returns the contiguous middle of the input with no whitespace at either end; everything after it is whitespace; text already free of edge whitespace is unchanged |
| Text.ParseInt | main.py:112-127 | `int(text)` succeeds exactly when the stripped text is digits with an optional sign, and otherwise fails with the ValueError for that text |
| Text.StripSurrounded | main.py:205 | `strip()` of a text with only whitespace around a core that neither starts nor ends with whitespace is that core |
| Text.ParseIntReads | main.py:112-127 | `int()` of digits with an optional `+` or `-` and any whitespace around them is the digits' decimal value, negated for `-` |
| Text.DecimalValueLeadingZero | main.py:112-117 | a leading zero does not change the number a digit string reads as |
| Text.ParseShowInt | main.py:112-117 | every number reads back from its decimal rendering |
| Text.TitleIgnoresCase | main.py:387 | two strings that agree up to case have the same title case |
| Text.TitleIdempotent | main.py:240 | title-casing twice is title-casing once |
| Text.LowerOfTitle | main.py:358 | lower-casing the title case of a string gives the lower case of the string |
| Text.LowerKeepsNonLetter | main.py:148-150 | lower-casing neither creates nor removes a non-letter such as `/` |
| Columns.PositionalSumIsBijective26 | main.py:39-43 | the loop's sum of letter values, weighted by powers of 26, equals the reference bijective base-26 reading |
| Columns.Letter2Num | main.py:34-46 | the letters are upper-cased and read as bijective base 26; the zero-based result is one less than the one-based result |
| Columns.ColumnRoundTrip | ext/utils.py:30-42 | repeated base-26 division recovers the column name from its number, and the name of any positive number reads back as that number |
| Columns.Letter2NumInjective | main.py:34-46 | every name is at least 1, or at least 0 when zero-based; distinct upper-case names never get the same number |
| Columns.Letter2NumExamples | main.py:34-37 | A is 0 zero-based and 1 one-based, C is 3, Z is 26, AA is 27; lower case reads like upper case |
| Cells.MatchA1 | main.py:19 | a match is a non-empty run of capitals and then a non-empty run of digits, and together they are a prefix of the address |
| Cells.MatchA1FailsIffNoPrefix | main.py:70-72 | the match fails exactly when the address has no letters-then-digits prefix |
| Cells.TrailingTextIgnored | main.py:19 | text after the digits is not looked at, unless it continues the digits |
| Cells.PyIndex | main.py:77 | Python indexing succeeds exactly for indices from minus the length up to the length minus one |
| Cells.GetValue | main.py:69-79 | as written, `_get_value` fails only with the format error, exactly when the match fails, or with the bounds error; a value it returns is the text of a cell of the grid (which cell: `Cells.GetValueInRange`, `Cells.RowZeroReadsLastRow`) |
| Cells.GetValueFormatError | main.py:69-72 | as written, the format error arises exactly when the match fails, and every other error is the bounds error |
| Cells.GetValueInRange | main.py:73-77 | as written, for a row number of at least 1, the lookup returns the cell in that row and column exactly when the cell exists, and gives the bounds error otherwise |
| Cells.RowZeroReadsLastRow | main.py:73-77 | as written, the row number 0 gives row -1, and that reads the bottom row's cell instead of failing |
| Cells.RowZeroExample | ext/utils.py:69-73 | as written, `A0` on the grid `a / b` returns `b` |
| Cells.GetValueChecked | main.py:69-79 | the corrected lookup fails only with the format error or the bounds error |
| Cells.GetValueCheckedIsIntended | ext/utils.py:64-75 | the corrected lookup: the format error exactly when the match fails; the bounds error for the row number 0; otherwise the same result as the as-written lookup |
| Cells.CellAddressParses | main.py:70-74 | the A1 name of a cell matches the address pattern, and its groups give back the cell's row and column |
| Cells.CellAddressReadsCell | main.py:69-79 | every cell of the grid is read through its own A1 name, by both lookups |
| Cells.CellAddressPastRow | main.py:75-76 | the A1 name of a cell beyond the end of its row gives the bounds error |
| Cells.Value | main.py:81-82 | `value` reads the formatted grid: it fails only with the format error (exactly when the match fails) or the bounds error, and returns the text of one of the grid's cells (which cell: `Cells.CellAddressReadsCell`) |
| Cells.UnformattedValue | main.py:84-85 | `unformatted_value` is the same lookup over the unformatted grid |
| Cells.ValueExamples | main.py:81-85 | `A1`, `B2` and `C1` on the grid `a b / c d` give `a`, `d` and the bounds error |
| Cells.A1ToRowCol | main.py:90-91 | a range end gives a row of at least 0 and a column of at least 1, both 1-based |
| Cells.A1ToRowColOf | main.py:90-91 | an address of letters then digits converts to the decimal value of the digits and the one-based number of the letters |
| Cells.ParseRange | main.py:89-91 | a range gives bounds whose rows are at least 0 and whose columns are at least 1 |
| Cells.ParseRangeOf | main.py:89-91 | any range `l1d1:l2d2` of two letters-then-digits ends parses, with the first end's row and column as the top-left corner and the second end's as the bottom-right |
| Cells.AddressHasNoColon | main.py:89 | an address of capitals and digits holds no `:`, so a range of two addresses splits into exactly those two |
| Cells.PySlice | main.py:94-95 | a Python slice never fails, and gives exactly the clamped stretch of the list |
| Cells.RangeWithinRectangle | ext/utils.py:83-92 | `value_range` returns at most the rectangle's cell count, and only cells both inside the grid and inside the rectangle |
| Cells.RangeRowMajor | main.py:93-96 | when the grid covers the rectangle, the result holds rows × columns cells, and the cell i rows below and j columns right of the top-left corner is element i × width + j: its cells, left to right and top to bottom |
| Cells.TwoByTwoRange | main.py:93-96 | the range of rows 1-2 and columns 1-2 of a two-by-two grid is its first row followed by its second |
| Cells.ColumnRange | main.py:94-95 | a one-column range over rows that reach that column returns that column of the clamped rows |
| Cells.ValueRange | main.py:87-96 | `value_range` succeeds exactly when the range parses, and otherwise fails with the range's own error (its contents: `Cells.ValueRangeRowMajor`, `Cells.ValueRangeWithinRectangle`) |
| Cells.ValueRangeRowMajor | main.py:87-96 | `value_range` on a range whose rectangle the grid covers succeeds with rows × columns cells, and the cell i rows below and j columns right of the top-left corner is element i × width + j |
| Cells.ValueRangeWithinRectangle | main.py:87-96 | `value_range` on a range that parses and starts at row 1 or below succeeds with at most the rectangle's cell count, each a cell inside both the grid and the rectangle |
| Cells.ValueRangeExample | main.py:87-96 | `A1:B2` on the grid `a b / c d` returns `a, b, c, d` |
| StatBlock.ReadInts | main.py:112-117 | reading several integer cells in order gives one number per cell, each the cell's own reading; when it fails, one of the cells gives that error |
| StatBlock.LoadWealth | main.py:119-120 | total yen and total wealth are the integer readings of AR6 and AR23 of the back tab's unformatted grid |
| StatBlock.CoinFlag | main.py:129-133 | the coin flag holds exactly when the cell is the four letters t, r, u, e, in any case |
| StatBlock.LoadEncumbrance | ext/utils.py:126-132 | the flag is the coin reading of B16 on the data tab; the encumbrance is the text of AE34 on the back tab |
| StatBlock.LoadStats | main.py:111-135 | a loaded stat block holds the scores of F9-F14 on the front tab, the wealth, the modifiers of F2-F7 on the data tab and the encumbrance; every failure is a cell or integer error |
| StatBlock.CeCalc | main.py:137-138 | `ce_calc` is the least whole number of thousands covering the total yen |
| StatBlock.CoinExamples | ext/utils.py:126-135 | the coin flag on sample cells and `ce_calc` at the thousand boundaries |
| StatBlock.ModifierAbility | main.py:140 | a modifier name resolves to an ability exactly when its lower case is that ability's full name |
| StatBlock.RollMain | main.py:215-221 | `roll` in main.py adds a number modifier to the dice total, adds the named ability's modifier for a full ability name in any case, and adds 0 for a name not in `acmap` |
| StatBlock.RollUtils | ext/utils.py:212-218 | `roll` in ext/utils.py returns the dice total with the number modifier, the named ability's modifier for a full ability name, or `False` exactly for a name not in `acmap` |
| StatBlock.RollRevisionsAgree | ext/utils.py:212-218 | the later `roll` returns the dice total and the modifier that the earlier one adds up (False counts as 0); a name yields False exactly when it is not in `acmap`, and a full ability name adds that ability's modifier |
| StatBlock.ModifierCaseInsensitive | main.py:215-220 | modifier names are looked up case-insensitively |
| StatBlock.ModifierExamples | main.py:140 | `Strength` and `WISDOM` resolve; `str` does not |
| Characters.ParseOverride | main.py:147-150 | an override is kept exactly when it is given and not empty; it is then at least one lower-case piece with no `/`, and the pieces joined by `/` are its lower case |
| Characters.NewCharSheet | main.py:143-150 | `CharSheet.__init__` keeps the URL and stores each override through `Characters.ParseOverride`; what the stored overrides are is stated by `Characters.OverrideRoundTrip` and `Characters.SingleVerbOverride` |
| Characters.OverrideRoundTrip | ext/utils.py:139-147 | lower-case pieces joined with `/` are stored as those same pieces |
| Characters.SingleVerbOverride | main.py:149-150 | a verb override without `/` is stored as a single verb |
| Characters.SelectVoice | main.py:190-201 | the chosen pronouns and verbs are never empty; fewer than two verbs arise only from a one-piece verb override |
| Characters.VoiceFollowsTable | main.py:190-201 | a given override wins; without one, the pronouns follow the table for male and female, and are "they" otherwise; the verbs are plural exactly for "they" |
| Characters.DefaultVerbsAgree | ext/utils.py:187-198 | without overrides the verbs are plural exactly when the pronouns are "they" |
| Characters.PronounOverrideKeepsSingular | main.py:191-192 | a pronoun override alone keeps the singular verbs |
| Characters.ReadTexts | main.py:179-183 | reading several text cells in order gives one text per cell, each the cell's own value; a failure is a cell error |
| Characters.ReadProfile | main.py:179-189 | the profile holds the values of B1, B3, H3, O3, T1, U3, AA3 and AB1 and the integers of AF3 and P1 on the front tab |
| Characters.CaseProfile | ext/utils.py:176-186 | size, hair, eyes and gender come out lower-case and equal to the read values up to case; the name and race get the revision's casing (in `main.py` the race is lower-case as well); age, height, weight and level are kept as read |
| Characters.LoadProfile | main.py:179-189 | loading the profile succeeds exactly when its cells read, and then gives the read profile with the revision's casing; failures are cell or integer errors |
| Characters.LoadBody | main.py:205-211 | the image is BC8 stripped of surrounding whitespace; the feet per move are AV12; the stat block is the loaded one |
| Characters.Describe | main.py:190-211 | after the profile: a result keeps the profile, takes the voice the overrides and gender select, and takes the image, feet per move and stat block the body reads give; it has pronouns and at least two verbs; the missing second verb is the error exactly when the selected voice has fewer than two verbs, which needs a one-piece verb override |
| Characters.LoadFromBook | main.py:179-211 | a loaded character holds the loaded profile and the voice selected from its gender and the overrides, with pronouns and at least two verbs; a profile failure is passed on unchanged; the missing second verb is an error only for a one-piece verb override; the image and feet per move are read from BC8 and AV12 and the stat block is the loaded one, all as `Characters.LoadBody` reads them |
| Characters.LoadCharacter | main.py:169-213 | the invalid-sheet error, naming the sheet's URL, arises exactly for the failures the `except` clause names; other backend failures pass through |
| Characters.CasingRevisionsAgree | ext/utils.py:176-186 | the later revision's casing of a profile is the earlier one's with the name and race title-cased |
| Characters.RevisionsAgreeOnProfile | ext/utils.py:176-186 | both revisions read the same cells and fail alike; where they load, the later one's name and race are the title case of the earlier one's, and all else is equal |
| Characters.SingleVerbNeverLoads | main.py:200-203 | a verb override without `/` links fine, but the sheet never loads once its profile reads |
| Monsters.ZipPrefix | main.py:241 | the dict of the first n pairs has exactly the keys among the first n names; each key maps to the value at its last occurrence |
| Monsters.ZipDict | ext/utils.py:239 | `dict(zip(...))` is cut to the shorter list; a repeated name keeps its last description |
| Monsters.Directory | main.py:240-241 | the name list holds, at each position, the title case of the name read there; the dict zips those names with the descriptions, so every key is a listed name |
| Monsters.Reload | ext/utils.py:232-239 | a reloaded directory's names are all title-cased, and its keys are all listed names |
| Monsters.DexRangeEnds | main.py:239 | both ends of a one-column range over rows 2 to 322 convert to that row and that column |
| Monsters.ParseDexRange | main.py:239 | a range that splits into those two ends covers rows 2 to 322 of the column |
| Monsters.ParseNamesRange | main.py:239 | the names range is column A, rows 2 to 322 |
| Monsters.ParseDescriptionsRange | main.py:241 | the descriptions range is column B, rows 2 to 322 |
| Monsters.ReloadReadsColumns | main.py:239-241 | `reload` is the directory of those two column ranges |
| Monsters.DexColumn | ext/utils.py:237-239 | a column range returns that column of rows 2 to 322, when each such row has a name and a description |
| Monsters.DirectoryPairsRows | main.py:239-241 | row i's title-cased name is listed at position i and maps to the description on the last row carrying it |
| Monsters.ReloadPairsRows | ext/utils.py:237-239 | when every row from 2 to 322 holds a name and a description, reloading succeeds; names follow the rows, and each name maps to the description on its last row |
| Monsters.Lookup | main.py:386-391 | `monster_dex` finds an entry exactly when the title-cased query is a key with a non-empty description, and then it is that description |
| Monsters.LookupIgnoresCase | main.py:387 | the lookup ignores the case of the query |
| Monsters.LookupFindsStoredName | main.py:387-391 | a query that title-cases to a stored name finds that name's description, unless it is empty |
| Monsters.Filter | main.py:397 | the filter keeps, in multiplicity, exactly the items that contain the needle; their order is stated by `Monsters.FilterKeepsOrder` and `Monsters.FilterOne` |
| Monsters.FilterKeepsOrder | main.py:397 | the comprehension keeps list order: filtering a concatenation filters each part in turn |
| Monsters.FilterOne | main.py:397 | a single item is kept exactly when it contains the needle |
| Monsters.Suggest | main.py:393-397 | an autocomplete returns the whole list when no value is sent; otherwise it returns exactly the items containing the title-cased value, each as often as in the list, in list order (`Monsters.SuggestKeepsOrder`) |
| Monsters.SuggestKeepsOrder | main.py:370-397 | an autocomplete offers its choices in list order: the suggestions for a concatenation are those of each part in turn, and one item is offered exactly when it contains the title-cased value |
| Monsters.SuggestMonsters | main.py:393-397 | `monster_autocomplete` offers the whole name list without a value, and otherwise exactly the names containing the title-cased value |
| Monsters.SuggestStats | main.py:370-374 | `stat_autocomplete` offers every rollable stat without a value, and otherwise exactly the stats containing the title-cased value |
| Monsters.SuggestModifiers | main.py:376-380 | `modifier_autocomplete` offers every base stat without a value, and otherwise exactly the stats containing the title-cased value |
| Monsters.SuggestedNameLooksItselfUp | main.py:382-397 | in a directory of title-cased names, a name is suggested for its own text, and `monster_dex` on any suggestion finds exactly the description stored under that suggestion (none when it is empty or missing) |
| Monsters.SuggestionLooksItselfUp | main.py:382-397 | every name of a loaded directory is suggested for its own text, and `monster_dex` on any suggestion finds exactly the description stored under it |
| Monsters.StatSuggestedByPrefix | main.py:370-380 | both stat lists offer each stat for any text that equals, up to case, a prefix of its name whose title case it is |
| UserData.Open | main.py:249-256 | the store opens holding the file's contents, with the counter at 0 and no writes yet |
| UserData.Set | main.py:258-268 | an assignment stores the value and advances the counter modulo 5; the file is written, and then holds the dict, exactly when the count reaches 5 |
| UserData.ForceSave | main.py:270-277 | a forced save writes the dict to the file and resets the counter |
| UserData.Delete | main.py:311-312 | `del` raises `KeyError` exactly when the key has no entry; otherwise it removes only that key, without counting an assignment or writing the file |
| UserData.Unlink | main.py:315-323 | `unlink` removes the id's sheet exactly when there is one, through a `del` that then cannot raise; without a sheet nothing changes |
| UserData.NewSheet | main.py:279-284 | `new_sheet` succeeds exactly when the id has no sheet; a refusal changes nothing; a success stores the new sheet and writes the file at once |
| UserData.SetAllCounts | ext/utils.py:253-263 | n assignments from counter c write the file (c + n) / 5 times and leave the counter at (c + n) mod 5; a final counter of 0 means the file holds the final dict |
| UserData.FiveWritesFlushOnce | main.py:258-268 | five assignments from a fresh counter write once, leaving the final dict in the file; four do not write |
| UserData.ForceSaveMidWindow | ext/utils.py:265-272 | forcing a save with assignments pending writes them at once |
| UserData.LinkThenDelete | main.py:300-312 | linking and then deleting never raises `KeyError` and restores the dict, but the file keeps the new sheet until the next write |
| UserData.LinkThenUnlink | main.py:300-323 | unlinking right after a link succeeds and gives back the dict as it was |
| UserData.UnlinkTwice | main.py:315-323 | a second unlink finds nothing and changes nothing |
| UserData.LinkTwiceRefused | ext/utils.py:274-279 | a second link for the same id is refused and changes nothing |
| Commands.RollReplyAsWritten | main.py:351-368 | the reply `roll` chooses, as written; its behaviour is stated by `Commands.PlainUnreachable` and `Commands.DefaultStatAsWritten` |
| Commands.RollReplyIntended | main.py:358-368 | the reply choice as evidently intended; `Commands.RollReplyIsIntended` states it |
| Commands.PlainUnreachable | main.py:358-362 | as written, no stat title-cases to `undefined`, so the bare roll reply is never chosen |
| Commands.DefaultStatAsWritten | main.py:351-365 | as written, the default stat `Undefined` without a modifier is reported as a roll for a stat named Undefined |
| Commands.RollReplyIsIntended | main.py:358-368 | the corrected choice gives the bare roll exactly for `undefined` in any case, and matches the as-written choice for every other stat |

## Left out

- The Google API calls are left out because they are network I/O: `authorize`, `open_by_url`, `worksheet`, `get_all_values`, `values_get`, `fill_gaps`. The fetched grids and the outcome of opening a URL are inputs.
- `a1_to_rowcol` belongs to the gspread library and is not part of this model. `Cells.A1ToRowCol` reads a range end with the same letters-then-digits split as `POS_RE`, both parts 1-based.
- The asynchronous `init()`, the `initialized` attribute and `reload_dm_sheet` are left out. They only sequence the fetches.
- YAML reading and writing is left out because it is file I/O. The file is modelled as the map last written.
- The lock's busy-wait is left out. It matters only under concurrency, which the model does not have.
- `d20.roll` is left out because it is randomness. `RollMain` and `RollUtils` take the dice total as an input.
- `spm` (feet per move divided by 5) is left out because it is floating point.
- `StatBlock.CeCalc` is the exact ceiling. The source divides in floating point, which rounds differently for totals beyond 2^53.
- Casing, whitespace and digits are ASCII only. Unicode casing, Unicode digits in `\d` and `int()`, and underscores inside `int()` literals are left out.
- `print`, `__str__` and `__repr__` are left out because they are output only.
- The wording of the description sentence is left out. Its `IndexError` when the verbs have fewer than two parts is modelled as `TooFewVerbs`.
- Cells are text. Unformatted cells that the backend returns as numbers are modelled by their decimal text.
- StatBlock.LoadWealth: AR6 and AR23 come from the unformatted grid, where the backend can return a JSON number. Python's `int()` truncates a fractional number (1234.5 gives 1234) and reads a boolean as 0 or 1. The model reads the cell's decimal text instead, so `1234.5` gives `NotAnInteger` where the source would load 1234.
- StatBlock.LoadStats: inherits that difference for total yen and total wealth. It does not promise the source's result for fractional or boolean unformatted cells.
- Command handlers other than the three autocompletes, `monster_dex` and the branch choice of `roll` are left out, because they only send replies. `link` and `unlink` appear through `UserData.NewSheet`, `UserData.Delete` and `UserData.Unlink`.
- `minihatas/web.py`, `minihatas/misc.py` and `web.py` are not part of this model.
- Cells.GetValue: the guard's `>` lets the boundary row and column through. Python's own indexing then raises the same `IndexError`, so the model merges the two into one bounds error. That off-by-one cannot be observed.
- Characters.LoadCharacter: a `KeyError` raised while reading cells cannot arise in the model, because every read returns a `Result`. Only the backend's failures are converted to the invalid-sheet error.
- Cells.A1ToRowCol accepts the row number 0, and `Cells.ValueRange` then starts its row slice at -1, which wraps round to the last row, as in the main.py:73-77 finding. The ranges the bot reads start at row 2, so no call reaches it. Whether gspread's `a1_to_rowcol` accepts row 0 is not part of this model. `Cells.ValueRangeWithinRectangle` is stated only for ranges whose first row is 1 or more, for this reason.
- Cells.Value and Cells.UnformattedValue use the corrected lookup `Cells.GetValueChecked`, not the as-written one. The two differ only for the row number 0.

## Findings

| source | as written | input that shows it | evidently intended | confidence | as-written member | corrected member |
|---|---|---|---|---|---|---|
| main.py:73-77 (also ext/utils.py:69-73) | `row = int(digits) - 1`. The guard checks only `row > len(source)`, so row -1 reaches `source[-1]`. | `A0` on the grid `a / b` returns `b`, the bottom row's cell. | A row number below 1 is out of bounds, like any other cell outside the grid. | not executed | Cells.RowZeroReadsLastRow | Cells.GetValueCheckedIsIntended |
| main.py:358-362 | The stat is title-cased, then compared with the lower-case `'undefined'`. | `roll` with the default stat `Undefined` and no modifier replies "for Undefined" instead of giving a bare roll. | The default stat gives the bare roll: compare with `'Undefined'`. | not executed | Commands.PlainUnreachable | Commands.RollReplyIsIntended |
