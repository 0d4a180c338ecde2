# COD metadata pipeline — a Dafny model

This project models the normalisation-and-reshaping pipeline of a service that republishes
country/administrative-level metadata (common operational datasets, "COD"). The metadata is
curated as spreadsheet rows of the shape (Location, Administrative level, Metadata type,
Metadata). The pipeline:

- normalises the metadata type into a canonical snake_case key (`process_key`);
- cleans the text of the cell (`process_string`);
- types the cell as a boolean, an integer, an ISO date, null or text, depending on its key
  (`process_value`);
- builds the sorted long form (`process_long`);
- re-projects the long form into three wide sheets (`process_wide`);
- re-projects the long form into a nested location → level → key dictionary (`process_dict`).

The lookup tables that drive it (`app/config.py`) are constants of module `Config`, each
with lemmas about the tables.

Modules, in dependency order:

- `Wrappers`: `Option` and `Result`.
- `Seqs`: order-preserving `Filter` and `Map`.
- `Loops`: `Collect`, the shape of a loop that skips, emits or raises per element.
- `Assoc`: insertion-ordered dictionaries as association lists.
- `Text`: ASCII `lower`, one-character `str.replace`, substring search, digits and decimals.
- `Config`: the constant tables.
- `Keys`: `process_key`.
- `Sanitizer`: `process_string`.
- `Dates`: `strptime(text, "%B %Y")` and `date.isoformat()`.
- `Records`: the record, its typed value, the pipeline's errors and the sort order.
- `Values`: `process_value`.
- `Sorting`: the stable sort.
- `Long`: `process_long`.
- `Wide`: `process_wide`.
- `Nested`: `process_dict`.

The model follows the code's form:

- The loops of `process_string`, `process_long` and `process_wide` are methods with loops.
- `process_long`'s `sorted` is a stable insertion sort.
- `process_dict`'s `meta_dict` is the field of a `Builder` object that its `Add` method updates.
- Each method is proved against a function (`Sanitize`, `Emitted`, `Split`, `Fold`), and the
  lemmas are about those functions.

Two behaviours of the code worth noting:

- The exact `"true"`/`"false"` rule comes first for every key. So under `cod_em_available`
  and `cod_ps_available`, the text `"false"` gives `false`, not `true`
  (`Values.AvailableFalseExample`).
- A left single quotation mark (U+2018) is not in the apostrophe table. It is kept
  unchanged, not turned into `'` (`Sanitizer.LeftSingleQuoteKept`).

## Model

| member | source | states |
|---|---|---|
| Config.CharTablesDecode | app/config.py:41-54 | each `U+XXXX` code of the three tables decodes (`chr(int(code[2:], 16))`) to the corresponding character constant |
| Config.RenameTargetsAreFixed | app/config.py:25-38 | no value of `rename_columns` is also one of its keys |
| Config.TablesKeyShaped | app/config.py:17-38 | every rename source and target and every ignored column is lowercase with no space or hyphen |
| Config.KeyTablesDisjoint | app/config.py:17-39 | ignored columns are neither rename targets nor integer columns, and no integer column starts with `date_` |
| Config.CharTablesDisjoint | app/config.py:41-54 | the apostrophe, quote and invisible tables are pairwise disjoint and contain none of space, `'` or `"` |
| Config.SpecialKeysAreTargets | app/config.py:25-38 | the five keys with rules of their own in `process_value` are all rename targets |
| Keys.Normalise | app/utils.py:28 | same length; at each position a space or a hyphen becomes `_` and every other character is lower-cased; so the result has no capital, space or hyphen |
| Keys.ReplaceByChar | app/utils.py:28 | `str.replace` of one character by one character changes exactly the positions that held it |
| Keys.ProcessKey | app/utils.py:26-29 | a normalised legacy name becomes its table target, and any other normalised text is returned as it is; the result is key-shaped and never a rename source |
| Keys.NormaliseCanonical | app/utils.py:28 | an already key-shaped string normalises to itself |
| Keys.ProcessKeyIdempotent | app/utils.py:26-29 | `process_key(process_key(k)) == process_key(k)` |
| Keys.ProcessKeyKeepsCanonical | app/utils.py:26-29 | a key-shaped key that is not a legacy name passes through unchanged |
| Keys.ProcessKeyExample | app/utils.py:26-29 | `"COD-EM"` becomes `"cod_em_available"` |
| Sanitizer.ProcessString | app/utils.py:32-41 | the three replacement passes over the decoded tables, the space collapse and the strip compute `Sanitize(value)` |
| Sanitizer.SanitizeIsClean | app/utils.py:32-41 | the output holds no tabled character, no two adjacent spaces and no whitespace at either end |
| Sanitizer.TranslateAvoidsTables | app/utils.py:34-39 | after the three passes no character of any table is left |
| Sanitizer.TranslateChar | app/utils.py:34-39 | an apostrophe-like character becomes `'`, a curly double quote becomes `"`, an invisible character is deleted, and any other character is kept |
| Sanitizer.SanitizeShorter | app/utils.py:32-41 | the output is never longer than the input |
| Sanitizer.CleanIsFixed | app/utils.py:32-41 | a clean string is returned unchanged |
| Sanitizer.SanitizeIdempotent | app/utils.py:32-41 | sanitising twice is sanitising once |
| Sanitizer.LeftSingleQuoteKept | app/config.py:52 | U+2018 alone is kept as it is |
| Sanitizer.Strip | app/utils.py:41 | the result is the slice `s[i..j]` of the input where everything before `i` and from `j` on is whitespace, and the result has no whitespace at either end |
| Sanitizer.Collapse | app/utils.py:40 | the length never grows and the first character is kept |
| Sanitizer.CollapseDropsRepeat | app/utils.py:40 | a space right after a space is dropped where it stands; with `CollapseIdentity` this determines the collapse: each run of spaces becomes one space in the same place |
| Sanitizer.CollapseKeepsText | app/utils.py:40 | only spaces are removed: the other characters stay in order, and the result has a space exactly when the input has one |
| Sanitizer.CollapseNoDoubleSpace | app/utils.py:40 | after the collapse no two spaces are adjacent |
| Dates.ParseYear | app/utils.py:59 | a year is one or more whitespace characters followed by exactly four ASCII digits with value 1..9999 (both directions) |
| Dates.FindMonth | app/utils.py:59 | finds the month whose English name (any case) starts the text, or shows that no month from `m` on does |
| Dates.ParseMonthYear | app/utils.py:59 | a parse gives a month 1..12 named at the start of the text, followed by a valid year |
| Dates.ParseUtcDate | app/utils.py:59 | `astimezone(UTC)` succeeds exactly on the parses other than January of year 1, and keeps their month and year |
| Dates.YearOneRejected | app/utils.py:59 | `"January 0001"` parses, but its conversion to UTC fails |
| Dates.MonthNamesPrefixFree | app/utils.py:59 | at most one month name can start a text, so the parse is unambiguous |
| Dates.ParseMonthYearRoundTrip | app/utils.py:59 | `"<month name in any case> <4-digit year>"` parses back to that month and year |
| Dates.IsoDateFields | app/utils.py:59 | the ISO date is `YYYY-MM-01` and reads back the year and month it was built from |
| Dates.IsoDate | app/utils.py:59 | `.date().isoformat()` of the first of the month has ten characters (its fields are read back by `Dates.IsoDateFields`) |
| Dates.ParseExample | app/utils.py:59 | `"January 2020"` parses to (1, 2020) and gives `"2020-01-01"` |
| Dates.ParseRejects | app/utils.py:59 | `"garbage"` does not parse |
| Dates.UnnamedRejected | app/utils.py:59 | a text that starts with no month name does not parse |
| Dates.NoMonthNamed | app/utils.py:59 | a text whose first three letters abbreviate no month starts with no month name |
| Values.TypeValue | app/utils.py:48-68 | in the model an error only comes from a `date_` key (see "## Left out" for `int()`); an integer only comes from an integer column and is non-negative; a string result is the input or a first-of-month date |
| Values.ProcessValue | app/utils.py:44-68 | sanitises first; in the model an error only comes from a `date_` key |
| Values.BooleanText | app/utils.py:48-49 | `"true"`/`"false"` in any case become the matching boolean for every key |
| Values.NotKnownText | app/utils.py:50-51 | otherwise any text containing `"currently not known"` (any case) becomes null for every key |
| Values.IntegerColumn | app/utils.py:52-54 | an integer column gives the number spelled by all its digits in order, or null when there is none |
| Text.Digits | app/utils.py:53 | `filter(str.isdigit, …)` keeps exactly the digit characters of the text, and nothing else |
| Text.DecimalValue | app/utils.py:54 | `int(digits)` is zero exactly when every digit is `0` |
| Values.DateColumn | app/utils.py:55-59 | a `date_` key: `"unknown"` gives null, a month and year that convert to UTC give the first of that month, and any other text is an error |
| Values.FlagColumns | app/utils.py:60-65 | the three flag keys are true exactly when their keyword (`improvement`, `enhanced`, `operational`) occurs in any case |
| Values.AvailableColumns | app/utils.py:66-67 | an availability key is false only for the empty string |
| Values.OtherColumns | app/utils.py:68 | every other key keeps the sanitised string |
| Values.ProcessValueSanitised | app/utils.py:46-47 | typing an already sanitised cell gives the same result |
| Values.DateExample | app/utils.py:55-59 | `"January 2020"` under a date key gives `"2020-01-01"` |
| Values.UnknownDateExample | app/utils.py:56-57 | `"Unknown"` under a date key gives null |
| Values.BadDateExample | app/utils.py:59 | a date key with text that is no month and year raises |
| Values.YearOneDateExample | app/utils.py:59 | `"January 0001"` under a date key raises |
| Values.IntegerExample | app/utils.py:52-54 | `"Level 3 boundary"` in an integer column gives 3 |
| Values.AvailableFalseExample | app/utils.py:48-49 | `"false"` under `cod_em_available` gives false, because the boolean rule comes first |
| Values.AvailableTextExample | app/utils.py:66-67 | `"No"` under `cod_em_available` gives true |
| Records.KeyLessTransitive | app/utils.py:96 | the `(iso3, lvl, key)` tuple order is transitive |
| Records.KeyLessTotal | app/utils.py:96 | any two distinct sort keys are ordered one way or the other |
| Records.KeyLeqAntisymmetric | app/utils.py:96 | keys that are each at most the other are equal |
| Sorting.SortRecords | app/utils.py:96 | the result is sorted, is a permutation of the input, and keeps records with equal keys in input order |
| Sorting.FilterSorted | app/utils.py:113-116 | keeping only some records of a sorted sequence leaves it sorted |
| Sorting.StableSortUnique | app/utils.py:96 | any two stable sorts of the same input are equal, so the sort result is fully determined |
| Long.ProcessRow | app/utils.py:82-95 | an emitted record comes from a complete row, keeps its iso3 as given and its level, and has a canonical, non-ignored key |
| Long.ProcessLong | app/utils.py:71-96 | raises exactly when the row-by-row loop does, with the same error; otherwise returns a stable sort of the records the loop emits |
| Long.Emitted | app/utils.py:80-95 | the loop succeeds exactly when no row raises, and then emits at most one record per row |
| Loops.ErrSticks | app/utils.py:81-95 | once an iteration raises, the run ends with that error |
| Loops.CollectOk | app/utils.py:81-95 | the loop succeeds exactly when no row raises |
| Loops.FirstError | app/utils.py:81-95 | a failed run reports the error of the first row that raises |
| Loops.Outputs | app/utils.py:81-95 | a successful run holds one output per emitting row, in row order |
| Loops.OutputSound | app/utils.py:81-95 | every output comes from some row |
| Loops.OutputComplete | app/utils.py:81-95 | every output some row produces is kept |
| Loops.InOrder | app/utils.py:81-95 | outputs appear in the order of the rows that produced them |
| Long.EmittedExactly | app/utils.py:82-95 | one record per row with all cells present, a parsed level and a non-ignored key, in row order, carrying that row's iso3, level, processed key and processed value |
| Long.SortedMembership | app/utils.py:80-96 | the sorted result holds exactly the records some row produces |
| Long.EmittedKeysCanonical | app/utils.py:91-95 | every key in the long form is key-shaped, not a legacy name and not ignored |
| Long.RowSkipped | app/utils.py:82-93 | a row is skipped exactly when a cell is missing or its processed key is ignored |
| Long.RowBadLevel | app/utils.py:90 | an unreadable level raises, whatever the key |
| Wide.ProcessWide | app/utils.py:99-119 | the three sheets are the notes, level and dataset records of the input, each in input order |
| Wide.Split | app/utils.py:108-119 | the level sheet holds exactly the input records that are neither notes nor at level -1, and no sheet is longer than the input |
| Wide.FromNote | app/utils.py:111-112 | a notes row read back as a record is a note, and projects back to the same row |
| Wide.FromDataset | app/utils.py:117-118 | a dataset row read back as a record has level -1 and projects back to the same row |
| Wide.KindsPartition | app/utils.py:111-118 | every record belongs to exactly one sheet |
| Wide.SplitLossless | app/utils.py:108-119 | the sheet lengths sum to the input length, and the sheets read back as records are a permutation of the input |
| Wide.LevelSheetSorted | app/utils.py:113-116 | a sorted long form gives a sorted level sheet |
| Assoc.Find | app/utils.py:137-139 | `d.get(k)` is absent exactly when `k` is not a key, and otherwise returns a bound value |
| Assoc.FindOr | app/utils.py:137-138 | `d.get(k, default)` is the bound value when `k` is a key, and the default otherwise |
| Assoc.Put | app/utils.py:137-145 | `d[k] = v` keeps the key order for a present key and appends a new one |
| Assoc.FindPut | app/utils.py:137-145 | after `d[k] = v`, `k` maps to `v` and every other key is unchanged |
| Assoc.PutDistinct | app/utils.py:137-145 | assignment never duplicates a key |
| Assoc.Dedup | app/utils.py:137-138 | each key once, with the same members as the input |
| Assoc.DedupFirstOccurrence | app/utils.py:137-138 | the kept keys are in the order of their first occurrence in the input |
| Nested.Builder.constructor | app/utils.py:132 | the builder starts empty |
| Nested.Builder.Add | app/utils.py:134-145 | one record is folded in as `Insert` says, and every dictionary keeps distinct keys |
| Nested.ProcessDict | app/utils.py:122-148 | without a filter, the whole tree `Fold(rs)`; with one, that tree's entry for the lowercased filter, or an empty dictionary |
| Nested.LookupInsert | app/utils.py:134-145 | one insertion applies the duplicate rule at the record's own path and changes no other path |
| Nested.MergeSlotOf | app/utils.py:139-145 | absent becomes one value, one value becomes a two-element list, and a list grows by one |
| Nested.FoldLookup | app/utils.py:132-145 | a path no record reaches is absent, a path one record reaches holds its value, and a path n ≥ 2 records reach holds their n values in order |
| Nested.FoldValid | app/utils.py:132-145 | every dictionary of the tree has distinct keys |
| Nested.FoldLocations | app/utils.py:135-137 | the locations are `Dedup` of the records' locations: each once, and with `Assoc.DedupFirstOccurrence` in the order of their first record |
| Nested.FoldLevels | app/utils.py:136-138 | within a location, the level labels are `Dedup` of its records' labels: each once, in the order of their first record |
| Nested.FoldKeys | app/utils.py:139-145 | within a location and level, the keys are `Dedup` of its records' keys: each once, in the order of their first record |
| Nested.DuplicateBecomesList | app/utils.py:139-143 | two records at one path give the list of both values, the first one first |
| Nested.LevelLabelInjective | app/utils.py:136 | distinct levels get distinct labels, so records at different levels never merge |
| Nested.LevelLabel | app/utils.py:136 | the label is `"all"` exactly for level -1, and otherwise `adm` followed by `str(lvl)` |
| Nested.FilteredLookup | app/utils.py:146-147 | the filtered export holds, at each path, exactly the slot the filtered location has in the whole tree |
| Text.IntToStringInjective | app/utils.py:136 | distinct integers have distinct decimal spellings |
| Text.DecimalRoundTrip | app/utils.py:54 | `int(str(n)) == n` for every natural number |

## Left out

- `get_meta` (app/utils.py:11-23) is not part of this model. It fetches the CSV over the network, with pandas `na_values` and a DataFrame filter.
- app/routers/, app/__init__.py and the environment-derived settings (app/config.py:9-13) are not part of this model. They are web plumbing, the encoders and the URL construction.
- NaN detection (app/utils.py:82-87): a missing cell is `None` in an `Option` field, because NaN identity semantics are a pandas matter.
- `int(row[LVL])` (app/utils.py:90): the level cell arrives already parsed as `Level(n)` or `Unparsable`, because parsing spreadsheet numbers (floats such as `1.0`) is a pandas and float matter. `Unparsable` raises, which aborts the run.
- Non-string cell values (the `isinstance` branch at app/utils.py:46): every value is a string, since line 48 calls `.lower()` on it.
- The column-header constants `ISO3`, `LVL`, `KEY` and `VALUE` (app/config.py:4-7) only select a row's cells. In the model a row arrives as a `Long.RawRow` with four named fields.
- Unicode: `lower()`, `isdigit()`, case-insensitive month matching and the `\d` that `strptime` uses for `%Y` cover ASCII only. So a year written in other decimal digits, such as fullwidth `２０２０`, parses in Python but is a `MalformedDate` in the model. Whitespace for `strip()` and for `\s` is Python's `str.isspace` set, listed explicitly.
- Dates.ParseMonthYear: models the `%B %Y` parse of a UTC host with English month names. It does not model the host time zone shift of `astimezone` or locale-dependent month names. On a UTC host the only conversion that fails is that of 0001-01-01, which `Dates.ParseUtcDate` models.
- Values.IntegerColumn: `int()` of more than 4300 digits raises `ValueError` under Python's integer string conversion limit. The model reads any number of digits. `str.isdigit` also accepts characters such as superscript `²`, for which `int()` raises `ValueError`. The model keeps ASCII digits only and drops such a character, so the cell gives null or the value of its other digits instead of an error. This exception path of `process_value` is therefore missing, and "an error only comes from a `date_` key" holds for the model only.
- Sanitizer.Collapse and Keys.Normalise: model the regex `sub(r" +", " ", …)` and `str.replace` as recursive functions, not as the regular-expression engine.
- Nested.Builder.Add: the nested dictionaries are values, so each updated inner dictionary is written back into its parent. Python's in-place aliasing of the inner dicts is not modelled, but the resulting contents and key order are the same.
- Nested.ProcessDict: the filter is a string whose empty value means "no filter". A `None` argument is treated like the empty string.
- Sorting.SortRecords: Python's `sorted` is Timsort. The model uses an insertion sort; `StableSortUnique` shows that every stable sort gives the same result.
