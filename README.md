# xl_geocoder in Dafny

A model of the core of xl_geocoder. The tool reads addresses from an Excel
worksheet and sends them to an OpenStreetMap geocoder. Each row ends either
as a point of a shapefile or as a row of a "no results" workbook. The model
covers five parts:

- **Street-name normalisers.** The newer `parse_street_name` of
  `xl_geocoder.py` (module `StreetName`) and the older one of
  `geocoder_pg.py` (module `StreetNamePg`). The newer one runs four steps in
  order:
  - a case-sensitive substring filter that gives `False`;
  - case-insensitive abbreviation expansion;
  - removal of every word that ends in a dot;
  - "building number first", which moves a trailing house number to the
    front.
- **Main loop of `xl_geocoder.py`** (module `Geocoding`):
  - sanitising cells;
  - assembling one address from the populated columns;
  - the strict leading-number gate;
  - the progressive search, which drops the part before the first comma
    while the geocoder answers "No results";
  - the split of each row into a point record or a failure row.

  The geocoding service is a parameter (a function from query to answer).
  The two output sinks are the fields of the class `GeocodeRun`.
- **Main loop of the older `geocoder_pg.py`** (module `GeocodingPg`). It
  has five fixed columns, a fixed list of illegal substrings, a query built
  as "street, postcode locality, Polska", and the blanking of an unchanged
  street name. Its sinks are in the class `PgRun`.
- **Field-schema inference of `tools/xl.py`** (module `FieldSchema`):
  - the default type table `[letter, length, decimals]`;
  - `'auto'` sizing;
  - dictionary overrides and their validation;
  - the choice of the sample row;
  - the per-column loop that builds `[name, letter, length, decimals]`
    entries.
- **`tools/shp_template_from_xls.py`** (module `ShpTemplate`). It repeats
  those four functions line for line. Its members delegate to the single
  definition in `FieldSchema`.

Shared pieces:

- `Text` holds the Python string operations the scripts use: `strip`,
  `replace`, `find`, `lower`, `str(int)`, and `\w`/`\d` as character
  classes.
- `Cells` holds a cell value with Python's truthiness and `str()`.
- `Wrappers` holds `Option` and `Result`. A raised exception is a
  `Failure`, or a `None` where only one error is possible.
- `Examples` proves concrete input/output pairs from `test_xl_geocoder.py`.
  It also proves two inputs on which the older pattern leaves a name
  unchanged.

Every method with a loop is proved against a function of its inputs:

- `ParseStreetName`, `ParseStreetNamePg`, `ProgressiveSearch`,
  `DetermineFieldProperties`, `ValidateCustomProperties` and
  `GetFieldsPropertiesFromWorksheet` each return that function's value.
- The `ProcessRow` methods append exactly the record that `RowSpec` or
  `PgRowSpec` gives for the row.
- The `Run` methods grow the sinks by exactly the records those functions
  give for the rows processed, in row order (`PointsOf` and `FailuresOf`,
  `PgPointsOf` and `PgFailuresOf`).

Lemmas state the properties of those functions.

Behaviour kept as the code has it:

- `geocoder_pg.py` writes `i+1` into the row-number column. That is the
  1-based position among the rows read, not the worksheet row. It is
  modelled as written (`PgFailure.position`).
- `_validate_custom_properties` builds a `TypeError` for an unsupported
  key but never raises it. Such keys pass (`FieldSchema.UnsupportedKeysPass`).
- Number-first is not idempotent when the rest of the name ends in another
  number token: 'grudnia 1970 43' becomes '43, grudnia 1970', and a second
  pass gives '1970, 43, grudnia' (`Examples.GrudniaTwice`).

## Model

| member | source | states |
|---|---|---|
| StreetName.ParseStreetName | xl_geocoder.py:50-83 | the loops compute `Normalize`: filter, then each expansion in mapping order, removal then strip, number-first, final strip |
| StreetName.FilterDecides | xl_geocoder.py:66-69 | the result is `False` exactly when some filter entry occurs, case-sensitively, in the name, whatever the other options |
| StreetName.EmptyFilterIgnored | xl_geocoder.py:66-69 | a falsy filter never rejects |
| StreetName.NormalizeStripped | xl_geocoder.py:83 | an accepted result is always stripped at both ends |
| StreetName.NoOptionsStrips | xl_geocoder.py:66-83 | with every option off the result is the name stripped |
| StreetName.ReplaceIgnoringCase | xl_geocoder.py:72 | `re.sub(key, value, flags=re.IGNORECASE)` with a literal key: a value no longer than the key never lengthens the name, and one no shorter never shortens it |
| StreetName.ReplaceIgnoringCaseLeftmost | xl_geocoder.py:70-72 | at the leftmost case-insensitive occurrence of the key, the text before it is kept, the occurrence becomes the value, and the replacement goes on after the occurrence |
| StreetName.ReplaceIgnoringCaseCopies | xl_geocoder.py:72 | a prefix in which no occurrence of the key starts is copied unchanged |
| StreetName.ReplaceIgnoringCaseHitAt | xl_geocoder.py:72 | an occurrence becomes the value and the replacement resumes right after it, without overlapping |
| StreetName.ReplaceIgnoringCaseMissAt | xl_geocoder.py:72 | a position where no occurrence starts keeps its character |
| StreetName.ReplaceIgnoringCaseSkips | xl_geocoder.py:72 | a prefix holding no character equal, ignoring case, to the key's first is copied unchanged |
| StreetName.ReplaceIgnoringCaseAbsent | xl_geocoder.py:70-72 | a key that occurs in no case leaves the name unchanged |
| StreetName.RemoveAbbrevsLeavesNoWordDot | xl_geocoder.py:63 | after `re.sub(r'\w+\.', '')` no word character is directly followed by a dot |
| StreetName.RemoveAbbrevsNoDot | xl_geocoder.py:73-74 | removal leaves a name without dots untouched |
| StreetName.RemovalLeavesNoAbbreviation | xl_geocoder.py:73-74 | with removal on, number-first off and no filter hit, the accepted result holds no abbreviation |
| StreetName.NumberCoreShape | xl_geocoder.py:64 | the number part begins and ends with a digit and holds no space |
| StreetName.TokenMove | xl_geocoder.py:64 | a matched token starts with a digit; groups 1-4 are the token itself, or the token without its trailing or next-to-last spacer |
| StreetName.TokenSpaces | xl_geocoder.py:64 | a space in a token can only be its spacer, last or before a final letter |
| StreetName.SearchFrom | xl_geocoder.py:77 | `re.search` gives the leftmost start after a space where the anchored pattern matches, and no earlier start matches |
| StreetName.MatchUnique | xl_geocoder.py:64 | the pattern matches at no more than one start in a name |
| StreetName.NoTokenUnchanged | xl_geocoder.py:75-82 | without a match number-first changes nothing, because the AttributeError is swallowed |
| StreetName.TokenMovedToFront | xl_geocoder.py:76-80 | with a match, the result is groups 1-4, then ", ", then the name with every occurrence of the token deleted and stripped |
| StreetName.NormalizedStartsWithNumber | xl_geocoder.py:75-83 | when a token is found, the accepted name starts with a digit |
| StreetNamePg.ParseStreetNamePg | geocoder_pg.py:62-86 | the filter loop computes `NormalizePg`: filter, removal then strip, verbatim number-first, final strip |
| StreetNamePg.FilterDecidesPg | geocoder_pg.py:74-77 | rejected exactly when a filter entry occurs in the name |
| StreetNamePg.RemovalLeavesNoAbbreviationPg | geocoder_pg.py:78-79 | removal leaves no word character followed by a dot |
| StreetNamePg.TokenPgHasNoSpace | geocoder_pg.py:72 | an older-pattern token starts with a digit and contains no space |
| StreetNamePg.SearchFromPg | geocoder_pg.py:82 | leftmost start of the older pattern after a space; nothing matches before it |
| StreetNamePg.MatchUniquePg | geocoder_pg.py:72 | the older pattern matches at no more than one start |
| StreetNamePg.TokenMovedVerbatim | geocoder_pg.py:80-86 | the whole match goes to the front unchanged, followed by ", " and the name with the match deleted; the result starts with a digit |
| StreetNamePg.NoTokenUnchangedPg | geocoder_pg.py:80-85 | without a match the older reordering changes nothing |
| StreetNamePg.NewerPatternExtendsOlder | xl_geocoder.py:64 | every token the older pattern accepts, the newer one accepts too and moves unchanged |
| Geocoding.FakeGC | xl_geocoder.py:26-34 | a stand-in answer has the given ok and status, code and timeout -999, and an empty OSM id |
| Geocoding.SanitizeValue | xl_geocoder.py:37-47 | a truthy value becomes its `str()` stripped; a falsy one becomes '' (or 'NO DATA' with `replace_none`); the result is stripped |
| Geocoding.ReadFields | xl_geocoder.py:157-163 | the read fails (IndexError) exactly when a configured column is beyond the row; otherwise each of the six fields is `sanitize_value` of the cell its role names, and all six are stripped |
| Geocoding.AssembleAddress | xl_geocoder.py:166-187 | there is no address exactly when no branch applies; the row raises exactly when the parsed name is rejected; each branch's address is written out, including the case-insensitive primary/county comparison |
| Geocoding.DropFirstPart | xl_geocoder.py:203-205 | the shortened address is strictly shorter, so the loop ends |
| Geocoding.DropFirstPartSuffix | xl_geocoder.py:203-205 | the shortened address is a suffix of the address |
| Geocoding.ProgressiveQueries | xl_geocoder.py:200-208 | the first query is the assembled address |
| Geocoding.ProgressiveSearch | xl_geocoder.py:198-208 | the loop issues exactly the queries of `ProgressiveQueries`; the final address is the last query and the answer is the geocoder's answer for it |
| Geocoding.Geocode | xl_geocoder.py:190-210 | the strict or progressive step computes `GeocodeSpec` |
| Geocoding.DropFirstPartCount | xl_geocoder.py:202-205 | dropping the first part removes exactly one comma |
| Geocoding.QueriesStep | xl_geocoder.py:202-208 | after a retry the search goes on with the address whose first part is dropped |
| Geocoding.ProgressiveQueriesCount | xl_geocoder.py:202-208 | at most one query more than the address has commas |
| Geocoding.ProgressiveQueriesSuffixes | xl_geocoder.py:202-205 | every query is a suffix of the first address |
| Geocoding.ProgressiveQueriesSteps | xl_geocoder.py:202-208 | each query is the previous one with its first part dropped, issued only after a "No results" answer with a comma left |
| Geocoding.ProgressiveQueriesStop | xl_geocoder.py:202 | the search stops exactly when the answer is not "No results" or no comma is left |
| Geocoding.StrictQueriesOnce | xl_geocoder.py:190-196 | strict mode raises exactly on a missing address; it queries at most once, and exactly when the address starts with a digit; otherwise the answer is the incorrect-address failure |
| Geocoding.NoAddressNoQuery | xl_geocoder.py:198-210 | progressive mode sends no query for a missing or empty address and answers with the incorrect-address failure |
| Geocoding.GeocodeRun.constructor | xl_geocoder.py:134-136 | both sinks start empty |
| Geocoding.GeocodeRun.Record | xl_geocoder.py:213-220 | an ok answer appends one point record (row, final address, OSM id); any other appends one failure row (row, address, status, code, timeout); the other sink is unchanged |
| Geocoding.GeocodeRun.ProcessRow | xl_geocoder.py:157-220 | one loop pass appends exactly the record `RowSpec` gives, or changes nothing and reports the raised error |
| Geocoding.PointPart | xl_geocoder.py:213-216 | a row adds at most one point record, and one exactly when it went through with an ok answer |
| Geocoding.FailurePart | xl_geocoder.py:217-220 | a row adds at most one failure row, and one exactly when it went through with an answer that is not ok |
| Geocoding.PartsOfOutcome | xl_geocoder.py:213-220 | a raised row adds nothing; a point adds itself to the points only; a failure row adds itself to the failures only |
| Geocoding.RecordsStep | xl_geocoder.py:153-220 | one more row appends its own point or failure part, in row order, to what the earlier rows added |
| Geocoding.OneRecordPerRow | xl_geocoder.py:153-220 | rows that all went through add exactly one record each across the two sinks |
| Geocoding.GeocodeRun.Run | xl_geocoder.py:153-227 | every row before the stop went through, and the sinks grew by exactly `PointsOf` and `FailuresOf` of those rows, in row order, one record per row; the run covers all rows unless a row raises, and then it stops at that row with its error |
| Geocoding.NoAddressFails | xl_geocoder.py:186-210 | in progressive mode a row without an address is never queried and becomes a failure row with status 'ERROR - INCORRECT ADDRESS' |
| Geocoding.ReorderedStreetPassesGate | xl_geocoder.py:166-196 | a street-and-number row, with a secondary place or with a primary place (with or without the county), whose building number was moved to the front always passes the strict leading-number gate |
| GeocodingPg.SanitizeNUnicode | geocoder_pg.py:52-59 | a truthy value becomes its text stripped, a falsy one 'BRAK DANYCH'; the result is stripped |
| GeocodingPg.ReadPgFields | geocoder_pg.py:151-155 | a row shorter than five raises; otherwise name, street, postcode, locality and province are `sanitize_n_unicode` of cells 0 to 4, in that order |
| GeocodingPg.PgQuery | geocoder_pg.py:162-163 | a query is issued exactly for an accepted non-empty name; it is "name, postcode locality, Polska" |
| GeocodingPg.ModifiedStreet | geocoder_pg.py:169-170 | the written street is blank when parsing returned the original, otherwise the parsed value |
| GeocodingPg.PgAnswer | geocoder_pg.py:162-167 | with a query the geocoder's answer, otherwise the wrong-street-name stand-in |
| GeocodingPg.PgRun.constructor | geocoder_pg.py:131-135 | both sinks start empty |
| GeocodingPg.PgRun.ProcessRow | geocoder_pg.py:151-181 | one loop pass appends exactly the record `PgRowSpec` gives; a short row changes nothing and reports failure |
| GeocodingPg.PgPointPart | geocoder_pg.py:172-174 | a row adds at most one point record, and one exactly when it went through with an ok answer |
| GeocodingPg.PgFailurePart | geocoder_pg.py:176-181 | a row adds at most one incorrect-data row, and one exactly when it went through with an answer that is not ok |
| GeocodingPg.PgOutcomes | geocoder_pg.py:146-181 | one outcome per row read so far, each the one `PgRowSpec` gives for its position and row |
| GeocodingPg.PgRecordsStep | geocoder_pg.py:146-181 | one more row appends its own point or failure part, in row order, to what the earlier rows added |
| GeocodingPg.PgOneRecordPerRow | geocoder_pg.py:146-181 | rows that all went through add exactly one record each across the two sinks |
| GeocodingPg.PgRun.Run | geocoder_pg.py:146-188 | every row before the stop went through, and the sinks grew by exactly `PgPointsOf` and `PgFailuresOf` of those rows' outcomes, in row order, one record per row; the run stops only at a row that raises |
| GeocodingPg.NoQueryForFalsyName | geocoder_pg.py:159-181 | a rejected or empty parsed street ends as a failure row with the wrong-street status, code -999 and position i+1 |
| GeocodingPg.QueryIsParsedName | geocoder_pg.py:159-163 | the query starts with the parsed name itself, since the parser already stripped it |
| GeocodingPg.BlankExactlyWhenUnchanged | geocoder_pg.py:169-170 | the written street is blank exactly when parsing changed nothing or gave '' |
| GeocodingPg.IllegalNameNotQueried | geocoder_pg.py:159-167 | a name containing an illegal substring is never sent to the geocoder |
| FieldSchema.DefaultTable | tools/xl.py:87-95 | the table has exactly the keys str, int, float, bool, datetime and None |
| FieldSchema.ExactType | tools/xl.py:118-121 | the five supported types map to their table keys (bool is not int); only None and other objects have no key |
| FieldSchema.FloatParts | tools/xl.py:106-111 | `split('.')` of the float's text: the first piece ends at the first dot and the second at the end or at the next dot, neither holding a dot; no dot gives the IndexError |
| FieldSchema.PieceLength | tools/xl.py:108-109 | a piece of `split('.')` runs up to the first dot or to the end, and holds no dot |
| FieldSchema.Updated | tools/xl.py:113-114 | `dict.update` keeps every key of the table |
| FieldSchema.UpdatedLookup | tools/xl.py:113-114 | after the update a listed key holds its last listed entry and any other key its old entry |
| FieldSchema.TableFor | tools/xl.py:99-116 | the table built for a call has every default key |
| FieldSchema.AutoSize | tools/xl.py:98-111 | with 'auto', the in-place sizing of the value's entry computes `AutoTable`, including the IndexError of a float text without a dot |
| FieldSchema.DetermineFieldProperties | tools/xl.py:67-125 | the in-place sizing and update loop compute `FieldProperties` |
| FieldSchema.DefaultEntries | tools/xl.py:87-95 | without custom properties str, int, float, bool and datetime get ['C',255,0], ['N',9,0], ['N',6,2], ['L'] and ['D'] |
| FieldSchema.FalsyCustomIsDefault | tools/xl.py:113-116 | any falsy custom value behaves as None |
| FieldSchema.UnsupportedValues | tools/xl.py:118-123 | an unsupported falsy value gets the None entry and a truthy one raises TypeError; '' is a str |
| FieldSchema.AutoSizes | tools/xl.py:99-105 | 'auto' sizes a str by its length and an int by the length of its decimal text |
| FieldSchema.AutoSizesFloat | tools/xl.py:106-111 | 'auto' sizes a float as integer digits plus decimals, with the decimals as precision; no dot raises IndexError |
| FieldSchema.OverrideReplaces | tools/xl.py:113-119 | an override replaces a listed type's entry wholesale; unlisted types keep their defaults |
| FieldSchema.ValidateCustomProperties | tools/xl.py:44-64 | the loop raises exactly what `ValidationError` says: TypeError when the value is neither 'auto' nor a dict, ValueError at the first bad entry |
| FieldSchema.ValidationDecides | tools/xl.py:44-64 | TypeError exactly for non-'auto' non-dict values; ValueError exactly when some supported key's entry is not (letter or None, int, int) |
| FieldSchema.UnsupportedKeysPass | tools/xl.py:53-61 | 'auto', and a dict whose keys are all unsupported, pass validation |
| FieldSchema.MaxRow | tools/xl.py:21 | `max_row` is at least 1 and at least the number of rows |
| FieldSchema.SheetRow | tools/xl.py:34-39 | `ws[i]` is the row, or the sheet's width of empty cells past the last row |
| FieldSchema.SampleRowNumber | tools/xl.py:23-32 | a given row number must lie in 1..max_row, else IndexError; without one, row 2 with a header and row 1 without |
| FieldSchema.ColumnLetter | tools/xl.py:38 | column letters are upper-case A-Z, a single letter exactly for the first 26 columns |
| FieldSchema.ColumnNames | tools/xl.py:34-39 | one name per cell of row 1: with a header the cell's `str()`, without one the column letter |
| FieldSchema.ColumnSamples | tools/xl.py:5-41 | name/value pairs in column order, truncated to the shorter of the two rows as `zip` does |
| FieldSchema.GetFieldsPropertiesFromWorksheet | tools/xl.py:128-164 | samples, validation only when custom is truthy, then the per-column loop, computing `FieldsSpec` |
| FieldSchema.FieldsLoop | tools/xl.py:156-164 | the per-column loop computes `FieldsFrom`: entries in column order, the first error propagating |
| FieldSchema.FieldsFromStep | tools/xl.py:156-164 | one more column either raises its own error or appends `[name] + properties` |
| FieldSchema.FirstErrorStops | tools/xl.py:158-162 | the first column that raises decides the result of the whole loop |
| FieldSchema.OneEntryPerColumn | tools/xl.py:156-164 | on success there is one entry per column, in order: its name, then its properties |
| FieldSchema.FieldsSucceedExactly | tools/xl.py:156-164 | the loop succeeds exactly when every column's value has properties |
| FieldSchema.FalsyCustomSkipsValidation | tools/xl.py:153-154 | a falsy custom value skips validation |
| ShpTemplate.GetColumnSamplesFromWorksheet | tools/shp_template_from_xls.py:5-42 | same row choice, IndexError range and zip truncation as tools/xl.py |
| ShpTemplate.ValidateCustomProperties | tools/shp_template_from_xls.py:45-65 | raises TypeError for a value other than 'auto' or a dict; otherwise the same result as tools/xl.py |
| ShpTemplate.DetermineFieldProperties | tools/shp_template_from_xls.py:68-128 | the same properties as tools/xl.py; a str without custom properties gets ['C',255,0] |
| ShpTemplate.GetFieldsPropertiesFromWorkseet | tools/shp_template_from_xls.py:131-170 | the same entries as tools/xl.py, one per sampled column |
| Text.Find | xl_geocoder.py:202-205 | `find(',')` is -1 or an index holding a comma |
| Text.FindFirst | xl_geocoder.py:202-205 | `find(',')` is -1 exactly when there is no comma, otherwise the first comma's index |
| Text.OccursAt | xl_geocoder.py:67-68 | `substring in street_name` holds when the substring starts at some index |
| Text.OccursSomewhere | xl_geocoder.py:67-68 | and conversely, every occurrence lies at some index |
| Text.Lower | xl_geocoder.py:182 | `lower()` keeps the length and lowers each ASCII or Polish capital |
| Examples.ThreeMajaTwoA | test_xl_geocoder.py:15 | '3 Maja 2 a' becomes '2a, 3 Maja' |
| Examples.ThreeMajaFiveSlashA | test_xl_geocoder.py:18 | '3 Maja 5/a' becomes '5a, 3 Maja' |
| Examples.ThreeMajaRange | test_xl_geocoder.py:20 | '3 Maja 2-6' becomes '2-6, 3 Maja' |
| Examples.GrudniaTwice | test_xl_geocoder.py:21 | 'grudnia 1970 43' becomes '43, grudnia 1970', and number-first on that gives '1970, 43, grudnia' |
| Examples.ThreeMajaTwentyThreeAA | test_xl_geocoder.py:23 | '3 Maja 23aa' is left unchanged |
| Examples.ThreeMajaTwoDashA | test_xl_geocoder.py:27 | '3 Maja 2-A' is left unchanged |
| Examples.FilterRejectsDworcowa | test_xl_geocoder.py:40 | the filter ['Krucza', 'ul.'] rejects 'ul. Dworcowa 35' |
| Examples.FilterKeepsDworcowa | test_xl_geocoder.py:42 | the filter ['Krucza'] returns 'ul. Dworcowa 35' unchanged |
| Examples.ReplaceTitle | test_xl_geocoder.py:46-56 | replacing 'św.' or 'Św.' in 'ul. św. Jerzego 20' puts the value in place of 'św.' only |
| Examples.ExpandTitle | test_xl_geocoder.py:48-49 | with `{'św.': 'świętego'}`, `{'Św.': 'świętego'}` (lines 53-54) or `{'św.': 'Świętego'}` (lines 55-56) the name becomes 'ul. świętego Jerzego 20' or 'ul. Świętego Jerzego 20' |
| Examples.ExpandTitleAndPrefix | test_xl_geocoder.py:50-52 | with both keys, in mapping order, the name becomes 'ulica świętego Jerzego 20' |
| Examples.OlderKeepsTwoA | geocoder_pg.py:72 | the older pattern has no spacer, so '3 Maja 2 a' is not reordered |
| Examples.OlderKeepsRange | geocoder_pg.py:72 | the older pattern has no hyphen, so '3 Maja 2-6' is not reordered |

## Left out

- Reading the workbook, writing the shapefile and the `.prj` file, saving the failure workbook and its `_alt` fallback, `sleep`, printing, the configuration file and output paths: these are I/O. The sinks are modelled as sequences.
- The geocoder call, its HTTP session, and the coordinates and confidence of a result: these are network I/O and floating point. The service is a function from query to `Answer` (ok, status, code, timeout, OSM id), and a record keeps the OSM id.
- The failure workbooks' header rows (`xl_geocoder.py:137-141`, `geocoder_pg.py:134-135`): they come from the field names before the loop, and the sinks hold only the loop's rows.
- `Text.IsWordChar`, `Text.IsDigit`: Python's Unicode `\w` and `\d` are narrowed to ASCII letters, digits, `_` and the Polish letters. `Text.LowerChar` lowers the same alphabet. `strip()` removes all of Python's whitespace characters.
- `StreetName.ReplaceIgnoringCase`: an `expand_abbrev` key is read as literal text, not as a regular expression. The replacement is literal too, with no group references.
- `StreetName.SearchFrom`: `$` also matches before a final newline in Python. The model anchors at the very end.
- `Examples`: the removal cases of `test_xl_geocoder.py:58-62` are not proved as concrete strings; `StreetName.RemovalLeavesNoAbbreviation` states what removal leaves. The number-first cases of lines 9-33 other than those in the table are not restated either.
- The `except TypeError: 'INCORRECT TYPE'` branch of `sanitize_value` and the `except AttributeError: 'ZŁY TYP DANYCH'` branch of `sanitize_n_unicode`: `str()` and `unicode()` of the modelled cell values do not raise.
- `GeocodingPg.SanitizeNUnicode`: Python 2 `unicode()` of a float prints 12 significant digits. The model uses the same text as `str()` (the float's repr carried by the cell).
- `Cells.Cell`: the float-to-text algorithm is not modelled. A float cell carries its text.
- `FieldSchema.TableFor`: the documented custom values are None, 'auto' and a dict. A truthy string or number makes `dict.update` raise; an iterable of pairs, which Python would accept, is also treated as raising. The model reports that as one `UpdateFailed` error, without the Python exception type. Override values are always sequences.
- `FieldSchema.Custom`: a dict is its items in order. A repeated key, which a Python dict cannot hold, is validated at each occurrence, and the last occurrence wins in the update.
- `FieldSchema.SampleRowNumber`: `row_number` 0 stands for `None` (both falsy). Negative row numbers raise IndexError as in the code. openpyxl's `min_column` is taken to be 1.
- The `__main__` blocks of `tools/shp_template_from_xls.py`, `xl_geocoder.py` and `geocoder_pg.py` beyond their row loops, `create_empty_shp`, `add_fields_to_shp` and `tools.shp`: these are configuration and shapefile I/O.
- `Geocoding.Roles`: a negative column index would read from the end of the row in Python. Indices are natural numbers here.
