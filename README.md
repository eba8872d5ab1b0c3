# Text and index rules of the wxprofilers importers

This project models the rules about text and indices inside three importers of `misc.py`. The pandas, xarray and statsmodels calls around them are left out.

- **`mwr_from_csv`** reads a microwave-radiometer CSV export.
  - Every line has a record type: the integer in its third comma-separated field.
  - A line starting with `Record` is a header.
  - A header of type `t` owns every line whose type is `t+1` to `t+4`. Its table is the header line followed by those lines, in file order, stored under `str(t)`.
  - Record titles `Name (unit)` are split into a name and a unit, which fill a name-to-unit dictionary.
  - Measurement rows are numbered into scans of 16.
- **`wind_regression`** fits a wind vector per lidar range bin.
  - A bin is fitted only when the distinct line-of-sight (LOS) beams with data can determine all three wind components.
  - Coefficients whose standard error is too large or non-finite become NaN.
  - The stored row is the three coefficients followed by the three standard errors.
- **`weather_balloon`** reads a radiosonde flight file.
  - The header block ends at the first `"\r\n"` line. Each header line `key : value` becomes a metadata entry.
  - Timestamps are carried across midnight by a running count of day changes.

Modules:

- `Wrappers`: `Option` and `Result`. An exception of the importer becomes an `Err` value.
- `PyText`: the Python string built-ins the importers use, stated once. These are `str.isspace`, `strip`, `split` and the search inside it, `int(str)` and `str(int)`. `int()` skips a narrower set of whitespace than `strip()`: the ASCII separators `\x1c`..`\x1f` are text to `int()`.
- `Dicts`: a dictionary filled by `d[key] = value` over a list, where a later key overwrites an earlier one.
- `Radiometer`, `WindRegression` and `Balloon`: the three importers.

The loops that fill a dictionary or a result frame in place are methods with loop invariants. The dictionary loops are proved against a recursive fold (`Dicts.StoreAll`, `Radiometer.TablesBefore`), whose meaning is proved by induction. The per-bin loop of `WindRegression.Regress` keeps, as its invariant, the closed form of every row already visited.

## Model

| member | source | states |
|---|---|---|
| PyText.IsSpace | misc.py:298 | definition of the `str.isspace` set that `strip()` removes; its meaning for `strip()` is stated by `TrimStart`, `TrimEnd` and `TrimAppendSpace` |
| PyText.IntSpace | misc.py:127 | definition of the whitespace `int()` skips: the `str.isspace` set without `\x1c`..`\x1f`; its meaning is proved by `ParseIntAppendSpace` and `ParseIntKeepsSeparator` |
| PyText.TrimStart | misc.py:298 | the result is a suffix of the input, all dropped characters are whitespace, and the result does not start with whitespace |
| PyText.TrimEnd | misc.py:298 | the result is a prefix of the input, all dropped characters are whitespace, and the result does not end with whitespace |
| PyText.Trim | misc.py:127 | definition of trimming a given set of characters at both ends, shared by `strip()` and `int()`; its meaning is stated by `TrimStart`, `TrimEnd` and proved by `TrimAppendSpace` |
| PyText.Strip | misc.py:298 | definition of `str.strip()`: both trims with the `str.isspace` set; its meaning is stated by `TrimStart` and `TrimEnd` |
| PyText.TrimAppendSpace | misc.py:127 | a trailing whitespace character (the line's newline) never changes what the trim returns |
| PyText.Find | misc.py:301 | the search `str.split` performs: the result is an occurrence, and no occurrence comes before it; None exactly when there is none |
| PyText.Split | misc.py:148 | definition of `str.split(sep)`: at least one piece; its meaning is proved by `JoinSplit` and `SplitPartsFree` |
| PyText.JoinSplit | misc.py:148 | `str.split` loses nothing: joining the pieces with the separator gives back the string |
| PyText.SplitPartsFree | misc.py:301 | no piece of a split contains the separator |
| PyText.ParseInt | misc.py:127 | definition of `int(str)`: surrounding whitespace skipped, then an optional sign and a digit run; its meaning is proved by `ParseIntAppendSpace`, `ParseIntKeepsSeparator` and `ParseDecimalString` |
| PyText.ParseIntAppendSpace | misc.py:127 | `int()` of a field is unchanged by a trailing newline or other whitespace `int()` skips |
| PyText.ParseIntKeepsSeparator | misc.py:127 | a field starting with one of `\x1c`..`\x1f` is rejected by `int()`, although `strip()` would remove that character |
| PyText.DecimalString | misc.py:145 | definition of `str(n)`; its meaning is proved by `ParseDecimalString` and `DecimalStringInjective` |
| PyText.ParseDecimalString | misc.py:145 | `int(str(n)) == n` for every integer |
| PyText.DecimalStringInjective | misc.py:145 | distinct record types get distinct `str(t)` keys |
| Radiometer.DropTwoFields | misc.py:127 | definition of `re.sub("^[^,]*,[^,]*,", "", line)`; its meaning is proved by `DropTwoFieldsOf` |
| Radiometer.DropCommaTails | misc.py:127 | definition of `re.sub(",.*", "", s)`, where `.` stops at a newline; its meaning is proved by `DropCommaTailsPlain` and `DropCommaTailsOf` |
| Radiometer.DropCommaTailsPlain | misc.py:127 | the `",.*"` substitution keeps comma-free text as it is |
| Radiometer.DropTwoFieldsOf | misc.py:127 | the `"^[^,]*,[^,]*,"` substitution leaves exactly the text after the second comma |
| Radiometer.DropCommaTailsOf | misc.py:127 | the `",.*"` substitution cuts a field at its comma and keeps the line ending |
| Radiometer.LineType | misc.py:127 | definition of one line's type, `int()` of what the two substitutions leave; its meaning is proved by `LineTypeOfThirdField` |
| Radiometer.LineTypeOfThirdField | misc.py:127 | the type of a line `f1,f2,f3[,rest][\n]` is `int(f3)`, e.g. a `Record,Date/Time,400,...` header has type 400 |
| Radiometer.ClassifyAll | misc.py:127 | a raising comprehension: either every line's value in order, or the index of the first line that raises, with all earlier lines accepted |
| Radiometer.LineTypes | misc.py:127 | every line's type, or an error naming the first line whose type field `int()` rejects |
| Radiometer.IsHeader | misc.py:128 | definition of `re.search("^Record", line)`: the line starts with `Record` |
| Radiometer.HasHeader | misc.py:128-132 | definition: some line is a header, so `np.nditer` has an index to visit; used by `SplitRecords` |
| Radiometer.BelongsTo | misc.py:133-135 | definition of `types[m] in acceptable_types`: the type is one of `t+1..t+4`; its meaning is proved by `OwnedMembers` |
| Radiometer.Owned | misc.py:133-138 | definition of the lines whose type is `t+1..t+4`, in file order; its meaning is proved by `OwnedMembers` and `OwnedAppend` |
| Radiometer.OwnedMembers | misc.py:133-139 | a line is in the table of type `t` iff some line with that text has a type in `t+1..t+4` |
| Radiometer.OwnedAppend | misc.py:135-139 | tables keep file order: a line added at the end of the file joins the end of each table it belongs to |
| Radiometer.Owns | misc.py:128-137 | definition: the line is a header and `where_is_type[0].size > 0`, i.e. its type owns some line; its meaning is proved by `TablesBeforeSpec` |
| Radiometer.Table | misc.py:138-140 | definition of a table: the header line, then its owned lines |
| Radiometer.Visit | misc.py:137-145 | definition of one loop step: a header that owns lines stores its table under `str(t)`; its meaning is proved by `TablesStepValues` |
| Radiometer.TablesBefore | misc.py:131-145 | definition of the dictionary after the first headers, as a fold of `Visit`; its meaning is proved by `TablesBeforeSpec` |
| Radiometer.TablesStepValues | misc.py:145 | visiting one more header keeps the latest table of every other type in place, because `str` keys of distinct types differ |
| Radiometer.TablesBeforeSpec | misc.py:131-145 | after the headers before `bound`: the keys are exactly `str(t)` for the types of headers with lines; each key holds the table of the latest such header |
| Radiometer.GroupTables | misc.py:131-145 | the in-place loop over the headers leaves exactly the dictionary of `TablesBeforeSpec` |
| Radiometer.SplitRecords | misc.py:126-145 | a bad type field gives that error; with no header line, `np.nditer` over no headers raises; otherwise the result is the grouped tables |
| Radiometer.NameOf | misc.py:148 | definition of `re.split(' \(', title)[0]`; its meaning is proved by `NameOfTitle` |
| Radiometer.UnitOf | misc.py:149 | definition of the unit substitution as a left-to-right scan; its meaning is proved by `UnitOfTitle` and `UnitOfNoParens` |
| Radiometer.LineOpenParen | misc.py:149 | where the greedy `.*\(` stops: the last `(` before the first newline, and None exactly when the current line has no `(` |
| Radiometer.UnitOfStep | misc.py:149 | on text without `(`, a `)` drops the rest of the line and any other character is kept |
| Radiometer.UnitOfKeeps | misc.py:149 | characters other than parentheses and newlines pass the unit substitution unchanged |
| Radiometer.UnitOfAfterParen | misc.py:149 | the unit scan resumes after the last `(` of the line |
| Radiometer.NameOfTitle | misc.py:148 | the name is the text before the first `" ("` |
| Radiometer.UnitOfTitle | misc.py:149 | the unit of `name (unit)tail` is the text between the parentheses |
| Radiometer.TitleNameUnit | misc.py:148-149 | the title `Name (unit)` gives name `Name` and unit `unit` |
| Radiometer.TitleWithoutParens | misc.py:148-149 | a title without parentheses is both its own name and its own unit |
| Radiometer.TitlePairs | misc.py:148-149 | one (name, unit) pair per title, in title order |
| Radiometer.UnitTable | misc.py:150-152 | the keys are exactly the names; each name holds the unit of its last title |
| Dicts.StoreAll | misc.py:150-152 | definition of `d[k] = v` over pairs in order; its meaning is proved by `StoreAllLastWins` |
| Dicts.StoreAllLastWins | misc.py:150-152 | storing pairs in order leaves exactly their keys, each holding the value of its last pair |
| Radiometer.ScanNumbers | misc.py:171 | one scan number per row |
| Radiometer.ScanNumbersOrder | misc.py:171 | scan numbers start at 0, never decrease, and grow by at most one per row |
| Radiometer.ScanMembers | misc.py:171 | scan `k` holds exactly rows `16k..16k+15`, so no scan holds more than 16 rows |
| WindRegression.Greater | misc.py:239 | definition of the IEEE comparison `se > max_se`, false whenever either side is NaN; its meaning is proved by `Blank` |
| WindRegression.Neg | misc.py:217 | negation keeps NaN and only NaN |
| WindRegression.Negated | misc.py:217 | closed form of `-column`, element by element; its property, that the observed beams do not change, is proved by `ObservedUnderNegation` |
| WindRegression.ObservedUnderNegation | misc.py:217-221 | negating a column does not change which beams have data |
| WindRegression.ObservedLos | misc.py:220-222 | definition of `los[notnan].unique()`; its meaning under negation is proved by `ObservedUnderNegation` |
| WindRegression.Fitted | misc.py:222-228 | definition of the gate; its meaning is proved by `GateMatchesGeometry` |
| WindRegression.GateMatchesGeometry | misc.py:219-228 | the gate fits a bin iff three of its observed beams have linearly independent directions, i.e. the bin determines all three wind components |
| WindRegression.FittedSpans | misc.py:222-228 | a bin that passes the gate has three independent beam directions |
| WindRegression.SpansFitted | misc.py:222-228 | a bin with three independent beam directions passes the gate |
| WindRegression.Acceptable | misc.py:239 | definition of a standard error the size filter keeps: finite, and not above `max_se` (any finite error for a +inf or NaN bound, none for -inf); its meaning is proved by `Blank` |
| WindRegression.Blank | misc.py:239 | a coefficient survives iff its standard error is finite and not above `max_se` (every finite error when `max_se` is +inf or NaN, none when it is -inf); otherwise it is NaN |
| WindRegression.ResultRow | misc.py:239-240 | closed form of the six-value row; its properties are proved by `Blank` and `ResultRowValues` |
| WindRegression.ResultRowValues | misc.py:239-240 | a surviving coefficient always has a standard error the size filter accepts |
| WindRegression.MissingRow | misc.py:214 | a row never assigned is all NaN |
| WindRegression.Regress | misc.py:216-241 | per bin, in order: the fit's result row when the gate passes; otherwise the row is never written |
| Balloon.RawLines | misc.py:293 | definition of `readlines()` with line endings kept; its meaning is proved by `RawLinesAvoid` and `RawLinesOfCrlf` |
| Balloon.TextModeLines | misc.py:292-293 | definition of `readlines()` on a file opened in text mode; its meaning is proved by `TextModeHeaderNeverEnds` |
| Balloon.Universal | misc.py:292-293 | text-mode reading leaves no `'\r'` in any line |
| Balloon.RawLinesAvoid | misc.py:293 | a character absent from the file is absent from every line read |
| Balloon.TextModeHeaderNeverEnds | misc.py:292-296 | read in text mode, no line is `"\r\n"`, so the header end is never found |
| Balloon.HeaderEnd | misc.py:296 | the index of the first line equal to `"\r\n"`; None exactly when there is none |
| Balloon.HeaderEndAt | misc.py:296 | a `"\r\n"` line with no earlier one is the header end |
| Balloon.RawLinesOfCrlf | misc.py:293 | read with line endings kept, each header line comes back with its `"\r\n"`, then the blank `"\r\n"` line |
| Balloon.RawHeaderEnds | misc.py:296-297 | read with line endings kept, the header ends right after the non-empty header lines |
| Balloon.Entry | misc.py:298-303 | definition of one stripped header line split at `" : "`; its meaning is proved by `EntryExists` and `EntryOf` |
| Balloon.HeaderEntries | misc.py:297-303 | definition of the entries of the lines before the header end; used by `ParseHeader` |
| Balloon.EntryExists | misc.py:298-303 | a header line has an entry iff its stripped text contains `" : "` |
| Balloon.EntryOf | misc.py:298-303 | a stripped line `key : value` gives key `strip(key)` and exactly `value`; anything after a further `" : "` is dropped |
| Balloon.SplitAfterFirst | misc.py:301 | splitting at `" : "` cuts at its first occurrence |
| Balloon.CollectMetadata | misc.py:300-304 | the line-by-line loop raises at the first line without an entry; otherwise it leaves the stored entries |
| Balloon.ParseHeader | misc.py:296-304 | no `"\r\n"` line is an error; a header line without `" : "` is an error at the first such line; otherwise the keys are exactly the header keys, each holding the value of its last line |
| Balloon.Crossing | misc.py:318-320 | definition of a day change at row `i`: time of day goes down while elapsed time does not |
| Balloon.DayOffsets | misc.py:318-321 | offset 0 for the first row; each later row adds 1 exactly at a crossing (time of day down, elapsed time not down) |
| Balloon.OffsetCountsCrossings | misc.py:318-321 | the offset of row `i` is the number of crossings up to row `i` |
| Balloon.OffsetsMonotone | misc.py:318-321 | offsets never decrease and grow by at most one per row |
| Balloon.CorrectTimes | misc.py:318-323 | closed form: each timestamp moves on by whole days of its offset, and a column without rows is an error; its properties are proved by `SortedTimesUnchanged` and `CorrectedTimesInOrder` |
| Balloon.SortedTimesUnchanged | misc.py:318-323 | timestamps that never go down are left unchanged |
| Balloon.CorrectedTimesInOrder | misc.py:318-323 | times of day from one date, with elapsed time never going down, come out in order |

## Left out

- Opening, decoding and closing files: all of misc.py:122-124 for the radiometer file, whose lines are given as strings, and the `open` and `close` at misc.py:292 and misc.py:294 for the balloon file, whose text is given as a string. The balloon file's `readlines()` at misc.py:293 is modelled, both in text mode (`Balloon.TextModeLines`) and with line endings kept (`Balloon.RawLines`).
- Parsing dates and times (misc.py:306-315): timestamps are given as whole seconds from a base date.
- The data file path at misc.py:311 is hard-coded rather than taken from `fname`. This is I/O and is not modelled.
- `pd.read_csv` of each table: a table is the list of lines handed to it.
- Because of that, `csvs['100']['Title']` at misc.py:147 is not modelled; the titles are an input. A file without a type-100 or type-400 table makes the lookup in the plain dictionary `csvs` raise a KeyError at misc.py:147 or misc.py:156, and this is not modelled either.
- The lookup of `metadata['Flight']` at misc.py:306-307, and the later metadata lookups at misc.py:335-345, are not modelled. Their KeyError on a missing key is not modelled either.
- Dataset assembly in `mwr_from_csv` (misc.py:154-197), `lidar_from_csv`, `recursive_resample`, `skewt`, and the dataset built in `weather_balloon` (misc.py:325-346). These are xarray and pandas reshaping with no rule of their own.
- The least-squares fit (misc.py:231-234) is a function parameter. The beam geometry (misc.py:204-211) enters only through the integer-rescaled beam directions the gate proof uses. The `elevation` argument is ignored by the source itself, since 75° is hard-coded at misc.py:205.
- `wxprofilers/rrs.py` forwards to a native decoder and is not part of this model.
- Floating point is abstracted as `Num`: a real, ±infinity, or NaN. Only comparison, negation and NaN-ness are modelled.
- Result rows are indexed by position, so duplicate column labels in the lidar frame are not modelled.
- `int()` accepts non-ASCII Unicode digits; the model accepts ASCII digits only.
- Record types are unbounded integers, not int64.
- Balloon.DayOffsets: the elapsed-time column is integer; a NaN elapsed time, which makes its comparison false, is not modelled.

## Findings

| source | as written | input that shows it | evidently intended | confidence | as-written member | corrected member |
|---|---|---|---|---|---|---|
| misc.py:292-297 | the file is opened with `open(fname, 'r')`, whose Python 3 universal-newline translation turns every `"\r\n"` into `"\n"`, and the header end is then looked for as a line equal to `"\r\n"` | any flight file, e.g. `"Flight : x\r\n\r\ndata\r\n"`: its lines read as `["Flight : x\n", "\n", "data\n"]`, none equals `"\r\n"`, and `[0][0]` raises IndexError | read the lines with their endings kept (`newline='\n'`), so the blank `"\r\n"` line ends the header | high, not executed | Balloon.TextModeHeaderNeverEnds | Balloon.RawHeaderEnds |
