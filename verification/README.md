# DWD hourly observation importer — a Dafny model

The importer loads the hourly station observations of the German weather
service (DWD) into MySQL. There are eight measurement categories: air
temperature, cloudiness, precipitation, pressure, soil temperature,
solar, sun and wind. Each category has its own table, file pattern,
column list and row parser. One generic job serves all eight categories.
It truncates the table and builds the parameterised `INSERT` statement.
Then it reads the matched files in order. For each file it skips the
header row, runs every remaining `;`-separated row through the parser,
and inserts the file's tuples as one batch. A parser raises an exception
on a missing field, on an integer field `int()` rejects, or on a
decimal field `float()` rejects. The model covers the first two cases.
The `float()` case is left out (see `Rows.FloatField` under "## Left
out"). An exception ends the job: the batches of earlier files stay in
the table, and the failing file and all later files add nothing.

The model is organised like the program:

- `PyStr`: the Python string operations the parsers rely on.
  - `strip()` over the full `isspace` set.
  - Slicing with Python's clamping of out-of-range bounds.
  - `join`, which builds the insert statement.
  - `split`, which no part of the importer calls. It is defined only to
    prove that the statement's column and placeholder lists break back
    into their pieces.
- `IntText`: `int()` on stripped text. The result is `None` where Python
  raises `ValueError`.
- `Timestamps`: the two re-renderings.
  - Hourly: `YYYYMMDDHH` becomes `YYYY-MM-DD HH:00:00`.
  - Solar: `YYYYMMDDHH:MM` becomes `YYYY-MM-DD HH:MM:00`.
- `Rows`: reading field `i` of a split row.
  - Text is `row[i].strip()`.
  - An integer is `int(row[i].strip())`.
  - A float is kept as its stripped text.
  - Errors are `MissingField` (an `IndexError`) and `NotAnInteger` (a
    `ValueError`).
- `Records`: one record type and one hand-written parser per category.
  Fields are read in the order the source reads them, and every
  `float()` read goes through `Rows.FloatField`.
- `Schema`: a declarative column layout and `Decode`, the reference
  reading of a row against a layout.
- `Categories`: each job's table, file pattern, field list and layout.
  `Parse` maps a category to its parser.
- `Agreement`: the proof that every parser equals `Decode` of its layout
  on every row. This covers both the values and the error raised.
- `Sql`: the `INSERT` statement.
- `Loader`: the generic job.
  - `Load` is the file-by-file reference.
  - `RunImport` is the loop as written, with the item bank of each file.
- `Jobs`: the eight jobs put together.
- `Examples`: the sample rows from the importer's docstrings.

Floats, the database, the file system and the process exit are not part
of the model: see "Left out".

Both solar stamps (fields 1 and 8) keep their minutes (import.py:369-378).
Text shorter
than a stamp is sliced the way Python slices it: the pieces shrink and
no error is raised.

## Model

| member | source | states |
|---|---|---|
| PyStr.Strip | import.py:72-76 | `str.strip()`: the result has no whitespace at either end and is no longer than the input; `StripMeaning` and `StripUnique` pin it down |
| PyStr.Slice | import.py:80-83 | Python's `s[a:b]` for non-negative bounds; `SliceMeaning` states its value inside and outside the text |
| PyStr.Join | import.py:37-38 | `sep.join(xs)`; `Sql.ColumnsRoundTrip` and `Sql.PlaceholderCount` show that the joined lists split back into their pieces |
| PyStr.StripMeaning | import.py:72-76 | `strip()` removes exactly the surrounding whitespace: the input is whitespace, then the result, then whitespace, and the result has no whitespace at either end |
| PyStr.StripUnique | import.py:72-76 | any text the input strips to in that sense is `Strip`'s result, so the characterisation is complete |
| PyStr.StripIdempotent | import.py:72-76 | stripping a stripped field changes nothing |
| PyStr.SliceMeaning | import.py:80-83 | `s[a:b]` is the ordinary slice inside the text, the tail when `b` runs past the end, and empty when `a` is at or past the end or `b <= a`, as Python clamps |
| IntText.ParseInt | import.py:72 | `int()` accepts exactly an optional sign followed by one or more decimal digits; a minus sign gives a non-positive value and no sign or a plus sign a non-negative one |
| IntText.ParseShow | import.py:72 | every integer's decimal text is accepted and reads back as that integer |
| IntText.LeadingZero | import.py:72 | `int()` gives the same result for a run of digits with and without a leading zero |
| IntText.SignedLiteral | import.py:72 | a `+` before a run of digits leaves the value `int()` gives unchanged, and a `-` negates it |
| Timestamps.HourlyStamp | import.py:80-83 | the hourly rendering, repeated in every parser but solar (also import.py:133-136, 187-190, 243-246, 300-303, 438-441, 488-491); the `Hourly*` lemmas below state its length, layout, round trip and injectivity |
| Timestamps.HourlyLength | import.py:80-83 | the hourly rendering is 19 characters for a 10-character stamp and shrinks with shorter text |
| Timestamps.HourlyShape | import.py:80-83 | a full hourly stamp becomes year, `-`, month, `-`, day, space, hour and `:00:00` at fixed positions |
| Timestamps.HourlyRoundTrip | import.py:80-83 | reading the digits back out of an hourly rendering gives the 10-character input |
| Timestamps.HourlyInjective | import.py:80-83 | distinct 10-character stamps render differently |
| Timestamps.HourlyIgnoresTail | import.py:80-83 | characters after offset 10 never reach the hourly rendering |
| Timestamps.SolarStamp | import.py:369-378 | the solar rendering, applied to both solar stamps; the `Solar*` lemmas below state its length, layout and round trip |
| Timestamps.SolarLength | import.py:369-378 | the solar rendering is 19 characters for a 13-character stamp, shrinks with shorter text, and drops offset 10 |
| Timestamps.SolarShape | import.py:369-378 | a full solar stamp becomes year, `-`, month, `-`, day, space, hour, `:`, minutes and `:00` at fixed positions |
| Timestamps.SolarRoundTrip | import.py:369-378 | the solar rendering keeps every character of a 13-character stamp except the colon at offset 10, in order |
| Timestamps.SolarIgnoresSeparator | import.py:369-378 | the character at offset 10 of a solar stamp has no influence on the rendering |
| Timestamps.SolarOnTheHour | import.py:369-378 | on the full hour (`MM` = `00`) the solar rendering equals the hourly rendering of the first ten characters |
| Rows.Field | import.py:73 | `row[i].strip()` succeeds exactly when the field exists, and otherwise raises the index error for `i` |
| Rows.IntField | import.py:72 | `int(row[i].strip())` succeeds exactly when the field exists and holds an integer literal; a missing field reports the index, a bad literal reports the index and the stripped text |
| Rows.FloatField | import.py:75-76 | `float(row[i].strip())` fails only when the field is missing; on success the value is the stripped text |
| Records.ParseAirTemperature | import.py:68-87 | the row parses exactly when it has 5 fields and fields 0 and 2 are integers; the record is the station, the re-rendered timestamp, the quality level and two measurements |
| Records.ParseCloudiness | import.py:121-140 | the row parses exactly when it has 5 fields and fields 0 and 2 are integers; field 3 stays text |
| Records.ParsePrecipitation | import.py:174-195 | the row parses exactly when it has 6 fields and fields 0, 2, 4 and 5 are integers |
| Records.ParsePressure | import.py:231-250 | the row parses exactly when it has 5 fields and fields 0 and 2 are integers |
| Records.ParseSoilTemperature | import.py:284-311 | the row parses exactly when it has 9 fields and fields 0 and 2 are integers; the six depths stay in field order |
| Records.ParseSolar | import.py:353-385 | the row parses exactly when it has 9 fields and fields 0 and 2 are integers; the end stamp (field 8) comes before the quality level in the record |
| Records.ParseSun | import.py:427-444 | the row parses exactly when it has 4 fields and fields 0 and 2 are integers |
| Records.ParseWind | import.py:476-495 | the row parses exactly when it has 5 fields and fields 0, 2 and 4 are integers |
| Schema.DecodeSucceedsIff | import.py:72-76 | reading a layout succeeds exactly when every column is readable |
| Schema.DecodeFailure | import.py:72-76 | a failed reading raises the error of the first unreadable column, so one bad integer fails the whole row |
| Schema.DecodedValuesFit | import.py:72-76 | every value of a successful reading has its column's type |
| Categories.TableName | import.py:105-118 | the destination table of each job (also import.py:158-171, 214-228, 268-281, 333-350, 407-424, 461-473, 513-526); `Jobs.JobStatementColumns` puts it in the statement |
| Categories.Fields | import.py:110-116 | the field tuple of each job (also import.py:163-169, 219-226, 273-279, 338-348, 412-422, 466-471, 518-524); never empty, no name holds a comma, and it has one name per layout column |
| Categories.Parse | import.py:117 | the parser each job hands to the importer (one per category); a parsed tuple has one value per field |
| Agreement.AirTemperatureMatchesLayout | import.py:68-87 | the air temperature parser equals the layout reading on every row, values and errors alike |
| Agreement.CloudinessMatchesLayout | import.py:121-140 | the cloudiness parser equals the layout reading on every row |
| Agreement.PrecipitationMatchesLayout | import.py:174-195 | the precipitation parser equals the layout reading on every row |
| Agreement.PressureMatchesLayout | import.py:231-250 | the pressure parser equals the layout reading on every row |
| Agreement.SoilTemperatureMatchesLayout | import.py:284-311 | the soil temperature parser equals the layout reading on every row |
| Agreement.SolarMatchesLayout | import.py:353-385 | the solar parser equals the layout reading on every row; the error comes from field 8 before field 2, as the source reads them |
| Agreement.SolarFailsEarly | import.py:357-365 | once field 8 has been read, fields 3 to 7 exist, so a solar row can only fail at its first four reads |
| Agreement.SunMatchesLayout | import.py:427-444 | the sun parser equals the layout reading on every row |
| Agreement.WindMatchesLayout | import.py:476-495 | the wind parser equals the layout reading on every row |
| Agreement.ParseMatchesLayout | import.py:68-495 | every category's parser equals the reading of its layout on every row |
| Agreement.LayoutMatchesFields | import.py:105-118 | each layout has as many columns as its job's field list |
| Agreement.ParsedRowFitsColumns | import.py:35-39 | a parsed tuple has one value per insert column, each of the type its column expects |
| Categories.FieldNamesPlain | import.py:105-118 | no field name of any job holds a comma |
| Sql.InsertStatement | import.py:35-39 | the statement names the table, lists the backtick-quoted fields joined by `,`, and has the placeholder list |
| Sql.Placeholders | import.py:38 | the placeholder list `%s,%s,...`; `PlaceholderCount` states it has one placeholder per field |
| Sql.PlaceholderCount | import.py:38 | the placeholder list splits into exactly `len(fields)` placeholders `%s` |
| Sql.ColumnsRoundTrip | import.py:37 | the column list splits back into the quoted field names, in order |
| Sql.QuoteAll | import.py:37 | every field name is quoted, in order |
| Sql.Repeat | import.py:38 | `['%s'] * n` has `n` elements, each `%s` |
| Loader.DataRows | import.py:51-54 | the header row is skipped; an empty file has no rows |
| Loader.ParseBatch | import.py:48-58 | a file's item bank holds, in order, the tuple of every data row; a failure names the first row the parser rejects, and all rows before it parse |
| Loader.ParseBatchSucceedsIff | import.py:57-58 | a file parses exactly when every data row does |
| Loader.AllDataRowsAppend | import.py:41-58 | the rows a job reads from two groups of files are the rows of the first group followed by those of the second, so the files' data rows are read file after file |
| Loader.HeaderOnlyFileHasNoRows | import.py:51-58 | a file holding at most its header row adds no data rows wherever it stands among the files, so by `LoadCompletedTable` it leaves a completed job's table unchanged |
| Loader.RunImport | import.py:26-62 | the loop ends exactly as the file-by-file reference `Load` says; the outcome does not depend on the table's previous contents, so a second run on the same files leaves the same table |
| Loader.Load | import.py:41-62 | the file-by-file reference for the job's loop; `RunImport` is proved to end as it says, and the `Load*` lemmas state its table and abort behaviour |
| Loader.LoadCompletesIff | import.py:41-62 | the job completes exactly when every data row of every file parses |
| Loader.LoadCompletedTable | import.py:41-62 | a completed job's table is the parsed tuples of all data rows, headers excluded, file after file |
| Loader.LoadAbortedTable | import.py:41-62 | an aborted job names a file whose batch fails at the first rejected row; earlier files all parsed and their tuples are the table |
| Loader.HeaderOnlyFileAddsNothing | import.py:51-58 | a file holding at most its header row changes neither the table nor how the job ends |
| Loader.AbortedIgnoresLaterFiles | import.py:41-58 | files after the failing one make no difference |
| Loader.LoadGrows | import.py:57-62 | a file whose rows all parse appends its batch to the table |
| Loader.LoadStops | import.py:57-62 | a file with a rejected row ends the job there, with the table as it was before that file |
| Categories.FilePattern | import.py:109 | the glob pattern of each job (also import.py:162, 218, 272, 337, 411, 465, 517); the files it matches are given to the model, not derived from it |
| Jobs.JobStatement | import.py:35-39 | the `sql` each job executes, built from the job's table and fields (import.py:105-118 and the other seven calls); `JobStatementColumns` states its shape |
| Jobs.ImportCategory | import.py:90-118 | each `import_<category>` function: the generic job with the category's table, fields and parser (also import.py:143-171, 198-228, 253-281, 314-350, 388-424, 447-473, 498-526); `ImportedTuplesFit` states what it inserts |
| Jobs.JobStatementColumns | import.py:35-39 | each job's statement lists its fields in order and takes one value per field |
| Jobs.ImportedTuplesFit | import.py:41-62 | every tuple a completed job inserts has one value per field, of the column's type |
| Examples.WindSample | import.py:507-509 | the wind sample row `   3987;1893010100;    5;   5.4;-999;eor` gives `(3987, "1893-01-01 00:00:00", 5, 5.4, -999)` |
| Examples.SolarSample | import.py:401-403 | the solar start stamp `1949010100:18` becomes `1949-01-01 00:18:00` |
| Examples.WindSampleBadStation | import.py:480 | the wind sample with station `39x7` fails as a whole with that field's error |

## Left out

- Rows.FloatField: never fails on text. The source's `float()` raises `ValueError` on a malformed number. Floats are kept as their stripped text because floating point is not modelled.
- Agreement.SolarFailsEarly: holds only because a `float()` read cannot fail in the model (see `Rows.FloatField`). In the source, fields 3 to 7 of a solar row can still raise `ValueError` after the first four reads.
- IntText.ParseInt: does not accept the digit-group underscores or the non-ASCII decimal digits that Python's `int()` also accepts.
- Sql.InsertStatement: its contract says nothing about an empty field list. No job has one.
- Truncation: the `TRUNCATE` statement, its failure, the log message and `sys.exit()` (import.py:26-32) are not modelled. `RunImport` takes the previous table contents and drops them, so truncation always succeeds in the model.
- Database: the connection, `executemany`, `commit` and database errors are left out. A committed batch is modelled as appended to the table.
- Categories.FilePattern: the glob patterns are recorded but no file matching is modelled. The matched files are given to `Jobs.ImportCategory`, in the order `glob` returns them.
- Files: `glob` ordering, path joining, opening files and the `csv` module's quoting rules are left out. Files are given as sequences of rows already split at `;`, in the order `glob` returns them.
- Progress bar and logging: they have no effect on the data.
- Program entry point: `main` is not modelled (import.py:529-587). That covers the YAML configuration, the connection and the fixed sequence of the eight jobs. It also covers a failing job ending the run before later categories. `Jobs.ImportCategory` models one job on its own.
- Documentation samples: only the wind sample row and the solar sample's start stamp are proved. The other categories' docstring rows follow from the same per-field lemmas.
