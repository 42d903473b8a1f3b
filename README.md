# Art catalogue: bulk upload of custom codes

A Dafny model of the spreadsheet bulk upload in the Art-catalogue Streamlit app.
The app keeps user-defined artwork records in an in-memory dictionary
`custom_codes`, keyed by 11-digit code. The bulk upload reads a spreadsheet and
first checks that the sheet has all required columns. It then walks the rows in
order. Each row is trimmed and checked: the code must be 11 digits, the url must
be non-empty and the year must be 4 digits. A row that passes and whose code is
not yet a custom code becomes a new record. Any other row is skipped with one
message. The dictionary is saved once, at the end.

Files and modules:

- `validation.dfy` (`Validation`): `strip()`, `isdigit()` and the code and
  year checks, with lemmas on what `strip()` removes.
- `messages.dfy` (`Messages`): the per-row messages, as a problem plus a
  spreadsheet row number, and the exact text the app shows for each.
- `bulk_import.dfy` (`BulkImport`): the record types and the column check. It
  also holds the row checks and the merge loop as functions: `Step` processes
  one row and `Run` processes the first `n` rows.
- `import_properties.dfy` (`ImportProperties`): what the loop guarantees.
- `catalogue.dfy` (`Catalogue`): the class `Store` that owns `customCodes`.
  Its method `BulkUpload` is the imperative loop. Its postcondition ties the
  report and the new custom codes to `Import` and records the single save.

Modelling choices:

- A spreadsheet is a set of column names and a sequence of rows. Each row maps
  a column name to the cell's text, already converted with `str()`. A data
  frame gives every row exactly the frame's columns, so `BulkUpload` requires
  this shape (`IsFrame`).
- `Cell(row, column)` is `row[column]`, or `""` when the column is absent. After
  the column check every required column is present, so for those columns this
  is `row[column]`. For the optional `secondary_series` it is
  `row.get('secondary_series', '')`.
- The row index from `iterrows()` is the row's position, as it is for the
  default index `read_excel` builds. The message for data row `idx` names
  spreadsheet row `idx + 2`.
- The message list holds `Message(row, problem)` values. `Messages.Text` gives
  the exact line the app appends. `TextInjective` proves that no information is
  lost between the two.
- `save_custom_codes` is the ghost field `saved`: the sequence of mappings
  handed to it, one per call.
- The duplicate check (streamlit_app.py:79) consults only `custom_codes`, the
  records added by users; no other records are consulted.
- A bad code gets one message, whether its length or its characters are wrong
  (streamlit_app.py:53-54).
- The dictionary is changed row by row, before the single save
  (streamlit_app.py:89). A save that fails is not modelled, so nothing is
  rolled back.

## Model

| member | source | states |
|---|---|---|
| `Validation.TrimStartSpec` | streamlit_app.py:48-49 | left-stripping drops a leading run of whitespace and nothing else, and the result does not start with whitespace |
| `Validation.TrimEndSpec` | streamlit_app.py:48-49 | right-stripping drops a trailing run of whitespace and nothing else, and the result does not end with whitespace |
| `Validation.StripByEnds` | streamlit_app.py:48-49 | removing whitespace from either end until neither end is whitespace is the same as `rstrip()` after `lstrip()` |
| `Validation.StripSpec` | streamlit_app.py:48-49 | `strip()` gives a slice of the cell with only whitespace around it, and no whitespace at either end of the result |
| `Validation.StripIdempotent` | streamlit_app.py:67-77 | stripping a stripped field changes nothing, so stored fields are already in stripped form |
| `Validation.StripIgnoresPadding` | streamlit_app.py:48-53 | whitespace padding around a cell never changes its stripped value, so it never changes a check |
| `Messages.Decimal` | streamlit_app.py:50-54 | the row number is written as non-empty decimal digits with no leading zero |
| `Messages.ParseDecimalOfDecimal` | streamlit_app.py:50-54 | reading the written row number back gives the number |
| `Messages.DecimalInjective` | streamlit_app.py:50-54 | distinct row numbers are written differently |
| `Messages.TextInjective` | streamlit_app.py:54-80 | two message lines are equal only if they name the same row and the same problem |
| `ImportProperties.OutcomeOrder` | streamlit_app.py:53-81 | checks run in the order code, url, year, existing code. The first failure is the row's problem. A row is added iff all four pass |
| `ImportProperties.BuildRecordFields` | streamlit_app.py:67-86 | each field of a new record is the stripped cell of its own column (url, media, year, series, secondary series, length, width, size category). So every field is stripped, and an absent secondary-series column gives `""` |
| `ImportProperties.StepGrows` | streamlit_app.py:53-87 | one row keeps every existing entry and appends at most one message, naming that row |
| `ImportProperties.RunAccounting` | streamlit_app.py:31-87 | after `n` rows, added + skipped = `n` and there is exactly one message per skipped row |
| `ImportProperties.RunExtends` | streamlit_app.py:79-86 | every entry present before the upload is still present with its original record |
| `ImportProperties.RunSize` | streamlit_app.py:79-87 | the custom codes grow by exactly the number added, so no addition overwrites a key |
| `ImportProperties.RunNewEntriesAdmissible` | streamlit_app.py:53-86 | every key the upload adds is 11 digits and its record has a non-empty url and a 4-digit year |
| `ImportProperties.ImportKeepsValidStore` | streamlit_app.py:53-86 | if every custom code was an 11-digit code before the upload, every one is afterwards |
| `ImportProperties.MessageRows` | streamlit_app.py:47-50 | messages name spreadsheet rows 2 .. n + 1, in strictly increasing order |
| `ImportProperties.RunGrows` | streamlit_app.py:47-87 | a later stage of the loop keeps all entries and messages of an earlier one. Any messages it adds name later rows |
| `ImportProperties.RowFate` | streamlit_app.py:47-87 | a skipped data row `i` gets the message for row `i + 2` with its problem, and an existing code keeps its record. An added row's record stays under its code, and no message names the row |
| `ImportProperties.IntraBatchDuplicate` | streamlit_app.py:79-81 | if two valid rows share a code, the later one is skipped as "Code exists" with its message |
| `ImportProperties.FirstOccurrenceAdded` | streamlit_app.py:79-86 | the first valid row whose code was not a custom code before is the one added, and the final codes map that code to the row's record |
| `ImportProperties.RunKeys` | streamlit_app.py:79-86 | the final keys are the old keys plus the codes of valid rows that were not custom codes before |
| `ImportProperties.AddedCountsNewCodes` | streamlit_app.py:79-87 | `added` is the number of distinct valid new codes in the sheet |
| `Catalogue.Import` | streamlit_app.py:24-89 | a missing required column rejects the sheet and leaves the codes unchanged. Otherwise the counts add up, old entries are kept, and the keys and the added count are as above |
| `Catalogue.Store.BulkUpload` | streamlit_app.py:24-89 | the loop computes `Import`. A rejected sheet saves nothing. A processed sheet saves the final codes exactly once, even if every row was skipped |

## Left out

- The upload widget, the instructions, the "Existing Codes" listing and the success and detail output (streamlit_app.py:2-16, 35-44, 90-93): these are display only.
- `pd.read_excel` and its error path (streamlit_app.py:19-22): file I/O in a foreign library.
- pandas turning cells into text: an empty cell becomes `"nan"`, a numeric code can lose leading zeros, and a float year becomes `"2020.0"`. Rows are taken as already-converted text.
- The wording of the missing-columns error (streamlit_app.py:29): it joins a Python set, so its order is unspecified. The model reports only `SchemaError`.
- The body of `save_custom_codes` and the loading of `custom_codes` at start-up: these are persistence not shown in the file. Saves are recorded as snapshots in a ghost field, and the constructor takes the loaded mapping.
- Unicode behaviour of `str.strip()` and `str.isdigit()`: the model strips only the ASCII characters Python treats as whitespace (space, tab, newline, vertical tab, form feed, carriage return and U+001C .. U+001F). Python also strips non-ASCII whitespace such as U+0085 and U+00A0. Only `'0'..'9'` count as digits, though Python's `isdigit()` also accepts other Unicode digits.
- Built-in default records and the add, edit and delete operations: the file does not have them, and its duplicate check consults only `custom_codes`.
