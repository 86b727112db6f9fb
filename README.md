# Row resolution and update for the AppSheet → Vertex AI processor

This project models, in Dafny, the spreadsheet core of a webhook service that
receives a row key and a text, has a generative model summarise the text, and
writes the result back into the row of a Google Sheets spreadsheet. It also models
the service's request gate. The model covers:

- **Column-letter codec** (`ColumnLetters`). `_column_index_to_letter` is the
  `while` loop `ColumnIndexToLetter`. It is proved equal to the bijective base-26
  function `Letters`. The inverse `LetterToIndex` is proved to undo `Letters`
  and to be undone by it. So every column position has exactly one letter
  string, and the result column and the processed-at column can never share a
  range address.
- **Header lookup** (`Sheets.IndexOf`, `Sheets.ColumnIndex`). The header row is
  row 1 of the sheet, and an empty sheet reads as an empty header row. The
  lookup returns the first cell equal to the name (exact comparison) or
  `ColumnNotFound`.
- **Primary-key row search** (`Sheets.ReadColumn`, `Sheets.FirstMatchingRow`,
  `Sheets.Sheet.FindRowByPk`). The key column is read by its letters, and the
  read gives one entry per row: `[value]` for a filled cell and `[]` for a blank
  one. The scan returns the first 1-based row whose entry is non-empty and
  equals the key. Row 1, the header, takes part in the scan, so a key equal to
  the key column's own header text is found in row 1. The model keeps this
  behaviour and proves it (`HeaderRowCanMatch`).
- **Row update** (`Sheets.Locate`, `Sheets.Batch`, `Sheets.Sheet.UpdateRow`).
  The key column is resolved first, then the result column. The processed-at
  column is the result column + 1. Then the row is searched. The outcome is a
  batch of two cell writes addressed by column letters and row number, and
  applying it to the grid changes exactly those two cells. Any failure leaves
  the grid unchanged. The sheet is a class `Sheet` whose `rows` field the
  batch write replaces.
- **Request gate** (`Auth`). `CheckSecret` is the decision inside
  `verify_webhook_secret`. The header is `Option<string>`, and the wrapped
  handler is a function value that is applied only when the header equals the
  configured secret. `ValidateRequestBody` is the required-field check.

A few facts about the source fix details of the model:

- The secret is read from the `X-AppSheet-Secret` header (src/auth.py:27).
- A column name missing from the header row raises `ValueError` (src/sheets.py:62-65). The model returns `ColumnNotFound` instead.
- The row scan skips rows whose key cell is blank (src/sheets.py:113).

The cell comparison is plain string equality. The API returns cells as strings,
and the key is a string parameter.

## Model

| member | source | states |
|---|---|---|
| `ColumnLetters.Digit` | src/sheets.py:79 | the letter for a digit 0..25 is in 'A'..'Z' and lies that many places after 'A' |
| `ColumnLetters.Letters` | src/sheets.py:77-81 | the encoding contains only letters 'A'..'Z'; it is non-empty exactly when the position is non-negative, and a negative position gives the empty string |
| `ColumnLetters.Value` | src/sheets.py:168-172 | the bijective base-26 value of a letter string is zero only for the empty string |
| `ColumnLetters.LetterToIndex` | src/sheets.py:168-172 | decoding a range's column letters gives a position >= -1, and -1 only for the empty string |
| `ColumnLetters.ColumnIndexToLetter` | src/sheets.py:68-81 | the prepend-and-divide loop returns exactly `Letters(index)`, for negative indices too |
| `ColumnLetters.LetterToIndexOfLetters` | src/sheets.py:77-81 | round trip: decoding the letters of any position n >= -1 gives back n |
| `ColumnLetters.LettersOfLetterToIndex` | src/sheets.py:77-81 | reverse round trip: every string of letters 'A'..'Z' is the encoding of the position it decodes to |
| `ColumnLetters.LettersInjective` | src/sheets.py:162-163 | distinct positions have distinct letters |
| `ColumnLetters.SpotValues` | src/sheets.py:75 | 0→A, 1→B, 25→Z, 26→AA, 27→AB, 51→AZ, 701→ZZ, 702→AAA |
| `Sheets.IndexOf` | src/sheets.py:63 | `list.index`: the result holds the name and no earlier position does; None exactly when the name is absent |
| `Sheets.Header` | src/sheets.py:55-60 | the header row holds exactly the cells of row 1, and an empty sheet has an empty header row |
| `Sheets.ColumnIndex` | src/sheets.py:38-65 | the result is the first header cell equal to the column name; ColumnNotFound(name) exactly when the header row, empty for an empty sheet, lacks the name |
| `Sheets.ColumnIndexExamples` | src/sheets.py:60-65 | "status" in id,name,status resolves to 2; "missing" and any name on an empty sheet fail with ColumnNotFound |
| `Sheets.ReadColumn` | src/sheets.py:104-110 | the column read has one entry per row of the sheet; an entry is empty exactly when that row's cell in the column is blank, and otherwise holds that cell |
| `Sheets.ReadColumnByLetters` | src/sheets.py:102-110 | reading the `{L}:{L}` range gives one entry per row; an entry is empty exactly when that row's cell in the decoded column is blank, and otherwise holds that cell |
| `Sheets.FirstMatchingRow` | src/sheets.py:112-116 | the result r is in 1..\|values\|, row r-1 is non-empty with first cell equal to the key, and no earlier row is; None exactly when no row matches |
| `Sheets.RowSearchByCells` | src/sheets.py:104-116 | on the sheet's cells: the found row's key cell equals the key and no earlier row's does; not found exactly when the key is blank or no row holds it |
| `Sheets.HeaderRowCanMatch` | src/sheets.py:112-114 | a key equal to the key column's header text is found in row 1 |
| `Sheets.RowSearchExamples` | src/sheets.py:112-116 | key "7" in id,7,3,7 is row 2, not row 4; "99" is not found; "id" is row 1 |
| `Sheets.SetCell` | src/sheets.py:166-175 | setting one cell of a row gives that cell the value, keeps every other cell, and pads a short row with blanks |
| `Sheets.ApplyWrite` | src/sheets.py:166-182 | one range write keeps the sheet's number of rows |
| `Sheets.ApplyWriteCells` | src/sheets.py:166-182 | one range write changes the cell at its row and decoded column and no other cell |
| `Sheets.ApplyBatch` | src/sheets.py:177-182 | a batch write keeps the sheet's number of rows |
| `Sheets.Locate` | src/sheets.py:147-159 | the processed-at position is the result position + 1, and the found row exists in the sheet |
| `Sheets.LocateFailures` | src/sheets.py:149-159 | a missing key column fails first, then a missing result column, and RowNotFound happens exactly when both columns exist and no row's key cell holds the key |
| `Sheets.LocateSucceeds` | src/sheets.py:147-159 | the update goes ahead exactly when both columns are in the header row, the key is non-empty and some key cell equals it |
| `Sheets.LocateSuccess` | src/sheets.py:149-159 | on success both columns exist, the target's result position is the result column's header position, and the row is the first whose key cell equals the key |
| `Sheets.Batch` | src/sheets.py:166-175 | the batch has exactly two entries, both in the target row, each addressed by a non-empty column-letter string; the first carries the result value and the second the processed-at time |
| `Sheets.BatchAddresses` | src/sheets.py:161-175 | the two batch entries decode to the result position and the position after it, so their ranges differ; they carry the result value and the processed-at time |
| `Sheets.AdjacentPairWrite` | src/sheets.py:166-182 | two writes into adjacent cells of one row set those two cells and leave every other cell unchanged |
| `Sheets.BatchChangesTwoCells` | src/sheets.py:162-182 | applying the batch sets (row, result) to the result and (row, result+1) to the processed-at time; every other cell of every row is unchanged |
| `Sheets.Sheet.FindRowByPk` | src/sheets.py:84-116 | the `for` scan over the column read by letters returns the first matching 1-based row, header row included, or None exactly when no filled key cell equals the key |
| `Sheets.Sheet.ResolveTarget` | src/sheets.py:147-159 | the two header lookups and the row search, in the source's order, return exactly `Locate` of the sheet |
| `Sheets.Sheet.WriteResult` | src/sheets.py:161-182 | the batch write leaves the sheet equal to the old sheet with the two entries of `Batch` applied |
| `Sheets.Sheet.UpdateRow` | src/sheets.py:119-191 | on a resolution failure the error is returned and the sheet is unchanged; otherwise the sheet becomes the old sheet with the two-entry batch applied |
| `Auth.CheckSecret` | src/auth.py:23-38 | the handler's result is returned exactly when the header is present, non-empty and equal to the secret; a missing or empty header gives 403 with the missing-header error, and any other mismatch gives 403 with the verification error |
| `Auth.MissingFields` | src/auth.py:58 | a field is listed exactly when it is required and is not a key of the body |
| `Auth.MissingFieldsAppend` | src/auth.py:58-60 | the listing keeps the order of the required fields: it distributes over concatenation |
| `Auth.Join` | src/auth.py:60 | `', '.join`: nothing for no parts; otherwise the output starts with the first part and its length is the parts' total length plus one separator between each neighbouring pair |
| `Auth.JoinAppend` | src/auth.py:60 | joining a list with one more part appends the separator and that part, so the parts appear in order |
| `Auth.ValidateRequestBody` | src/auth.py:45-62 | an absent or empty body is refused with the empty-body message even when nothing is required; otherwise the body is valid exactly when every required field is a key; a valid result carries "" and a refusal lists the missing fields in order |
| `Auth.ValidatorExamples` | src/auth.py:55-62 | a complete body passes; a body without "text" is refused naming "text"; an empty body with no required fields is still refused |

## Left out

- The Sheets client (`_get_sheets_service`, src/sheets.py:13-35) and its process-wide cache are Google authentication and client set-up. The model works on one in-memory sheet instead.
- The spreadsheet id and the `{sheet_name}!` prefix of every range are not modelled, because the model holds a single sheet. A write is its column letters and its row number.
- API failures (`HttpError`) and quota or transport errors are not modelled: every read and the batch write succeed. The store's atomicity for a multi-range batch is not modelled either: the batch is applied as a whole.
- The key-column read is modelled as one entry per row with `[]` for a blank cell. The API's trimming of trailing blank rows is not modelled. The trimmed entries are blank, so they never match and never change the row search.
- `Sheets.ColumnIndex`: the header row is modelled as stored, trailing blank cells included, whereas the API trims them. So an empty column name can match a trailing blank header cell that the API would trim. src/config.py:48-50 refuses empty column names, so the program never asks for one.
- A cell holding the empty string counts as blank. In the one-column key read the API drops a blank cell, so that row comes back empty and never matches, not even the key "". Row reads such as the header keep a blank cell that lies between filled cells as "", and so does the model.
- `str()` coercion of the key: the model's key is a string. The caller in src/main.py:59 may pass a JSON number, which Python stringifies. That conversion is not part of this model.
- The sheet's column limit is not modelled. A write right of a row's last cell pads the row with blank cells. The store might instead refuse a write beyond the grid.
- `Sheets.ApplyBatch`: its own contract states only that the number of rows is kept. What each write changes is stated by `ApplyWriteCells`, `AdjacentPairWrite` and `BatchChangesTwoCells`.
- `hmac.compare_digest` is modelled as plain string equality. Its constant-time behaviour is not modelled, and neither is the `TypeError` it raises for non-ASCII strings.
- The request body is modelled as an optional map from field names to values. JSON bodies that are not objects (a list, a string, a number) are not modelled.
- Logging throughout src/sheets.py and src/auth.py is left out, because it has no effect on results.
- src/main.py is not part of this model: Flask routing, JSON parsing, the `datetime.now` timestamp (the model treats `processed_at` as an opaque string) and its inline copy of the secret check. Concurrency and last-write-wins races between requests are left out too.
- src/vertex_ai.py (the generative-model call) and src/config.py (environment variables and logging set-up) are not part of this model. They are foreign calls and configuration.
