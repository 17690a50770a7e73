# Receipt manager: a verified model of the client and parser logic

This project models the logic of a receipt manager written as a React front end over a FastAPI back end. Receipts are photographed and analysed into line items; card statements arrive as CSV files that are masked, mapped, parsed and saved month by month into a Google spreadsheet. The model covers the parts of that system that hold behaviour of their own:

- **Receipt upload queue** (`useReceiptUploader`, module `ReceiptUpload`). Upload tasks are created from selected files, analysed into receipts, then reviewed one receipt at a time. Save and skip move a review cursor through a task's receipts and remove the task after its last receipt.
- **CSV upload hook** (`useCsvUploader`, modules `CsvBatch` and `CsvUpload`). It holds the editable table of extracted rows and the column-mapping presets (save, rename, delete). It also holds the batch save: prices are coerced, rows are grouped by month in first-seen order, and the groups are submitted strictly in sequence. A 429 waits and resends the same month; any other error aborts.
- **Back-end CSV row parser** (`CsvService.parse_csv`, module `CsvService`). It skips the header, short rows and rows with blank fields. It reads the price from its digits alone, drops zero prices and formats the parsed date.
- **CSV sample masker** (`maskCsvData`, module `CsvMask`). It keeps the header line and masks up to `rowsToProcess` data lines field by field: digits of dates become `1`, digits of amounts become `9`, and anything else becomes `Sample_Text`.
- **Numeric input normaliser** (`NumberInput`, module `NumberInput`), the spreadsheet URL ↔ id pair and its settings dialog (`SettingsModel`, module `SpreadsheetSettings`), the receipt edit buffer (`ReceiptEditor`, module `ReceiptEditing`) and the request-header gate (`useApiConfig`, module `ApiConfig`).

Stateful hooks and components are classes whose fields are the React state variables. Each handler is a method whose postcondition gives the whole new state as an update of a ghost `Snapshot()` of the old one, so "nothing else changes" is part of every contract. Loops in the source are loops here:
- the row loop of `parse_csv`;
- the grouping `forEach`;
- the retrying `while` loop of the batch save and its countdown;
- the `forEach` that starts the analyses.

Each of those loops is proved against a specification function (`Parsed`, `Bucket`/`FirstSeenKeys`, `Run`, `StartAll`), and the lemmas below state what the source promises about those functions.

Things outside the browser are parameters:
- the answer of each network call, as an outcome value or a sequence of answers;
- the user and the ids drawn by `crypto.randomUUID`;
- the preview URLs;
- `dateutil`'s date parser, as an oracle function;
- `csv.reader`, as the sequence of rows it yields.

Modules `Text`, `Seqs`, `Wrappers`, `Receipts` and `Browser` hold the shared string operations, sequence operations, `Option`, the receipt records and the `localStorage` slot.

## Model

| member | source | states |
|---|---|---|
| ApiConfig.GetHeaders | frontend/src/hooks/useApiConfig.ts:6-26 | The spreadsheet prompt is raised exactly when the stored id is missing or empty, and the login prompt exactly when the id is present but the token is missing. Otherwise the result has exactly the two headers, `x-access-token` set to the token and `x-spreadsheet-id` set to the id. |
| Text.JsTrim | frontend/src/features/csv/utils/csvMask.ts:19 | The result has no JavaScript white space at either end, and a string without such white space is returned unchanged. |
| Text.DigitsOnly | frontend/src/components/ui/NumberInput.tsx:22 | The result holds digits only, is no longer than the input, equals an all-digit input, and is empty exactly when the input has no digit. |
| Text.DigitsOnlyChar | frontend/src/components/ui/NumberInput.tsx:22 | A single character is kept exactly when it is a digit. |
| Text.DigitsOnlyAppend | frontend/src/components/ui/NumberInput.tsx:22 | Removing non-digits from a concatenation is the concatenation of the two results. Together with `DigitsOnlyChar`, the result is the input's own digits, in their order. |
| Text.DigitsOnlyDropsNonDigit | backend/app/services/csv_service.py:35 | Removing one non-digit character anywhere in the text does not change its digits. |
| Text.DigitsOnlyOfRun | backend/app/services/csv_service.py:35 | A run of digits surrounded by digit-free text keeps exactly that run. |
| Text.ReplaceDigits | frontend/src/features/csv/utils/csvMask.ts:23 | The length is kept; each digit becomes the replacement and every other character stays in place. |
| Text.SplitJoin | frontend/src/features/csv/utils/csvMask.ts:16-34 | Joining parts that do not contain the separator, then splitting on it, gives the parts back. |
| NumberInput.Truncate | frontend/src/components/ui/NumberInput.tsx:29-31 | The result is a prefix of the text, at most `maxLength` long when `maxLength` is non-zero, and the text itself when `maxLength` is 0 or not exceeded. |
| NumberInput.Normalize | frontend/src/components/ui/NumberInput.tsx:19-31 | The field is left holding digits only, at most `maxLength` of them. It is empty exactly when the typed text has no digit, and otherwise has no leading zero unless it is `"0"`. When the typed digits do not start with a zero, the field holds exactly those digits, cut to `maxLength`. |
| NumberInput.Emit | frontend/src/components/ui/NumberInput.tsx:33 | `''` is reported exactly when the field is empty. Otherwise the number reported prints back as the text left in the field, and it stays below 10^maxLength. |
| NumberInput.LeadingZerosDropped | frontend/src/components/ui/NumberInput.tsx:24-27 | A digit run of length > 1 starting with `0` loses every leading zero, and an all-zero run becomes `"0"`. |
| NumberInput.EmitIdempotent | frontend/src/components/ui/NumberInput.tsx:19-33 | Typing the decimal text of a reported number back in reports the same number; an empty report stays empty. |
| SpreadsheetSettings.IdRun | frontend/src/components/SettingsModel.tsx:6 | The greedy `[a-zA-Z0-9-_]+` run: a prefix made of id characters, followed by the end of the text or a non-id character. |
| SpreadsheetSettings.ExtractSpreadsheetId | frontend/src/components/SettingsModel.tsx:3-12 | The input is trimmed. An id is found exactly when the trimmed text starts with the share-URL prefix followed by an id character. The id is then non-empty, made of id characters, directly follows the prefix, and is followed by the end of the text or a non-id character. |
| SpreadsheetSettings.ExtractAfterPrefix | frontend/src/components/SettingsModel.tsx:5-10 | After any prefix, the id run is non-empty exactly when an id character follows the prefix, and then it is the maximal such run. |
| SpreadsheetSettings.BuildSpreadsheetUrl | frontend/src/components/SettingsModel.tsx:14-16 | The URL is `""` exactly for a missing or empty id, and otherwise it is the prefix followed by the id. |
| SpreadsheetSettings.ExtractBuildRoundTrip | frontend/src/components/SettingsModel.tsx:3-16 | Extracting from the URL built for any valid id gives that id back. |
| SpreadsheetSettings.ExtractIsCanonical | frontend/src/components/SettingsModel.tsx:3-16 | An id extracted from any pasted text survives rebuilding the URL and extracting again. |
| SpreadsheetSettings.SettingsModal.constructor | frontend/src/components/SettingsModel.tsx:29 | The field starts as the share URL of the current id. |
| SpreadsheetSettings.SettingsModal.HandleSave | frontend/src/components/SettingsModel.tsx:31-47 | An empty field or a text without an id stores and reports nothing. Otherwise the extracted id, not the pasted text, is stored under `spreadsheetId` and reported. |
| CsvMask.MaskValueChars | frontend/src/features/csv/utils/csvMask.ts:19-31 | A field with a date match anywhere keeps every character except that each digit becomes `1`. Failing that, an amount made only of `-`, digits, `,`, `¥`, `￥` and `.` gets each digit replaced by `9`. Anything else becomes `Sample_Text`. |
| CsvMask.MaskFieldHidesDigits | frontend/src/features/csv/utils/csvMask.ts:18-32 | A masked field shows no digit other than `1` or `9`. |
| CsvMask.MaskCsvData | frontend/src/features/csv/utils/csvMask.ts:8-10 | The output is `""` exactly when the input has no non-blank line. |
| CsvMask.SplitLinesLackBreaks | frontend/src/features/csv/utils/csvMask.ts:8 | Splitting on CR LF, LF and CR leaves no line break in any line. |
| CsvMask.SplitLinesOnLf | frontend/src/features/csv/utils/csvMask.ts:8 | Without carriage returns, line splitting is splitting on LF. |
| CsvMask.DateShapeKept | frontend/src/features/csv/utils/csvMask.ts:1-24 | Replacing digits by a digit does not change whether the date pattern occurs. |
| CsvMask.MoneyShapeKept | frontend/src/features/csv/utils/csvMask.ts:2-29 | Replacing digits by a digit does not change whether a field is an amount. |
| CsvMask.NoDigitNoDate | frontend/src/features/csv/utils/csvMask.ts:1 | A text without digits has no date match. |
| CsvMask.MaskValueShape | frontend/src/features/csv/utils/csvMask.ts:19-31 | The mask of a trimmed value is non-empty with no white space at either end. |
| CsvMask.MaskFieldShape | frontend/src/features/csv/utils/csvMask.ts:18-32 | A masked field is non-empty and trimmed. It contains no non-digit character that is missing from both its source field and `Sample_Text`. |
| CsvMask.MaskedDateFixed | frontend/src/features/csv/utils/csvMask.ts:22-24 | A masked date masks to itself. |
| CsvMask.MaskedMoneyFixed | frontend/src/features/csv/utils/csvMask.ts:27-29 | A masked amount masks to itself. |
| CsvMask.SampleTextFixed | frontend/src/features/csv/utils/csvMask.ts:31 | `Sample_Text` masks to itself. |
| CsvMask.MaskValueIdempotent | frontend/src/features/csv/utils/csvMask.ts:22-31 | Masking a trimmed value twice is masking it once. |
| CsvMask.MaskFieldIdempotent | frontend/src/features/csv/utils/csvMask.ts:18-32 | Masking a field twice is masking it once. |
| CsvMask.MaskedFields | frontend/src/features/csv/utils/csvMask.ts:16-32 | There is one masked field per comma-separated field of the line. |
| CsvMask.MaskLineFields | frontend/src/features/csv/utils/csvMask.ts:16-34 | Splitting a masked line on commas gives exactly its masked fields, as many as the source line has. |
| CsvMask.MaskedFieldsLack | frontend/src/features/csv/utils/csvMask.ts:16-32 | No masked field holds a comma, or a line break that its line lacks. |
| CsvMask.MaskLineIdempotent | frontend/src/features/csv/utils/csvMask.ts:15-35 | Masking a line twice is masking it once. |
| CsvMask.MaskLineShape | frontend/src/features/csv/utils/csvMask.ts:15-35 | A line without line breaks masks to a non-blank line without line breaks. |
| CsvMask.MaskedLinesAt | frontend/src/features/csv/utils/csvMask.ts:8-37 | The output lines are the first non-blank line, then `min(rowsToProcess, n - 1)` masked lines, where line k is the mask of non-blank line k. |
| CsvMask.MaskedLinesShape | frontend/src/features/csv/utils/csvMask.ts:8-37 | Every output line is non-blank and free of line breaks. |
| CsvMask.MaskedOutputLines | frontend/src/features/csv/utils/csvMask.ts:8-37 | The output, read back line by line, is the header verbatim followed by at most `rowsToProcess` lines. These are the next non-blank input lines in order, each masked. |
| CsvMask.JoinedLinesReread | frontend/src/features/csv/utils/csvMask.ts:37 | Lines without line breaks, joined with LF, split back into the same lines. |
| CsvMask.LinesLackBreaks | frontend/src/features/csv/utils/csvMask.ts:8 | The kept lines are non-blank and free of line breaks. |
| CsvMask.OutputLinesReread | frontend/src/features/csv/utils/csvMask.ts:8-37 | The non-blank lines of the output are exactly the output lines. |
| CsvMask.OutputLinesFixed | frontend/src/features/csv/utils/csvMask.ts:4-38 | Selecting and masking the output's lines again gives the same lines. |
| CsvMask.MaskLinesAt | frontend/src/features/csv/utils/csvMask.ts:12-37 | The first line is kept, then `min(rowsToProcess, n - 1)` lines follow, line k being the mask of input line k. |
| CsvMask.HeadThenMappedAt | frontend/src/features/csv/utils/csvMask.ts:12-15 | Keeping the first line and mapping the next `n` lines gives `1 + min(n, len - 1)` lines, in order. |
| CsvMask.MaskLinesIdempotent | frontend/src/features/csv/utils/csvMask.ts:12-35 | Selecting and masking lines twice is doing it once. |
| CsvMask.MaskCsvIdempotent | frontend/src/features/csv/utils/csvMask.ts:4-38 | Masking an already masked sample with the same `rowsToProcess` changes nothing. |
| CsvService.MaxColIndex | backend/app/services/csv_service.py:14-18 | The result is the largest of the three indices, with a missing key counting as 0. |
| CsvService.PyIndex | backend/app/services/csv_service.py:28-30 | `row[index]` succeeds exactly when `-len(row) <= index < len(row)`; negative indices count from the end. |
| CsvService.Pad2 | backend/app/services/csv_service.py:42 | `%m`/`%d` print two digits whose value is the number. |
| CsvService.ParseRow | backend/app/services/csv_service.py:20-55 | A transaction emitted for a row has a positive price and a store that is neither empty nor `-`. |
| CsvService.TryRow | backend/app/services/csv_service.py:27-55 | The same, for the `try` block: a missing key or an index outside the row skips the row. |
| CsvService.ParseFields | backend/app/services/csv_service.py:32-51 | The same, for the checks on the three stripped fields. |
| CsvService.Parsed | backend/app/services/csv_service.py:10-57 | At most one transaction per input row. |
| CsvService.ParseCsv | backend/app/services/csv_service.py:10-57 | The `for`/`continue` loop returns exactly `Parsed(rows)`, the transactions of the kept rows in order. |
| CsvService.ProcessRow | backend/app/services/csv_service.py:27-55 | One `try` block appends exactly what `TryRow` yields. |
| CsvService.ProcessFields | backend/app/services/csv_service.py:32-51 | The field checks, price and date parse yield exactly `ParseFields`. |
| CsvService.ParsedStep | backend/app/services/csv_service.py:20-51 | One more row adds its own transaction, if any, after those of the earlier rows. |
| CsvService.HeaderRow | backend/app/services/csv_service.py:21-22 | With `has_header`, row 0 yields nothing. Without it, row 0 is treated like any other row, and rows after 0 never depend on the flag. |
| CsvService.ShortRowSkipped | backend/app/services/csv_service.py:14-25 | A row with no more cells than a mapped index (a missing key counting as 0) is skipped. |
| CsvService.MissingKeySkipsAll | backend/app/services/csv_service.py:27-55 | Without one of the three index keys, the `KeyError` skips every row. |
| CsvService.BlankFieldSkipped | backend/app/services/csv_service.py:28-33 | An empty stripped date, store or price, or a store equal to `-`, skips the row. |
| CsvService.ZeroPriceSkipped | backend/app/services/csv_service.py:35-38 | A price without a non-zero digit skips the row. |
| CsvService.RowKept | backend/app/services/csv_service.py:27-51 | A row past the header, length and blank checks yields a transaction exactly when its price is non-zero and its date parses. That transaction is the formatted date, the stripped store and the digit value of the price. |
| CsvService.RowReachesFields | backend/app/services/csv_service.py:27-30 | Once the header and length checks pass and all keys are present, the row is decided by its three stripped fields alone. |
| CsvService.FieldsKept | backend/app/services/csv_service.py:32-51 | With a date and a usable store, a transaction is emitted exactly when the price is non-zero and the date parses, and its content is as above. |
| CsvService.PriceIgnoresNonDigits | backend/app/services/csv_service.py:35-36 | Dropping any one non-digit character (a sign, a comma, `¥`) anywhere in the price field leaves the price unchanged. |
| CsvService.PriceOfDigitRun | backend/app/services/csv_service.py:35-36 | A price field made of one run of digits surrounded by digit-free text has the decimal value of that run. |
| CsvService.FormatDateShape | backend/app/services/csv_service.py:42 | `%Y-%m-%d` is the year, `-`, two month digits, `-`, two day digits. |
| CsvService.FormatDateInjective | backend/app/services/csv_service.py:42 | Different dates never format the same. |
| CsvService.FormatDateMonthPrefix | backend/app/services/csv_service.py:42 | From year 1000 on, a formatted date has 10 characters, and its first 7 are `YYYY-MM`. |
| CsvService.SameMonthPrefix | backend/app/services/csv_service.py:42 | From year 1000 on, two formatted dates share their first seven characters exactly when they have the same year and month. This is the key the front end groups by. |
| CsvService.ParsedWellFormed | backend/app/services/csv_service.py:32-51 | Every emitted transaction has a positive price and a store other than `-`. |
| CsvService.ParsedIsSubsequence | backend/app/services/csv_service.py:20-51 | The output is an order-preserving subsequence of the rows: transaction j comes from kept row `kept[j]`, the indices increase, and a row is kept exactly when it yields a transaction. |
| CsvBatch.Coerce | frontend/src/features/csv/hooks/useCsvUploader.ts:257-260 | A blank price becomes 0, a number is kept, and the date and store are unchanged. |
| CsvBatch.FinalData | frontend/src/features/csv/hooks/useCsvUploader.ts:257-260 | The rows keep their count and order, each one coerced. |
| CsvBatch.MonthKey | frontend/src/features/csv/hooks/useCsvUploader.ts:264 | `substring(0, 7)` is a prefix of at most 7 characters, and exactly 7 for a date at least that long. |
| CsvBatch.GroupByMonth | frontend/src/features/csv/hooks/useCsvUploader.ts:262-271 | The `forEach`/`push` loop yields the keys in first-seen order, exactly the months present, each mapped to its rows in input order. |
| CsvBatch.BucketStep | frontend/src/features/csv/hooks/useCsvUploader.ts:263-269 | One more row joins the end of its own month's group and no other. |
| CsvBatch.UnseenKeyEmptyBucket | frontend/src/features/csv/hooks/useCsvUploader.ts:265-267 | A month not yet met has no rows. |
| CsvBatch.FirstSeenKeysExact | frontend/src/features/csv/hooks/useCsvUploader.ts:262-271 | The month keys are pairwise distinct and are exactly the keys of the rows. |
| CsvBatch.FirstSeenKeysPrefix | frontend/src/features/csv/hooks/useCsvUploader.ts:262-271 | The keys of a prefix of the rows come first, in the same order. |
| CsvBatch.MonthGroupsPartition | frontend/src/features/csv/hooks/useCsvUploader.ts:262-269 | Every row lands in exactly one group: together the groups hold each row as often as the table does. |
| CsvBatch.MonthGroupsHomogeneous | frontend/src/features/csv/hooks/useCsvUploader.ts:262-269 | Every group is non-empty and holds only rows of its month. |
| CsvBatch.BucketsPartition | frontend/src/features/csv/hooks/useCsvUploader.ts:262-269 | Grouping by distinct keys that cover every row partitions the rows. |
| CsvBatch.Run | frontend/src/features/csv/hooks/useCsvUploader.ts:274-303 | The saved count never decreases and never exceeds the number of groups. There is at most one attempt per answer, and an aborted run stops short of the end. |
| CsvBatch.RunInOrder | frontend/src/features/csv/hooks/useCsvUploader.ts:276-303 | The first attempt sends the current group. After a success the next attempt sends the next group, and after a 429 it resends the same group. A failure is always the last attempt, and the run aborts exactly when its last answer was a failure, stopping at that group. |
| CsvBatch.RunCountsSuccesses | frontend/src/features/csv/hooks/useCsvUploader.ts:283-284 | `progress.current` ends at the number of successful attempts and never exceeds the total. |
| CsvBatch.RunAllSaved | frontend/src/features/csv/hooks/useCsvUploader.ts:276-284 | With only successes, every group is sent once in order and the run completes without waiting. |
| CsvBatch.RunRetry | frontend/src/features/csv/hooks/useCsvUploader.ts:286-294 | A 429 costs one wait and one resend of the same group and changes nothing else about the run. |
| CsvBatch.RunAdvance | frontend/src/features/csv/hooks/useCsvUploader.ts:276-294 | An attempt that does not fail moves the loop one answer on, to the next group after a success or the same group after a 429. |
| CsvBatch.RunDone | frontend/src/features/csv/hooks/useCsvUploader.ts:276 | When every group is saved or the answers run out, the run ends where it stands, not aborted. |
| CsvBatch.RunStopsAtFailure | frontend/src/features/csv/hooks/useCsvUploader.ts:295-301 | A failing attempt ends the run, aborted at that group. |
| CsvUpload.FindPresetFirst | frontend/src/features/csv/hooks/useCsvUploader.ts:94 | `find` returns the first preset with the id, and nothing exactly when no preset has it. |
| CsvUpload.RenameChangesOnlyTarget | frontend/src/features/csv/hooks/useCsvUploader.ts:196-200 | Renaming keeps the length, order, ids, users and mappings, and changes only the names of presets with the target id. |
| CsvUpload.RenameLeavesNameUnique | frontend/src/features/csv/hooks/useCsvUploader.ts:180-200 | After a rename that passed the duplicate check, only the target carries the new name. |
| CsvUpload.DeleteRemovesExactly | frontend/src/features/csv/hooks/useCsvUploader.ts:224 | Deleting removes every preset with the id and keeps every other one. |
| CsvUpload.DeleteAbsentIsNoop | frontend/src/features/csv/hooks/useCsvUploader.ts:224 | Deleting an id that no preset has changes nothing. |
| CsvUpload.EditChangesOneField | frontend/src/features/csv/hooks/useCsvUploader.ts:235 | A row edit changes exactly the edited field. |
| CsvUpload.UnfinishedSaveKeepsTable | frontend/src/features/csv/hooks/useCsvUploader.ts:305-315 | A run that stops short neither resets the table nor opens the preset dialog, and progress shows the saved count. |
| CsvUpload.EmptyTableCompletes | frontend/src/features/csv/hooks/useCsvUploader.ts:262-305 | An empty table has no groups, so the save completes at once. |
| CsvUpload.CompletedSave | frontend/src/features/csv/hooks/useCsvUploader.ts:305-313 | After a complete save, a new mapping with no preset selected opens the preset dialog and keeps the table. Otherwise the table, text and mapping are cleared. |
| CsvUpload.CsvUploader.constructor | frontend/src/features/csv/hooks/useCsvUploader.ts:16-40 | The initial state, with the presets the mount effect loaded. |
| CsvUpload.CsvUploader.HandleReset | frontend/src/features/csv/hooks/useCsvUploader.ts:244-249 | Clears the table, the text and the mapping; nothing else changes. |
| CsvUpload.CsvUploader.HandleAnalyze | frontend/src/features/csv/hooks/useCsvUploader.ts:89-112 | Without text nothing happens. Otherwise the request carries the mapping of the selected preset, if one matches. A non-empty result replaces the table and the mapping; an empty result or an error changes nothing but `isAnalyzing`. |
| CsvUpload.CsvUploader.HandleSavePreset | frontend/src/features/csv/hooks/useCsvUploader.ts:114-153 | Needs a non-blank trimmed name and a mapping. A duplicate name only warns. With a user, the untrimmed name is inserted. A stored record is appended and the dialog is closed and reset; any failure changes nothing. |
| CsvUpload.CsvUploader.AddSavedPreset | frontend/src/features/csv/hooks/useCsvUploader.ts:146-152 | Appends the record, closes the dialog, clears the name and resets the table. |
| CsvUpload.CsvUploader.HandleSkipPresetSave | frontend/src/features/csv/hooks/useCsvUploader.ts:155-159 | Closes the dialog, clears the name and resets the table. |
| CsvUpload.CsvUploader.OpenRenameModal | frontend/src/features/csv/hooks/useCsvUploader.ts:161-164 | Sets the target and starts the field with the current name. |
| CsvUpload.CsvUploader.CloseRenameModal | frontend/src/features/csv/hooks/useCsvUploader.ts:166-169 | Clears the target and the field. |
| CsvUpload.CsvUploader.ExecuteRenamePreset | frontend/src/features/csv/hooks/useCsvUploader.ts:171-202 | A blank or unchanged trimmed name just closes the dialog. A name another preset has is refused with nothing changed. Otherwise the update is sent, and on success only the target is renamed and the dialog closes; a store error changes nothing. |
| CsvUpload.CsvUploader.OpenDeleteModal | frontend/src/features/csv/hooks/useCsvUploader.ts:204-206 | Sets the delete target. |
| CsvUpload.CsvUploader.CloseDeleteModal | frontend/src/features/csv/hooks/useCsvUploader.ts:208-210 | Clears the delete target. |
| CsvUpload.CsvUploader.ExecuteDeletePreset | frontend/src/features/csv/hooks/useCsvUploader.ts:212-227 | On success, removes every preset with the target id, clears the selection only if it was that id, and closes the dialog. A store error changes nothing. |
| CsvUpload.CsvUploader.HandleDataChange | frontend/src/features/csv/hooks/useCsvUploader.ts:229-237 | Only the edited field of row `index` changes. |
| CsvUpload.CsvUploader.HandleDeleteRow | frontend/src/features/csv/hooks/useCsvUploader.ts:239-242 | Drops row `index` and keeps the others in order. |
| CsvUpload.CsvUploader.WaitOutRateLimit | frontend/src/features/csv/hooks/useCsvUploader.ts:287-294 | 91 one-second ticks count `waitTime` down from 90 to 0, after which `isWaiting` is off. |
| CsvUpload.CsvUploader.AfterAttempt | frontend/src/features/csv/hooks/useCsvUploader.ts:280-294 | A success moves `currentIdx` and `progress` on; a 429 waits and keeps the same month. |
| CsvUpload.CsvUploader.SubmitMonths | frontend/src/features/csv/hooks/useCsvUploader.ts:271-303 | The `while` loop makes exactly the attempts `Run` describes, and attempt j sends the rows of the month `Run` names. `progress` ends at the saved count; a loop that waited leaves `isWaiting` off and `waitTime` at 0. |
| CsvUpload.CsvUploader.HandleSaveClick | frontend/src/features/csv/hooks/useCsvUploader.ts:251-316 | Without headers nothing happens. Otherwise the coerced rows are grouped by month and submitted as `Run` orders the attempts, and the final state is the completion branch applied to the submitted state. |
| CsvUpload.CsvUploader.FinishSave | frontend/src/features/csv/hooks/useCsvUploader.ts:305-315 | The completion branch, then `isSaving` drops. |
| ReceiptEditing.NumberOf | frontend/src/features/receipt/components/ReceiptEditor.tsx:21 | `Number("")` is 0; a negative text reads as a value at most 0 and any other text as a value at least 0. |
| ReceiptEditing.PriceTextRoundTrip | frontend/src/features/receipt/components/ReceiptEditor.tsx:21 | The text shown for a price reads back as the same price. |
| ReceiptEditing.InitialState | frontend/src/features/receipt/components/ReceiptEditor.tsx:12-14 | The date and store default to `""` and the items to `[]`. |
| ReceiptEditing.TotalAppend | frontend/src/features/receipt/components/ReceiptEditor.tsx:16 | The total of two lists in a row is the sum of their totals. |
| ReceiptEditing.BlankItemKeepsTotal | frontend/src/features/receipt/components/ReceiptEditor.tsx:33-35 | Appending the blank item leaves the total unchanged. |
| ReceiptEditing.DeleteLowersTotal | frontend/src/features/receipt/components/ReceiptEditor.tsx:28-31 | Deleting item i lowers the total by its price. |
| ReceiptEditing.ReplaceAdjustsTotal | frontend/src/features/receipt/components/ReceiptEditor.tsx:18-26 | Replacing item i moves the total by the change in its price. |
| ReceiptEditing.EditAdjustsTotal | frontend/src/features/receipt/components/ReceiptEditor.tsx:18-26 | A name edit keeps the total; a price edit moves it by the difference. |
| ReceiptEditing.ReceiptEditor.constructor | frontend/src/features/receipt/components/ReceiptEditor.tsx:12-14 | The buffer starts from `initialData` with its defaults. |
| ReceiptEditing.ReceiptEditor.HandleItemChange | frontend/src/features/receipt/components/ReceiptEditor.tsx:18-26 | Only the edited field of item `index` changes: a price is stored as `Number(text)` and a name as given. The total moves accordingly. |
| ReceiptEditing.ReceiptEditor.HandleDeleteItem | frontend/src/features/receipt/components/ReceiptEditor.tsx:28-31 | Removes exactly item `index`, keeps the rest in order, and lowers the total by its price. |
| ReceiptEditing.ReceiptEditor.HandleAddItem | frontend/src/features/receipt/components/ReceiptEditor.tsx:33-35 | Appends `{"", 0}`, leaving the total unchanged. |
| ReceiptEditing.ReceiptEditor.HandleSaveClick | frontend/src/features/receipt/components/ReceiptEditor.tsx:37-44 | Hands on the current date, store and items, with no validation. |
| ReceiptUpload.Analyzed | frontend/src/features/receipt/hooks/useReceiptUploader.ts:53-86 | The task becomes a success exactly when one receipt or more came back, holding them. It stays analyzing exactly on a 401/403. Every other outcome is an error, and the id and files never change. |
| ReceiptUpload.StartAll | frontend/src/features/receipt/hooks/useReceiptUploader.ts:89-95 | Tasks that are not idle are untouched; every idle task leaves idle; ids and positions are kept. |
| ReceiptUpload.NewTasks | frontend/src/features/receipt/hooks/useReceiptUploader.ts:21-38 | Combine mode gives one idle task with all the files and URLs. Otherwise there is one idle task per file, in selection order, each with one file and one URL and no results. |
| ReceiptUpload.AnalyzeChangesOnlyThatTask | frontend/src/features/receipt/hooks/useReceiptUploader.ts:45-87 | Only the task with that id changes, as `Analyzed` says. |
| ReceiptUpload.FindTaskAt | frontend/src/features/receipt/hooks/useReceiptUploader.ts:107 | With distinct ids, `find` returns the task at its position. |
| ReceiptUpload.FindTaskFound | frontend/src/features/receipt/hooks/useReceiptUploader.ts:130 | `find` returns a task with the id, and nothing exactly when no task has it. |
| ReceiptUpload.RemoveTaskExactly | frontend/src/features/receipt/hooks/useReceiptUploader.ts:141-143 | Removes every task with the id and keeps every other one. |
| ReceiptUpload.RemoveUniqueTask | frontend/src/features/receipt/hooks/useReceiptUploader.ts:141-143 | With distinct ids, removal drops exactly that position and keeps the rest in order. |
| ReceiptUpload.RemoveKeepsUnique | frontend/src/features/receipt/hooks/useReceiptUploader.ts:118 | Removing tasks keeps the ids distinct. |
| ReceiptUpload.ReviewStepsThroughTask | frontend/src/features/receipt/hooks/useReceiptUploader.ts:115-116 | Before the last receipt, k steps from index 0 leave the cursor at k and the list unchanged. |
| ReceiptUpload.ReviewRemovesTaskAfterAllResults | frontend/src/features/receipt/hooks/useReceiptUploader.ts:115-120 | For a task with N ≥ 1 receipts, fewer than N steps keep it under review. N steps remove it and end the review. |
| ReceiptUpload.ReceiptUploader.constructor | frontend/src/features/receipt/hooks/useReceiptUploader.ts:10-15 | No tasks, no review, combine mode off. |
| ReceiptUpload.ReceiptUploader.SetCombineMode | frontend/src/features/receipt/hooks/useReceiptUploader.ts:15 | Only the mode changes. |
| ReceiptUpload.ReceiptUploader.HandleFileChange | frontend/src/features/receipt/hooks/useReceiptUploader.ts:17-43 | A selection appends `NewTasks` after the existing tasks, which are kept in place. An empty selection changes nothing, and ids stay distinct. |
| ReceiptUpload.ReceiptUploader.ProcessTask | frontend/src/features/receipt/hooks/useReceiptUploader.ts:45-87 | The task with the id ends as `Analyzed` says; nothing else changes. |
| ReceiptUpload.ReceiptUploader.HandleStartAll | frontend/src/features/receipt/hooks/useReceiptUploader.ts:89-95 | The `forEach` analyses every idle task in list order and leaves the tasks as `StartAll` describes. |
| ReceiptUpload.ReceiptUploader.HandleStartEdit | frontend/src/features/receipt/hooks/useReceiptUploader.ts:97-99 | The review starts at receipt 0 of the task. |
| ReceiptUpload.ReceiptUploader.HandleSaveCurrent | frontend/src/features/receipt/hooks/useReceiptUploader.ts:101-125 | The receipt is sent exactly when there are headers and a review. A successful save takes one advance-or-remove step. Missing headers, no review or a failed save change nothing. |
| ReceiptUpload.ReceiptUploader.HandleSkipCurrent | frontend/src/features/receipt/hooks/useReceiptUploader.ts:127-140 | With a review, one advance-or-remove step; without one, nothing. |
| ReceiptUpload.ReceiptUploader.Step | frontend/src/features/receipt/hooks/useReceiptUploader.ts:134-139 | The cursor moves to the next receipt, or the task is removed and the review ends. |
| ReceiptUpload.ReceiptUploader.HandleDeleteTask | frontend/src/features/receipt/hooks/useReceiptUploader.ts:141-143 | Removes every task with the id and keeps the others in order; the cursor is untouched. |

## Left out

- Decoding of the uploaded CSV file (UTF-8 with a Shift-JIS fallback through the browser's `TextDecoder`) is not modelled; the CSV text is an input.
- `csv.reader` quoting rules are not modelled. `parse_csv` takes the rows the reader yields.
- `dateutil`'s fuzzy date parser is not modelled. It is an oracle that returns a date or rejects the text.
- `CsvService.FormatDate`: `%Y` is printed the way glibc prints it, without padding. Years below 1000 therefore give keys shorter than `YYYY-MM`; the month-prefix lemmas assume year ≥ 1000.
- `CsvBatch.GroupByMonth`: `Object.keys` lists array-index keys (canonical decimal integers such as `"2024011"`, the key of an all-digit date like `"20240115"`) first, in numeric order. The model keeps first-seen order for every key.
- `CsvBatch.GroupByMonth`: the groups live in a plain object literal, so a month key naming an inherited property (`"valueOf"`, `"toString"`) makes `.push` throw before the `try`, leaving `isSaving` on. The model groups such rows like any other. The date input of the editing table never yields such a key.
- `NumberInput.Emit`: `Number(val)` rounds above 2^53. With `maxLength` 0, an entry of 17 digits or more would report a different number. The model reports the exact value, which is what the default `maxLength` of 7 guarantees.
- `CsvUpload.CsvUploader.HandleSaveClick`: the answers of the save endpoint are a finite sequence, and the loop also stops when they run out. The source would keep retrying for as long as it gets 429s.
- The 90-second countdown is modelled by its 91 ticks and their effect on `isWaiting` and `waitTime`; wall-clock time is not.
- Concurrency is not modelled. The analyses that `handleStartAll` fires run concurrently in the source, but each is modelled as one atomic transition keyed by task id. Interleavings, and the stale `tasks` closure that `processTask` reads, are not modelled.
- `CsvUpload.CsvUploader.HandleDataChange` and `ReceiptEditing.ReceiptEditor.HandleItemChange` require an index inside the list. The tables only pass such indices; an index outside the list would make a sparse JavaScript array.
- `ReceiptEditing.ReceiptEditor.HandleItemChange` takes integer price text only (empty, or digits with an optional minus). Fractions, exponents and `NaN` from `Number` are not modelled, because prices are integers.
- `alert`, `console` output, `window.location.reload` after a 401/403, and the file input reset (`fileInputRef`, `e.target.value = ''`) are not modelled; the reload is represented by the task staying `analyzing`.
- `isLoadingPresets` and the preset fetch at mount are not modelled. The constructor takes the loaded presets.
- Supabase calls (the user lookup, insert, update and delete) are not modelled. They are inputs: the user, the returned records and success flags.
- The CSV mapping's float `confidence` is not modelled.
- The setters the components call directly (`setDate`, `setStore`, `setSelectedPresetId`, `setNewPresetName`, `setEditPresetName`) are not modelled. Each is a plain field assignment.
- The editor's `Receipt` omits `total_amount` and `payment_method`, which the analysis returns. The model keeps the two record shapes apart (`Receipts.Receipt` and `Receipts.AnalyzedReceipt`).
- The hook builds tasks with `files` and `previewUrls`, which the `UploadTask` type in `frontend/src/features/receipt/types/index.ts` does not declare. The model follows the hook.
- In `processTask`, a generic analysis failure sets the task to `error`, as the code does; only 401/403 leaves it `analyzing`.
- The receipt editor has no validation step before save, and none is modelled.
