# Battery Monitor backend: the four service classes in Dafny

This project models the business core of the Battery Monitor backend, a Spring service that keeps a ledger of traction batteries and their test records. The core is four service classes, each modelled in its own module:

- **`BatteryCsv`** (`BatteryCsvService`) is the two-phase CSV ingestion. `ParseCsvToDraft` first registers an upload entry with status `NEW`. It then scans the stored file for a row count and the highest `Cycle` value. `ImportFromUploadToken` re-reads the same file later. It keeps every data row whose first four fields parse and writes the rows to the record store in batches of 2000. It then marks the upload `USED`, or `FAILED` on a read error. `ImportBatteryRecordsFromCsv` is the older import. It reads an uploaded file and saves all its rows in one call.
- **`SohPredict`** (`SohPredictService`) is the front end of the state-of-health predictor. It resolves the five header columns without regard to case. It keeps the readings of the rows of one cycle and resamples each series to 128 points by linear interpolation. It then checks the predictor's reply.
- **`BatteryRecords`** (`BatteryRecordService`) holds the two record queries. The paged query clamps page and size, swaps reversed cycle bounds and picks one of four repository queries. The per-cycle query returns one cycle's records ordered by time.
- **`BatteryLedger`** (`BatteryService`) is the battery ledger. It creates and updates batteries, with find-or-create of the model and customer rows. It soft-deletes batteries and filters the battery list.

Three shared modules support them:

- **`Wrappers`** holds `Option` and `Result`.
- **`Entities`** holds the battery row and the test-record row.
- **`JavaText`** models the Java library behaviour the services rely on:
  - `String.trim`;
  - `String.split` with one delimiter, including the dropping of trailing empty fields;
  - `Integer.parseInt` with its 32-bit range;
  - a decimal `Double.parseDouble` over exact reals;
  - the `(int)` narrowing of a `long`.

**How the model is built**

- **Imperative code.** Code that works step by step keeps that form. The read loops become `while` loops whose body is one method call. Each such method is specified against a function of the lines read so far: `ImportScanAt`, `DraftScan` or `SamplesAt`. `ImportScanAt` is a direct description: the non-blank lines, the data rows and the accepted rows. `DraftScan` is recursive, and lemmas relate it to the data rows and the maximum of their cycle values. The resampler fills an `array<real>` in an index loop.
- **Entities changed in place.** These are classes. The upload entry is `CsvUpload`. The record store is `RecordRepository`, whose `saved` field is the sequence every `saveAll` appends to. Its `flushSizes` field is the sizes of those calls. The battery tables are the `Ledger` class. Its methods are stated against pure functions (`Create`, `Update`, `Delete`) over a `Tables` value. Lemmas about those functions state what the service promises.
- **The ledger tables.** The battery table is a map keyed by id. The model table and the customer table are sequences searched by code and by name. The database's unique constraints appear as the invariant `Valid`. That invariant covers battery codes, model codes and customer names. It also says that ratings are present and that every reference points to an existing row.
- **Transactions.** A `@Transactional` ledger method that fails after inserting a model or customer row rolls back. `CreateBattery` and `UpdateBattery` therefore restore a snapshot. A failed call leaves the tables as they were.
- **Deleted batteries.** Every service reads and writes the battery's `deleted` flag. The `Battery` entity (`entity/Battery.java`) declares no such field. The model gives the battery row a nullable boolean `deleted`, read the way `Boolean.TRUE.equals(...)` reads it. Only `Some(true)` counts as deleted, and the list filter keeps only rows whose flag is `Some(false)`.
- **Behaviour mirrored as written:**
  - `createBattery` checks uniqueness on the trimmed battery code but stores the code untrimmed.
  - `createBattery` looks a model up by its trimmed code but creates a missing model with the untrimmed code. A later create with the same padded model code therefore does not find that row. Its insert then breaks the unique constraint on the model code (`PaddedModelCodeIsNotReused`).
  - `updateBattery` rejects only an empty model code or customer name, not a blank one.
  - The draft scan counts every non-blank line after the header, valid or not.
  - The import's status guard accepts a null status and compares with `NEW` without regard to case.

## Model

Source paths are under `src/main/java/com/bms/backend/`.

| member | source | states |
|---|---|---|
| JavaText.BlankIff | src/main/java/com/bms/backend/service/BatteryCsvService.java:87-88 | a line is blank after `trim()` exactly when every character is at most a space |
| JavaText.TrimEnds | src/main/java/com/bms/backend/service/BatteryCsvService.java:87 | a trimmed string is empty or starts and ends with a non-space character |
| JavaText.TrimPadded | src/main/java/com/bms/backend/service/BatteryCsvService.java:243 | trimming padding around a text without outer spaces gives that text back |
| JavaText.JoinPieces | src/main/java/com/bms/backend/service/BatteryCsvService.java:182 | the pieces of a string around a delimiter, joined with it, give the string back |
| JavaText.PiecesAvoidDelimiter | src/main/java/com/bms/backend/service/BatteryCsvService.java:182 | no piece contains the delimiter |
| JavaText.DropTrailingEmptySpec | src/main/java/com/bms/backend/service/BatteryCsvService.java:182 | dropping trailing empty fields keeps a prefix that ends in a non-empty field and removes only empty fields |
| JavaText.JavaSplitPieces | src/main/java/com/bms/backend/service/BatteryCsvService.java:182 | `split` is the pieces with the trailing empty ones removed, and no field holds the delimiter |
| JavaText.JavaSplitRoundTrip | src/main/java/com/bms/backend/service/BatteryCsvService.java:182 | the split fields, joined with the delimiter plus the dropped trailing delimiters, rebuild the line |
| JavaText.SplitDropsTrailingEmptyFields | src/main/java/com/bms/backend/service/BatteryCsvService.java:276 | `"a,b,,,,".split(",")` has exactly the two fields `a` and `b` |
| JavaText.PiecesOfTrailingDelimiters | src/main/java/com/bms/backend/service/BatteryCsvService.java:276 | before the trailing empty fields are dropped, that line has six pieces |
| JavaText.AllDigitsIndex | src/main/java/com/bms/backend/service/BatteryCsvService.java:246 | a digit string is one whose every character is an ASCII digit |
| JavaText.DigitsRoundTrip | src/main/java/com/bms/backend/service/BatteryCsvService.java:246 | printing a natural number in decimal and reading the digits back gives the number |
| JavaText.ParseInt32 | src/main/java/com/bms/backend/service/BatteryCsvService.java:246 | `Integer.parseInt` returns only 32-bit values |
| JavaText.IntToStringShape | src/main/java/com/bms/backend/service/BatteryCsvService.java:246 | a printed integer is a minus sign followed by digits when negative, and digits otherwise |
| JavaText.ParseIntRoundTrip | src/main/java/com/bms/backend/service/BatteryCsvService.java:246 | every printed 32-bit integer parses back to itself |
| JavaText.ParseIntRejectsOverflow | src/main/java/com/bms/backend/service/BatteryCsvService.java:246-249 | a printed integer outside the 32-bit range does not parse |
| JavaText.ScanDigits | src/main/java/com/bms/backend/service/BatteryCsvService.java:262 | scanning a run of digits adds their decimal value to the mantissa |
| JavaText.ParseDoubleOfInteger | src/main/java/com/bms/backend/service/BatteryCsvService.java:262 | `Double.parseDouble` reads a printed integer as that integer |
| JavaText.ParseDoubleExample | src/main/java/com/bms/backend/service/BatteryCsvService.java:262 | `3.2e-1` parses to 0.32 |
| JavaText.ParseDoubleRejects | src/main/java/com/bms/backend/service/BatteryCsvService.java:262-264 | `1.2.3`, `.` and `1e` do not parse |
| JavaText.WrapInt32 | src/main/java/com/bms/backend/service/BatteryCsvService.java:133 | the `(int)` cast of a count is its 32-bit wrap-around: in range, congruent modulo 2^32, and the count itself when it fits |
| BatteryCsv.SplitColumns | src/main/java/com/bms/backend/service/BatteryCsvService.java:271-283 | definition of splitColumns; properties in `SplitColumnsRoundTrip` and `SplitColumnsOfNull` |
| BatteryCsv.SplitColumnsRoundTrip | src/main/java/com/bms/backend/service/BatteryCsvService.java:271-283 | `splitColumns` uses the comma exactly when the comma split has at least six fields, else the tab. No field holds that delimiter, and the fields rebuild the line |
| BatteryCsv.ParseIntOrNull | src/main/java/com/bms/backend/service/BatteryCsvService.java:241-250 | definition of parseIntOrNull; properties in `ParseIntOrNullPadded`, with `JavaText.ParseInt32`, `ParseIntRoundTrip` and `ParseIntRejectsOverflow` for the parser it calls |
| BatteryCsv.ParseIntOrNullPadded | src/main/java/com/bms/backend/service/BatteryCsvService.java:241-250 | `parseIntOrNull` trims before parsing: a padded printed 32-bit integer gives that integer |
| BatteryCsv.ParseDoubleOrNull | src/main/java/com/bms/backend/service/BatteryCsvService.java:257-266 | definition of parseDoubleOrNull; properties in `ParseDoubleOrNullPadded`, with `JavaText.ParseDoubleOfInteger` and `ParseDoubleRejects` for the parser it calls |
| BatteryCsv.ParseDoubleOrNullPadded | src/main/java/com/bms/backend/service/BatteryCsvService.java:257-266 | `parseDoubleOrNull` trims before parsing: a padded printed integer gives that value |
| BatteryCsv.NonBlankLinesAppend | src/main/java/com/bms/backend/service/BatteryCsvService.java:86-90 | the kept lines of two concatenated files are the kept lines of each, in order |
| BatteryCsv.DataRowsStep | src/main/java/com/bms/backend/service/BatteryCsvService.java:86-109 | reading one more line adds a data row exactly when the line is non-blank and a header was already seen |
| BatteryCsv.BlankLinesIgnored | src/main/java/com/bms/backend/service/BatteryCsvService.java:87-90 | inserting a blank line anywhere leaves the data rows unchanged |
| BatteryCsv.HeaderIgnored | src/main/java/com/bms/backend/service/BatteryCsvService.java:95-107 | the data rows do not depend on which non-blank line is the header |
| BatteryCsv.HeaderMapSpec | src/main/java/com/bms/backend/service/BatteryCsvService.java:98-101 | every trimmed header name is a key. Each key maps to the LAST column of that name |
| BatteryCsv.IndexHeader | src/main/java/com/bms/backend/service/BatteryCsvService.java:98-101 | the header loop builds exactly that map |
| BatteryCsv.DraftCycleColumnStep | src/main/java/com/bms/backend/service/BatteryCsvService.java:95-105 | the Cycle column is fixed by the first non-blank line alone |
| BatteryCsv.CycleValuesStep | src/main/java/com/bms/backend/service/BatteryCsvService.java:112-124 | each data row adds its parsed Cycle value, if any, to the values seen |
| BatteryCsv.MaxOf | src/main/java/com/bms/backend/service/BatteryCsvService.java:117-120 | the high-water mark is none exactly for no values, and otherwise a value at least as large as every value |
| BatteryCsv.MaxOfStep | src/main/java/com/bms/backend/service/BatteryCsvService.java:118-119 | one more value replaces the maximum exactly when it is larger or no maximum exists yet |
| BatteryCsv.RunningMaxStep | src/main/java/com/bms/backend/service/BatteryCsvService.java:112-125 | a row whose cycle is missing or does not parse leaves the maximum unchanged, and a larger one replaces it |
| BatteryCsv.NoCycleColumnNoValues | src/main/java/com/bms/backend/service/BatteryCsvService.java:112 | without a Cycle column no row yields a cycle value |
| BatteryCsv.HighWaterMarkExample | src/main/java/com/bms/backend/service/BatteryCsvService.java:112-125 | the cycles 3, 7, 2, 9 and one dirty value give the maximum 9 |
| BatteryCsv.DraftCycleCountSpec | src/main/java/com/bms/backend/service/BatteryCsvService.java:129-134 | the cycle count is the largest parsed cycle. With none, or with no Cycle column, it is the data-row count cast to `int` |
| BatteryCsv.DraftScanHeader | src/main/java/com/bms/backend/service/BatteryCsvService.java:84-106 | the scan is before the header exactly while all lines so far are blank, and its Cycle column is the header's |
| BatteryCsv.DraftScanSpec | src/main/java/com/bms/backend/service/BatteryCsvService.java:86-127 | the scan's row count is the number of non-blank lines after the header, and its maximum is that of their parsed cycles |
| BatteryCsv.AnalyzeDraft | src/main/java/com/bms/backend/service/BatteryCsvService.java:75-127 | the read loop returns that row count and that maximum |
| BatteryCsv.DraftStatistics | src/main/java/com/bms/backend/service/BatteryCsvService.java:75-134 | the loop plus the fallback give the row count and the cycle count |
| BatteryCsv.CsvUpload.constructor | src/main/java/com/bms/backend/service/BatteryCsvService.java:64-72 | a new upload entry holds the token, name, size, type and key, with status `NEW` |
| BatteryCsv.CsvUpload.RecordStatistics | src/main/java/com/bms/backend/service/BatteryCsvService.java:137-139 | only the row count and the cycle count change |
| BatteryCsv.CsvUpload.MarkUsed | src/main/java/com/bms/backend/service/BatteryCsvService.java:390-394 | status `USED`, the battery, the time used and the row count are set, and nothing else changes |
| BatteryCsv.CsvUpload.MarkFailed | src/main/java/com/bms/backend/service/BatteryCsvService.java:384-385 | only the status changes, to `FAILED` |
| BatteryCsv.RecordRepository.SaveAll | src/main/java/com/bms/backend/service/BatteryCsvService.java:373 | `saveAll` appends the batch to the store in order and logs its size |
| BatteryCsv.ParseCsvToDraft | src/main/java/com/bms/backend/service/BatteryCsvService.java:51-153 | an empty file is rejected with nothing registered. Otherwise the entry is registered as `NEW`, download and read failures leave it at that, and a full read writes the row and cycle counts and returns the draft's cycle count |
| BatteryCsv.ParseDoublesIndex | src/main/java/com/bms/backend/service/BatteryCsvService.java:346-350 | the double at each position is `parseDoubleOrNull` of that field |
| BatteryCsv.Accepted | src/main/java/com/bms/backend/service/BatteryCsvService.java:340-369 | acceptance never yields more records than rows |
| BatteryCsv.AcceptedLinesStep | src/main/java/com/bms/backend/service/BatteryCsvService.java:326-369 | one more line adds exactly its accepted record, if any, at the end |
| BatteryCsv.ReadLine | src/main/java/com/bms/backend/service/BatteryCsvService.java:326-369 | one pass of the import loop takes the loop variables after i lines to those after i + 1: the new header flag and the one record, if any, that the line adds |
| BatteryCsv.ImportStepSpec | src/main/java/com/bms/backend/service/BatteryCsvService.java:326-369 | one pass of the loop takes the loop variables of the lines before it to those of them all: before the header exactly while all lines are blank, and the accepted data rows among them |
| BatteryCsv.ImportStepAt | src/main/java/com/bms/backend/service/BatteryCsvService.java:326-369 | the same for line i of a file: the step from the first i lines to the first i + 1 |
| BatteryCsv.ImportScanComplete | src/main/java/com/bms/backend/service/BatteryCsvService.java:326-378 | the same for the whole file |
| BatteryCsv.AcceptedRecordsBelong | src/main/java/com/bms/backend/service/BatteryCsvService.java:357-367 | every accepted record belongs to the importing battery and has no id yet. It carries the file name and the batch, and its cycle is a 32-bit value |
| BatteryCsv.ShortRowsSkipped | src/main/java/com/bms/backend/service/BatteryCsvService.java:340-343 | rows of fewer than six fields are never accepted |
| BatteryCsv.AcceptRow | src/main/java/com/bms/backend/service/BatteryCsvService.java:340-367 | definition of the row check the importers share; properties in `AcceptRowIff`, `AcceptRowFields`, `TempAndCapacityMayBeNull`, `ShortRowsSkipped` and `AcceptedRecordsBelong` |
| BatteryCsv.AcceptRowIff | src/main/java/com/bms/backend/service/BatteryCsvService.java:340-353 | a row is kept exactly when it has at least six fields and fields 0 to 3 (cycle, time, voltage, current) parse. Temperature and capacity play no part |
| BatteryCsv.AcceptRowFields | src/main/java/com/bms/backend/service/BatteryCsvService.java:345-367 | a kept record takes its fields by position: cycle from field 0, time from 1, current from 3, and temperature and capacity from 4 and 5, which may be null |
| BatteryCsv.TempAndCapacityMayBeNull | src/main/java/com/bms/backend/service/BatteryCsvService.java:349-353 | blanking fields 4 and 5 of a kept row keeps it, with temperature and capacity null |
| BatteryCsv.ParseRecord | src/main/java/com/bms/backend/service/BatteryCsvService.java:340-367 | the imperative parsing block returns exactly the verdict of `AcceptRow`. That verdict is a record exactly when the row has six fields and fields 0 to 3 parse (`AcceptRowIff`), with fields taken by position (`AcceptRowFields`) |
| BatteryCsv.RepeatIndex | src/main/java/com/bms/backend/service/BatteryCsvService.java:372-377 | every full flush has size 2000 |
| BatteryCsv.SumAppend | src/main/java/com/bms/backend/service/BatteryCsvService.java:374 | the imported count adds up over flushes |
| BatteryCsv.SumRepeat | src/main/java/com/bms/backend/service/BatteryCsvService.java:374 | k full flushes write 2000·k records |
| BatteryCsv.BatchSplit | src/main/java/com/bms/backend/service/BatteryCsvService.java:372-377 | the buffer never reaches 2000 records and never exceeds the count read |
| BatteryCsv.BatchSplitStep | src/main/java/com/bms/backend/service/BatteryCsvService.java:369-377 | one more record either grows the buffer or completes a flush and empties it |
| BatteryCsv.BatchSplitDivMod | src/main/java/com/bms/backend/service/BatteryCsvService.java:372-377 | after n records, n div 2000 batches are flushed and n mod 2000 records are buffered |
| BatteryCsv.BufferSplit | src/main/java/com/bms/backend/service/BatteryCsvService.java:372-377 | a flushed-and-buffered split of n with a short buffer is the division of n by 2000 |
| BatteryCsv.BatchSizesSpec | src/main/java/com/bms/backend/service/BatteryCsvService.java:372-382 | the flushes of n records sum to n. All but the last hold 2000 and the last holds 1 to 2000. There are ceil(n / 2000) of them |
| BatteryCsv.FlushBoundaryExample | src/main/java/com/bms/backend/service/BatteryCsvService.java:372-382 | 4001 records are written as 2000, 2000 and 1 |
| BatteryCsv.ImportGuardPasses | src/main/java/com/bms/backend/service/BatteryCsvService.java:293-314 | the import passes its checks exactly when all of these hold: the battery id is given and exists; the token is non-blank and registered; the status is null or `NEW`, ignoring case; the file key is non-blank. The key returned is the entry's |
| BatteryCsv.ImportAtMostOnce | src/main/java/com/bms/backend/service/BatteryCsvService.java:307-310 | a token already `USED` or `FAILED` is rejected, so a file is imported at most once |
| BatteryCsv.StatusIgnoresCase | src/main/java/com/bms/backend/service/BatteryCsvService.java:308 | a null status and `NEW` in any case pass the status check |
| BatteryCsv.BufferRecord | src/main/java/com/bms/backend/service/BatteryCsvService.java:369-377 | appending a record and flushing at 2000 keeps every record in order across store and buffer, and only full batches are flushed |
| BatteryCsv.ConsumeLine | src/main/java/com/bms/backend/service/BatteryCsvService.java:326-378 | one pass of the import loop keeps both the scan specification and the batching invariant |
| BatteryCsv.StreamRecords | src/main/java/com/bms/backend/service/BatteryCsvService.java:316-378 | the loop flushes the accepted rows in order, in full batches of 2000, and leaves the rest buffered |
| BatteryCsv.FlushRemainder | src/main/java/com/bms/backend/service/BatteryCsvService.java:379-382 | the final flush writes the buffer if non-empty and adds it to the count |
| BatteryCsv.CheckImport | src/main/java/com/bms/backend/service/BatteryCsvService.java:293-314 | the guard raises the first failing check, or returns the token's entry with its file key |
| BatteryCsv.ReadAndStore | src/main/java/com/bms/backend/service/BatteryCsvService.java:316-394 | a full read stores every accepted row in batches and marks the entry `USED` with the row count. A read error marks it `FAILED` and leaves only the full batches already flushed |
| BatteryCsv.ImportFromUploadToken | src/main/java/com/bms/backend/service/BatteryCsvService.java:292-395 | a failed guard changes nothing. A missing file changes nothing. Otherwise the result is as stated for `ReadAndStore`, and no other entry changes |
| BatteryCsv.CollectLine | src/main/java/com/bms/backend/service/BatteryCsvService.java:177-222 | one pass of the legacy loop (comma split only) keeps the scan specification |
| BatteryCsv.CollectRecords | src/main/java/com/bms/backend/service/BatteryCsvService.java:167-223 | the legacy loop collects exactly the accepted rows, in order |
| BatteryCsv.ImportBatteryRecordsFromCsv | src/main/java/com/bms/backend/service/BatteryCsvService.java:162-234 | a missing or unknown battery and read errors are rejected with nothing saved. Otherwise all accepted rows are saved in one call, and in no call when there are none |
| SohPredict.PositionBounds | src/main/java/com/bms/backend/service/SohPredictService.java:180 | the sampled position lies in [0, n-1] |
| SohPredict.InterpolationIndices | src/main/java/com/bms/backend/service/SohPredictService.java:180-183 | 0 <= i0 <= i1 <= n-1 and 0 <= t < 1 for every output index |
| SohPredict.Resampled | src/main/java/com/bms/backend/service/SohPredictService.java:159-189 | the result has exactly `targetLen` values |
| SohPredict.ResampleSpecialCases | src/main/java/com/bms/backend/service/SohPredictService.java:163-176 | an empty source gives zeros, one value gives copies of it, and a source of `targetLen` values is copied |
| SohPredict.ResampledAt | src/main/java/com/bms/backend/service/SohPredictService.java:179-187 | otherwise every output is the interpolation at its index |
| SohPredict.InterpolatedAtStart | src/main/java/com/bms/backend/service/SohPredictService.java:180-186 | the first interpolated point is the first source value |
| SohPredict.InterpolatedAtEnd | src/main/java/com/bms/backend/service/SohPredictService.java:180-186 | the last interpolated point is the last source value |
| SohPredict.ResampleKeepsEndpoints | src/main/java/com/bms/backend/service/SohPredictService.java:159-189 | for a non-empty source the result starts with its first value and ends with its last |
| SohPredict.MeanBetween | src/main/java/com/bms/backend/service/SohPredictService.java:186 | a weighted mean lies between its two values |
| SohPredict.InterpolatedBetweenNeighbours | src/main/java/com/bms/backend/service/SohPredictService.java:177-186 | the interpolation at an output index lies between the two neighbouring source values it reads |
| SohPredict.ResampleBetweenNeighbours | src/main/java/com/bms/backend/service/SohPredictService.java:184-186 | each interpolated output lies between the two source values it is drawn from |
| SohPredict.Fill | src/main/java/com/bms/backend/service/SohPredictService.java:163-169 | `Arrays.fill` sets every element to the value |
| SohPredict.InterpolateAt | src/main/java/com/bms/backend/service/SohPredictService.java:180-186 | one loop pass computes the interpolation at its index |
| SohPredict.ResampleToFixedLength | src/main/java/com/bms/backend/service/SohPredictService.java:159-189 | the array filled is the resampled series |
| SohPredict.HeaderIndex | src/main/java/com/bms/backend/service/SohPredictService.java:61-74 | the index found is -1 or one of the cells looked at |
| SohPredict.HeaderIndexSpec | src/main/java/com/bms/backend/service/SohPredictService.java:61-74 | it is -1 exactly when no trimmed, lower-cased cell has the name, and otherwise the last cell that has it |
| SohPredict.ResolvedColumns | src/main/java/com/bms/backend/service/SohPredictService.java:61-78 | definition of the header lookup; properties in `HeaderIndexSpec`, `ResolvedColumnsNamed` and `BadHeaderIff` |
| SohPredict.ResolvedColumnsNamed | src/main/java/com/bms/backend/service/SohPredictService.java:61-78 | each resolved column's header cell is that column's name, after trimming and lower-casing |
| SohPredict.BadHeaderIff | src/main/java/com/bms/backend/service/SohPredictService.java:76-78 | the header is rejected exactly when one of the five names is missing |
| SohPredict.ResolveHeader | src/main/java/com/bms/backend/service/SohPredictService.java:58-78 | the header loop and its check give the resolved columns |
| SohPredict.ReadingsAppend | src/main/java/com/bms/backend/service/SohPredictService.java:102-105 | a selected row appends its reading to each series |
| SohPredict.KeptComeFrom | src/main/java/com/bms/backend/service/SohPredictService.java:82-109 | every kept sample is the yield of some data line |
| SohPredict.SamplesComeFromLines | src/main/java/com/bms/backend/service/SohPredictService.java:82-109 | every selected sample is what some data line of the requested cycle yields |
| SohPredict.Column | src/main/java/com/bms/backend/service/SohPredictService.java:85-88 | each series is read from one of the four reading columns, none of them beyond `maxIdx` |
| SohPredict.SampleOf | src/main/java/com/bms/backend/service/SohPredictService.java:83-108 | definition of what one line yields; properties in `SampleOfIff`, `SampleOfReadings` and `SampleOfCycle` |
| SohPredict.SampleOfIff | src/main/java/com/bms/backend/service/SohPredictService.java:83-108 | a line yields a sample exactly when it is not blank, its comma split has more than `maxIdx` fields, its cycle field parses to the requested cycle and all four readings parse. Otherwise it is skipped |
| SohPredict.SampleOfReadings | src/main/java/com/bms/backend/service/SohPredictService.java:97-105 | each reading of a yielded sample is the trimmed, parsed field at that series' column |
| SohPredict.SampleOfCycle | src/main/java/com/bms/backend/service/SohPredictService.java:89-95 | a line yields a sample only if it has the cycle field and that field parses to the requested cycle |
| SohPredict.ParseSampleLine | src/main/java/com/bms/backend/service/SohPredictService.java:83-100 | the imperative loop body returns exactly what `SampleOf` yields for the line. A blank line, too few fields, another cycle or an unparseable reading yield nothing (`SampleOfIff`). Otherwise the four readings are parsed by column (`SampleOfReadings`) |
| SohPredict.AppendSample | src/main/java/com/bms/backend/service/SohPredictService.java:102-105 | the four lists gain exactly the sample's readings |
| SohPredict.SelectLine | src/main/java/com/bms/backend/service/SohPredictService.java:82-109 | one loop pass keeps the lists equal to the series of the samples selected so far |
| SohPredict.SelectSamples | src/main/java/com/bms/backend/service/SohPredictService.java:82-109 | the row loop returns the four series of the selected rows, all of the same length |
| SohPredict.CheckReply | src/main/java/com/bms/backend/service/SohPredictService.java:140-153 | definition of the reply checks; properties in `ReplyAcceptedIff` |
| SohPredict.ReplyAcceptedIff | src/main/java/com/bms/backend/service/SohPredictService.java:140-153 | a reply is accepted exactly when its status is 2xx and its body carries code 200, data and a soh value, which is then the result |
| SohPredict.PayloadShape | src/main/java/com/bms/backend/service/SohPredictService.java:115-130 | at least one row was selected. Every posted series has 128 points and runs from the first to the last selected reading |
| SohPredict.PredictSohFromCsvFileKey | src/main/java/com/bms/backend/service/SohPredictService.java:39-154 | each failure before the call is returned with nothing posted: blank key, download, empty file, header, read error, no rows of the cycle. Otherwise the payload is posted and the reply checks decide |
| BatteryRecords.NormalizeSize | src/main/java/com/bms/backend/service/BatteryRecordService.java:47-50 | the page size is always between 1 and 500 |
| BatteryRecords.NormalizationKeepsValid | src/main/java/com/bms/backend/service/BatteryRecordService.java:46-50 | a valid page or size is kept, and a size above 500 becomes 500. Normalising twice changes nothing |
| BatteryRecords.ChooseQuerySpec | src/main/java/com/bms/backend/service/BatteryRecordService.java:56-80 | exactly one branch fits the given bounds, and the between-query gets start <= end. With both bounds a cycle is admitted exactly when it lies between them in either order, so swapping them changes nothing |
| BatteryRecords.Matching | src/main/java/com/bms/backend/service/BatteryRecordService.java:67-79 | a query never returns more rows than the table holds |
| BatteryRecords.MatchingSpec | src/main/java/com/bms/backend/service/BatteryRecordService.java:67-79 | a row is returned exactly when it is in the table, belongs to the battery and the branch admits its cycle, each as often as in the table |
| BatteryRecords.ConsSorted | src/main/java/com/bms/backend/service/BatteryRecordService.java:51-52 | a row not after any row of a sorted list can go first |
| BatteryRecords.InsertPermutes | src/main/java/com/bms/backend/service/BatteryRecordService.java:51-52 | inserting adds exactly the one row |
| BatteryRecords.InsertSorted | src/main/java/com/bms/backend/service/BatteryRecordService.java:51-52 | inserting keeps a list sorted |
| BatteryRecords.SortRecordsSpec | src/main/java/com/bms/backend/service/BatteryRecordService.java:51-52 | sorting by cycle then time gives a sorted permutation |
| BatteryRecords.SliceSpec | src/main/java/com/bms/backend/service/BatteryRecordService.java:51 | a page holds at most `size` rows, and they are consecutive rows starting at `page * size` |
| BatteryRecords.ToRecordDto | src/main/java/com/bms/backend/service/BatteryRecordService.java:95-109 | definition of toRecordDto; properties in `RecordDtoRoundTrip` and `DtosBack` |
| BatteryRecords.RecordDtoRoundTrip | src/main/java/com/bms/backend/service/BatteryRecordService.java:95-109 | `toRecordDto` copies every field: converting back gives the record, and the battery id is the record's (null without a battery) |
| BatteryRecords.DtosBack | src/main/java/com/bms/backend/service/BatteryRecordService.java:83-85 | mapping `toRecordDto` over a list loses nothing |
| BatteryRecords.SliceKeepsOrder | src/main/java/com/bms/backend/service/BatteryRecordService.java:51-79 | a page of an ordered result is ordered and matches the query |
| BatteryRecords.DtosKeepOrder | src/main/java/com/bms/backend/service/BatteryRecordService.java:83-85 | the DTO list keeps battery, cycle range and order |
| BatteryRecords.QueryBatteryRecords | src/main/java/com/bms/backend/service/BatteryRecordService.java:37-88 | definition of queryBatteryRecords; properties in `QueryRecordsGuard`, `SortedMatching`, `QueryRecordsPageShape` and `QueryRecordsPageContent` |
| BatteryRecords.QueryRecordsGuard | src/main/java/com/bms/backend/service/BatteryRecordService.java:39-43 | a missing battery and a deleted battery are each rejected, and every other battery is answered |
| BatteryRecords.SortedMatching | src/main/java/com/bms/backend/service/BatteryRecordService.java:51-80 | the repository's answer is sorted, a permutation of the matching rows, and every row matches |
| BatteryRecords.QueryRecordsPageShape | src/main/java/com/bms/backend/service/BatteryRecordService.java:45-87 | the page size is in [1, 500] and the page holds at most that many rows. The total is the number of matching rows |
| BatteryRecords.QueryRecordsPageContent | src/main/java/com/bms/backend/service/BatteryRecordService.java:51-87 | every row on the page belongs to the battery and lies in the cycle range, ordered by cycle then time |
| BatteryRecords.GetBatteryRecordsByCycle | src/main/java/com/bms/backend/service/BatteryRecordService.java:119-136 | definition of getBatteryRecordsByCycle; properties in `RecordsByCycleGuard` and `RecordsByCycleContent` |
| BatteryRecords.RecordsByCycleGuard | src/main/java/com/bms/backend/service/BatteryRecordService.java:122-129 | a null cycle is rejected before the battery is looked up. A missing or deleted battery is rejected |
| BatteryRecords.RecordsByCycleContent | src/main/java/com/bms/backend/service/BatteryRecordService.java:131-135 | the result is every record of the battery and cycle, each as often as in the table and nothing else, ordered by time |
| BatteryLedger.FindModel | src/main/java/com/bms/backend/service/BatteryService.java:155 | `findByModelCode` returns a row with that code, or null exactly when none has it |
| BatteryLedger.FindCustomer | src/main/java/com/bms/backend/service/BatteryService.java:164 | `findByName` returns a row with that name, or null exactly when none has it |
| BatteryLedger.ModelCodeOf | src/main/java/com/bms/backend/service/BatteryService.java:118-120 | a battery's model code is found exactly when its model row exists, and it is that row's code |
| BatteryLedger.CustomerNameOf | src/main/java/com/bms/backend/service/BatteryService.java:121-123 | a customer name is found exactly when the customer row exists, and it is that row's name |
| BatteryLedger.EmptyValid | src/main/java/com/bms/backend/service/BatteryService.java:35-37 | the empty tables satisfy the ledger invariant |
| BatteryLedger.ModelForSpec | src/main/java/com/bms/backend/service/BatteryService.java:154-161 | an existing model row is reused unchanged. Otherwise one row with the stored code is appended. The insert fails exactly when that code is already taken |
| BatteryLedger.ModelCodeUnique | src/main/java/com/bms/backend/service/BatteryService.java:155 | with unique model codes, a row's id leads back to its code |
| BatteryLedger.CustomerForSpec | src/main/java/com/bms/backend/service/BatteryService.java:163-171 | an existing customer is reused unchanged, and otherwise exactly one row with the name is appended |
| BatteryLedger.CustomerNameUnique | src/main/java/com/bms/backend/service/BatteryService.java:164 | with unique names, a customer's id leads back to its name |
| BatteryLedger.ExtendsKeepsBatteryRows | src/main/java/com/bms/backend/service/BatteryService.java:155-170 | appending model or customer rows keeps every battery row valid |
| BatteryLedger.ToListItem | src/main/java/com/bms/backend/service/BatteryService.java:106-125 | definition of toListItemDto; properties in `ListItemNamesRows` |
| BatteryLedger.ListItemNamesRows | src/main/java/com/bms/backend/service/BatteryService.java:106-125 | the list item copies the battery's fields. Its model code and customer name are those of the rows it references, and the customer name is null exactly when there is no customer |
| BatteryLedger.Create | src/main/java/com/bms/backend/service/BatteryService.java:134-195 | definition of createBattery on the tables; properties in `CreateChecks`, `CreateStoresRow`, `CreateFindsOrAddsModel`, `CreateFindsOrAddsCustomer`, `CreatePreservesValid` and `PaddedModelCodeIsNotReused` |
| BatteryLedger.CreateChecks | src/main/java/com/bms/backend/service/BatteryService.java:136-152 | each of the four rejections happens exactly when its check is the first to fail: blank code; trimmed code taken; blank model; blank customer |
| BatteryLedger.CreateRowsStoreRow | src/main/java/com/bms/backend/service/BatteryService.java:174-194 | the new row gets the next id and the given code and status. It is not deleted, and the item is built from it |
| BatteryLedger.CreateRowsFindOrAddModel | src/main/java/com/bms/backend/service/BatteryService.java:154-161 | the battery references the model found, or the one just added |
| BatteryLedger.CreateRowsFindOrAddCustomer | src/main/java/com/bms/backend/service/BatteryService.java:163-171 | the battery references the customer found, or the one just added |
| BatteryLedger.CreateRowsPreserveValid | src/main/java/com/bms/backend/service/BatteryService.java:154-193 | a successful create keeps the ledger invariant |
| BatteryLedger.InsertKeepsValid | src/main/java/com/bms/backend/service/BatteryService.java:193 | saving a new row that passes the table constraints keeps the invariant |
| BatteryLedger.CreateStoresRow | src/main/java/com/bms/backend/service/BatteryService.java:134-195 | exactly one row is added, under the next id. It holds the UNTRIMMED code, the given or default status and `deleted = false`, and the returned item is built from it |
| BatteryLedger.CreateFindsOrAddsModel | src/main/java/com/bms/backend/service/BatteryService.java:154-161 | the model is looked up by the trimmed code. When it is absent, a row with the UNTRIMMED code is added |
| BatteryLedger.CreateFindsOrAddsCustomer | src/main/java/com/bms/backend/service/BatteryService.java:163-171 | the customer is looked up and, if absent, added by the trimmed name |
| BatteryLedger.CreatePreservesValid | src/main/java/com/bms/backend/service/BatteryService.java:134-195 | `createBattery` keeps uniqueness and referential integrity |
| BatteryLedger.PaddedModelCodeIsNotReused | src/main/java/com/bms/backend/service/BatteryService.java:155-160 | after a create that added a padded model code, another create with the same model code fails on the unique constraint |
| BatteryLedger.Update | src/main/java/com/bms/backend/service/BatteryService.java:222-291 | definition of updateBattery on the tables; properties in `UpdateChecks`, `UpdateNeverClashes`, `UpdateStoresRow` and `UpdatePreservesValid` |
| BatteryLedger.UpdateChecks | src/main/java/com/bms/backend/service/BatteryService.java:222-251 | each of the six rejections happens exactly when its check is the first to fail. Model code and customer name are only tested for emptiness, not blankness |
| BatteryLedger.UpdateRowsNeverClash | src/main/java/com/bms/backend/service/BatteryService.java:236-240 | after the code check, saving the row cannot break code uniqueness |
| BatteryLedger.UpdateNeverClashes | src/main/java/com/bms/backend/service/BatteryService.java:222-288 | once the checks pass, an update fails only on a bad timestamp or a missing rated capacity |
| BatteryLedger.UpdateRowsStoreRow | src/main/java/com/bms/backend/service/BatteryService.java:277-288 | only that battery's row changes. It keeps its id and deleted flag and takes the code given and the given or default status. It also takes the request's commissioning date, rated capacity, SOH and cycle count, and the parsed last-record time |
| BatteryLedger.UpdateRowsItem | src/main/java/com/bms/backend/service/BatteryService.java:290-291 | the item returned is built from the saved row, with the trimmed model code and customer name |
| BatteryLedger.UpdateRowsFindOrAdd | src/main/java/com/bms/backend/service/BatteryService.java:253-268 | the model and customer rows are reused when present, and otherwise exactly one is appended |
| BatteryLedger.UpdateRowsPreserveValid | src/main/java/com/bms/backend/service/BatteryService.java:253-288 | a successful update keeps the invariant |
| BatteryLedger.SaveKeepsValid | src/main/java/com/bms/backend/service/BatteryService.java:288 | re-saving an existing row that passes the constraints keeps the invariant |
| BatteryLedger.UpdateStoresRow | src/main/java/com/bms/backend/service/BatteryService.java:222-292 | only the edited row changes, and it stays undeleted. It stores the trimmed code and the given or default status. It also stores the request's commissioning date, rated capacity, SOH and cycle count, and the parsed last-record time. The item shows the trimmed model code and customer name |
| BatteryLedger.UpdatePreservesValid | src/main/java/com/bms/backend/service/BatteryService.java:222-292 | `updateBattery` keeps uniqueness and referential integrity |
| BatteryLedger.Delete | src/main/java/com/bms/backend/service/BatteryService.java:202-212 | definition of deleteBattery on the tables; properties in `DeleteSpec`, `DeleteIdempotent` and `DeletePreservesValid` |
| BatteryLedger.DeleteSpec | src/main/java/com/bms/backend/service/BatteryService.java:202-212 | an unknown id is an error. Otherwise the battery is deleted afterwards, only its flag changed, and every other row and table is untouched |
| BatteryLedger.DeleteIdempotent | src/main/java/com/bms/backend/service/BatteryService.java:205-208 | deleting twice is deleting once |
| BatteryLedger.DeletePreservesValid | src/main/java/com/bms/backend/service/BatteryService.java:202-212 | a soft delete keeps the invariant |
| BatteryLedger.ContainsIff | src/main/java/com/bms/backend/service/BatteryService.java:58 | the `%code%` match holds exactly when the text occurs at some position |
| BatteryLedger.ListIsLiveRows | src/main/java/com/bms/backend/service/BatteryService.java:54-80 | without criteria the list is exactly the undeleted batteries. With criteria it is a subset of them, never a deleted one |
| BatteryLedger.EmptyTextIsNoCriterion | src/main/java/com/bms/backend/service/BatteryService.java:57-62 | an empty code or model text filters nothing, like a null one |
| BatteryLedger.ListedCodesContain | src/main/java/com/bms/backend/service/BatteryService.java:57-58 | every listed battery's code contains the searched text |
| BatteryLedger.DeleteLeavesList | src/main/java/com/bms/backend/service/BatteryService.java:202-212 | deleting a battery removes exactly it from every list |
| BatteryLedger.CreateJoinsList | src/main/java/com/bms/backend/service/BatteryService.java:180-193 | a created battery appears in the unfiltered list |
| BatteryLedger.Ledger.constructor | src/main/java/com/bms/backend/service/BatteryService.java:39-45 | the ledger starts with empty tables |
| BatteryLedger.Ledger.Rollback | src/main/java/com/bms/backend/service/BatteryService.java:133 | a failed transaction restores the tables as they were |
| BatteryLedger.Ledger.InsertModel | src/main/java/com/bms/backend/service/BatteryService.java:157-160 | saving a model appends it under the next id, or fails on a taken code with nothing changed |
| BatteryLedger.Ledger.InsertCustomer | src/main/java/com/bms/backend/service/BatteryService.java:166-170 | saving a customer appends it under the next id |
| BatteryLedger.Ledger.InsertBattery | src/main/java/com/bms/backend/service/BatteryService.java:193 | saving a new battery adds the row, or fails on a taken code or missing rating with nothing changed |
| BatteryLedger.Ledger.SaveBattery | src/main/java/com/bms/backend/service/BatteryService.java:288 | re-saving a battery replaces its row, or fails on a code held by another with nothing changed |
| BatteryLedger.Ledger.FindOrInsertModel | src/main/java/com/bms/backend/service/BatteryService.java:155-161 | the model step changes the tables as the find-or-create function says |
| BatteryLedger.Ledger.FindOrInsertCustomer | src/main/java/com/bms/backend/service/BatteryService.java:164-171 | the customer step changes the tables as the find-or-create function says |
| BatteryLedger.Ledger.CreateBattery | src/main/java/com/bms/backend/service/BatteryService.java:133-195 | the method returns what `Create` returns. On success the tables become its result; on failure they are unchanged |
| BatteryLedger.Ledger.UpdateBattery | src/main/java/com/bms/backend/service/BatteryService.java:221-292 | the method returns what `Update` returns. On success the tables become its result; on failure they are unchanged |
| BatteryLedger.Ledger.DeleteBattery | src/main/java/com/bms/backend/service/BatteryService.java:201-212 | an unknown id is rejected with nothing changed, and otherwise the tables become `Delete`'s result |

## Left out

- **I/O and external systems:**
  - The object store (MinIO) is the `storage` map from a file key to the lines read, and uploading a file is an input: the key it was stored under, or none.
  - The HTTP exchange with the predictor is the reply value it yields.
  - InfluxDB, the data simulation and the controllers are not part of this model.
- **Nondeterminism.** `UUID.randomUUID`, `OffsetDateTime.now` and `OffsetDateTime.parse` are inputs. The upload token and the current time are parameters. A timestamp text carries its parse result (`TimeText`).
- **Logging.** `System.out` output is not modelled.
- **Transactions, concurrency and database ordering:**
  - `importFromUploadToken` runs sequentially. On a read error the model keeps the flushed batches and the `FAILED` status, as a non-transactional run would. The rollback of `@Transactional` and a concurrent double import of one token are not modelled.
  - The ledger's rollback is modelled by restoring a snapshot.
  - Rows the database returns in an unspecified order are modelled by a stable insertion sort. Ties in cycle and time keep table order.
- **Floating point.** Doubles are exact reals. The resampler does no IEEE rounding. `Double.parseDouble` is a decimal scanner. It does not accept `NaN`, `Infinity` or hexadecimal literals, and it does not round or overflow. It does not trim whitespace itself, because every caller passes trimmed text. `Integer.parseInt` accepts ASCII digits only.
- **Case mapping.** `toLowerCase` and `equalsIgnoreCase` map ASCII letters only (`JavaText.LowerChar`, `JavaText.ToLower`, `JavaText.EqualsIgnoreCase`). Java's `toLowerCase()` uses the default locale, and `equalsIgnoreCase` also folds non-ASCII letters. Under a Turkish locale the header `TIME_MIN` lower-cases to `tıme_mın`, so Java rejects that header but the model accepts it (`SohPredict.ColumnName`). The upload status check (`BatteryCsv.StatusAllowsImport`) also folds ASCII letters only. That check compares with `NEW`, and no non-ASCII letter folds to N, E or W, so the difference does not show there.
- SohPredict.Resampled: requires `targetLen >= 2` whenever the source has two or more values. With `targetLen == 1` Java divides by zero into NaN, and the only caller passes 128.
- SohPredict.ResampleToFixedLength: carries the same precondition, for the same reason.
- **The battery list:**
  - Paging and sorting (descending `lastRecordAt`, page 0 and size 10 by default) are not modelled: `Listed` is the set of ids the filter admits.
  - LIKE wildcards inside the searched text (`%`, `_`) and database collation are not modelled: the match is a plain substring test.
- **BatteryRecords.QueryBatteryRecords.** The repository method `findBatteryId` that the all-cycles branch calls does not exist. The model gives it the meaning of the declared `findByBatteryId`.
- **Voltage.** The `BatteryRecord` entity has no `voltage` field, although the import's builder sets one. The record carries no voltage. The voltage column is still parsed, because acceptance depends on it.
- **Column limits and other constraints.** Column lengths and `NOT NULL` constraints other than the rated capacity are not modelled. The same goes for `created_at`, `updated_at`, `remark` and `decommissionDate`, and for the `Customer.deleted` flag that the service sets but the entity lacks.
- **Reply DTO.** The `SohPredictResponse` DTO is not part of this model.
