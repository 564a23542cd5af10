# Alma bursar transfer, modelled in Dafny

The bursar transfer takes the fines and fees that an Alma export job writes to a source bucket. It turns them into the MIT bursar's billing file, with seven quoted columns (MITID, STUDENTNAME, DETAILCODE, DESCRIPTION, AMOUNT, EFFECTIVEDATE, BILLINGTERM). It uploads that file to a target bucket and reports how many records it holds and what they add up to. This project models the logic of `lambdas/bursar_transfer.py` and proves what it does:

- **`BillingTerms`** models `billing_term`: the term code for a date, the month-by-month policy, and the `MM/DD/YYYY` effective date.
- **`FeeDescriptions`** models `generate_description`:
  - six known fee types, each with a label;
  - `"{label} {barcode}"` cut to 30 characters;
  - an error naming any other type.
- **`SourceKeys`** models the selection rule of `get_key_from_job_id` and the target-key rewrite in `lambda_handler`. `Strings` models Python's `str.replace` and `startswith` for the rewrite.
- **`CsvBuffers`** models the `StringIO` buffer as a class. It holds the records written so far and a read position.
- **`ExportTransform`** models `xml_to_csv` over the already-parsed export.
  - The export is a sequence of `User`s, each with its `Fee`s.
  - `None` stands for an element `findtext` did not find; `""` for an element that is present but empty.
  - The method keeps the source's nested loops and the per-patron `csv_line` dictionary.
  - It is proved against a reference fold (`Run`) and its closed form (`ExpectedRows`, `SkippedEntries`).
  - The entries the source logs for skipped fees are returned as a sequence.
- **`ChargesSummary`** models `get_records_and_total_charges`:
  - it rewinds the buffer, reads it the way `csv.DictReader` does, counts the records and sums AMOUNT in integer cents.
- **`Handler`** models `lambda_handler` end to end.
  - The settings are a value and the bucket listing is a sequence.
  - The parsed export under a key is a function parameter.
- `Wrappers`, `Decimal` and `SeqFacts` are supporting modules: `Option`/`Result`, decimal digit strings, and facts about sequence concatenation.

Where the repository's tests and its code disagree, the model follows the code:

- **Billing terms.** The table in `lambdas/bursar_transfer.py:90-101` gives January and February the fall term of the current year (`2023FA`). The test file (`tests/test_bursar_transfer.py`, lines 79-94) expects a different table, for example `2023SP` for January. `BillingTermExamples` states the code's values.
- **Error type.** An unknown fee type raises `ValueError` (line 132). The tests expect `KeyError`. The model keeps the error as a value, and `xml_to_csv` catches it as the code does.
- **Message spelling.** The message keeps the code's spelling, "Unrecoginzed fine fee type: ". The tests expect "Unrecognized".
- **Missing space in `KeyError` messages.** The messages of `get_key_from_job_id` are kept as written, without a space before "with prefix".

## Model

| member | source | states |
|---|---|---|
| BillingTerms.BillingTerm | lambdas/bursar_transfer.py:82-102 | the code always reads back as the term of the date (`TermFor`), and is at least three characters long |
| BillingTerms.TermCode | lambdas/bursar_transfer.py:102 | `f"{term_year}{term_code}"` reads back as the term it was made from |
| BillingTerms.BillingTermTable | lambdas/bursar_transfer.py:88-102 | months 1-2 give `{year}FA`, 3-6 `{year}SP`, 7-8 `{year}SU`, 9-12 `{year+1}FA` |
| BillingTerms.BillingTermIgnoresDay | lambdas/bursar_transfer.py:88-89 | two dates with the same year and month have the same term code |
| BillingTerms.TermMonotone | lambdas/bursar_transfer.py:90-101 | a later month never has an earlier term |
| BillingTerms.TermAdvancesByAtMostOne | lambdas/bursar_transfer.py:90-101 | from one month to the next the term stays or moves to the very next term, so no term is skipped |
| BillingTerms.TermYearIsCurrentOrNext | lambdas/bursar_transfer.py:99-101 | the term's year is the date's year, or the next year from September on |
| BillingTerms.BillingTermExamples | lambdas/bursar_transfer.py:90-101 | 2023-01-01 gives `2023FA`, March `2023SP`, August `2023SU`, September `2024FA` |
| BillingTerms.FormatEffectiveDate | lambdas/bursar_transfer.py:193 | `strftime("%m/%d/%Y")` is ten characters and reads back as the date |
| BillingTerms.EffectiveDateExample | lambdas/bursar_transfer.py:193 | 2023-03-01 is written `03/01/2023` |
| FeeDescriptions.FeeLabel | lambdas/bursar_transfer.py:118-131 | a label exists exactly for the six known fee types, and each label is 12 to 16 characters |
| FeeDescriptions.DescriptionError.Message | lambdas/bursar_transfer.py:132 | the error message ends with the unrecognised fee type |
| FeeDescriptions.Truncate | lambdas/bursar_transfer.py:134 | `s[:limit]` is the prefix of `s` of length min(limit, \|s\|) |
| FeeDescriptions.GenerateDescription | lambdas/bursar_transfer.py:118-134 | fails exactly for a type outside the catalogue, with an error naming it; otherwise it gives the prefix of `label + " " + barcode` of length min(30, \|label\|+1+\|barcode\|) |
| FeeDescriptions.HeadsExclusive | lambdas/bursar_transfer.py:118-129 | no description starts with two different labels followed by a space |
| FeeDescriptions.DescriptionRoundTrip | lambdas/bursar_transfer.py:118-134 | a description decodes back to its fee type and to the barcode, cut to the room left after the label |
| FeeDescriptions.DescriptionDeterminesFeeType | lambdas/bursar_transfer.py:118-134 | two equal descriptions come from the same fee type |
| FeeDescriptions.DescriptionExamples | lambdas/bursar_transfer.py:118-134 | the six labels with barcode `12345`, and a 30-character barcode cut to exactly 30 characters |
| FeeDescriptions.UnknownFeeTypeExamples | lambdas/bursar_transfer.py:131-132 | `foo` and the empty type fail; the message for `foo` is `Unrecoginzed fine fee type: foo` |
| SourceKeys.KeysWithPrefix | lambdas/bursar_transfer.py:58 | the listing holds exactly the bucket's keys that start with the prefix |
| SourceKeys.GetKeyFromJobId | lambdas/bursar_transfer.py:58-73 | succeeds exactly when the listing has one key, and returns that key; an empty listing gives the "No files" error, more than one key the "multiple files" error |
| SourceKeys.SelectionIgnoresOrder | lambdas/bursar_transfer.py:59-71 | the outcome is the same for any order of the listing, so no candidate is ever preferred |
| SourceKeys.ListingDistinct | lambdas/bursar_transfer.py:58 | listing a bucket of distinct keys repeats no key |
| SourceKeys.ResolvesUniqueMatch | lambdas/bursar_transfer.py:58-73 | for a bucket of distinct keys, the job resolves to `key` exactly when `key` is the only key starting with the prefix |
| SourceKeys.KeyError.Message | lambdas/bursar_transfer.py:62-71 | the "No files" and "multiple files" messages each open with their own words and end with the job's prefix in quotes |
| SourceKeys.KeySelectionExamples | lambdas/bursar_transfer.py:58-73 | an empty bucket and a bucket under another prefix raise "No files"; a bucket with two keys under the job's prefix raises "multiple files" for that bucket and prefix |
| SourceKeys.TargetKey | lambdas/bursar_transfer.py:242-244 | rewriting `.xml` to `.csv` keeps the length of the prefix-rewritten key |
| SourceKeys.TargetKeyWithoutSourcePrefix | lambdas/bursar_transfer.py:242-244 | a key in which the source prefix does not occur only has its `.xml` rewritten |
| SourceKeys.TargetKeyOfExport | lambdas/bursar_transfer.py:242-244 | `{source prefix}{rest}.xml` becomes `{target prefix}{rest}.csv` when the prefix does not recur and no dot is in the target prefix or `rest` |
| SourceKeys.TargetKeyExample | lambdas/bursar_transfer.py:242-244 | `test/source-prefix/bursar_export_to_test-1234-5678.xml` becomes `test/target-prefix/bursar_file_ready_to_pickup-1234-5678.csv` |
| Strings.InsertEverywhere | lambdas/bursar_transfer.py:242-244 | `s.replace("", rep)` is \|s\| characters plus \|s\|+1 copies of `rep` long |
| Strings.StrideIsProduct | lambdas/bursar_transfer.py:242-244 | the copy of `rep` before the `i`-th character of `s.replace("", rep)` starts at `i * (\|rep\| + 1)` |
| Strings.InsertEverywhereKeeps | lambdas/bursar_transfer.py:242-244 | `s.replace("", rep)` holds the characters of `s` in order, the `i`-th one right after the copy of `rep` that starts at `Stride(rep, i)` |
| Strings.InsertEverywhereCopies | lambdas/bursar_transfer.py:242-244 | `s.replace("", rep)` holds a whole copy of `rep` before each character of `s` and one at the end |
| Strings.ReplaceAll | lambdas/bursar_transfer.py:242-244 | replacing a pattern by one of the same length keeps the length |
| Strings.ReplaceAllAbsent | lambdas/bursar_transfer.py:242-244 | a string without the pattern is unchanged |
| Strings.ReplaceAllSkipsLead | lambdas/bursar_transfer.py:242-244 | text without the pattern's first character is copied and the scan goes on after it |
| Strings.ReplaceAllAtFront | lambdas/bursar_transfer.py:242-244 | an occurrence at the front is replaced and the scan resumes after it |
| CsvBuffers.CsvBuffer.constructor | lambdas/bursar_transfer.py:143 | a new buffer is empty and positioned at its start |
| CsvBuffers.CsvBuffer.WriteRow | lambdas/bursar_transfer.py:196 | the record is appended at the end and the position follows it |
| CsvBuffers.CsvBuffer.Rewind | lambdas/bursar_transfer.py:218 | the position returns to the start and the contents are unchanged |
| CsvBuffers.CsvBuffer.ReadLine | lambdas/bursar_transfer.py:222 | the record at the position is returned and the position advances; at the end, nothing is returned |
| ExportTransform.CsvLines | lambdas/bursar_transfer.py:144-160 | the file is the header `FieldNames` followed by one record per row, in order |
| ExportTransform.RowFor | lambdas/bursar_transfer.py:174-196 | every field is non-empty, DETAILCODE is `ROLH`, the description fits 30 characters, the dates come from the run's date, id, name and amount are the fee's, and the description is the one `generate_description` gives for the fee |
| ExportTransform.XmlToCsv | lambdas/bursar_transfer.py:137-202 | the log is that of the reference conversion; the conversion fails, with the missing-values error, exactly when the reference fails; otherwise the buffer holds the header and the reference rows |
| ExportTransform.ConvertPatron | lambdas/bursar_transfer.py:165-200 | after one patron's fees, the buffer and log are those of the reference conversion of the fees so far, and `converted` says whether it went through |
| ExportTransform.ConvertFee | lambdas/bursar_transfer.py:173-200 | the outcome for one fee is the reference `ProcessCharge`, and a row is appended exactly when one is emitted |
| ExportTransform.LineCheckIsCompleteness | lambdas/bursar_transfer.py:195 | `all(csv_line.values())` holds exactly when the patron's id and name and the fee's amount are present and non-empty |
| ExportTransform.FilledColumnsTruthy | lambdas/bursar_transfer.py:195 | with the four filled-in values non-empty, the dictionary is truthy exactly when the three exported values are |
| ExportTransform.FilledLine | lambdas/bursar_transfer.py:174-194 | filling the five columns gives the fee's dictionary, whatever the previous fee left |
| ExportTransform.RowOfLine | lambdas/bursar_transfer.py:196 | the record written from the dictionary is the fee's row |
| ExportTransform.ProcessCharge | lambdas/bursar_transfer.py:181-200 | a fee is skipped exactly when its type is unknown, and is then logged with its transaction id and that type, whatever else it lacks; a row is emitted exactly when the type is known and the fee complete, and it is the fee's row; otherwise the conversion aborts |
| ExportTransform.SkipEntry.Message | lambdas/bursar_transfer.py:187 | the log entry opens with "Skipping transaction" and the transaction id, and ends with the error's message |
| ExportTransform.ConversionError.Message | lambdas/bursar_transfer.py:197-200 | the abort message says that required values are missing |
| ExportTransform.RunMeetsReference | lambdas/bursar_transfer.py:165-200 | the conversion aborts exactly when some fee of a known type is incomplete; otherwise it writes one row per known-type fee and logs one entry per unknown-type fee, both in document order |
| ExportTransform.RunAborted | lambdas/bursar_transfer.py:195-200 | an aborted conversion stops at the first incomplete known-type fee, holding what the fees before it produced |
| ExportTransform.RunFailedSticks | lambdas/bursar_transfer.py:198-200 | after an abort, later fees change nothing |
| ExportTransform.FailedPatron | lambdas/bursar_transfer.py:198-200 | an abort on one of a patron's fees is the outcome for all of that patron's fees |
| ExportTransform.ChargesAppend | lambdas/bursar_transfer.py:165-173 | the fees of consecutive patrons come patron after patron, in document order |
| ExportTransform.EveryFeeAccounted | lambdas/bursar_transfer.py:165-200 | a conversion that goes through writes a row or a log entry for every fee |
| ExportTransform.RowsWellFormed | lambdas/bursar_transfer.py:174-196 | every row written has seven non-empty fields, DETAILCODE `ROLH`, a description of at most 30 characters, and the run's effective date and billing term |
| ExportTransform.FeelessPatronIgnored | lambdas/bursar_transfer.py:165-173 | a patron with no fees changes nothing, even without id or name |
| ExportTransform.UnknownTypeDropsOneRow | lambdas/bursar_transfer.py:181-188 | turning a fee's type into an unknown one removes one row and adds a log entry naming its transaction, and does not abort |
| ChargesSummary.LastIndexOf | lambdas/bursar_transfer.py:222 | the header position a reader's dictionary takes a column's value from, which is the last one with that name |
| ChargesSummary.AmountOf | lambdas/bursar_transfer.py:222-224 | `row["AMOUNT"]` fails with a missing column exactly when the header lacks AMOUNT; otherwise it succeeds exactly when the record reaches the last AMOUNT column, and gives the field there, and a record too short for it fails with the missing-amount error |
| ChargesSummary.ParseCents | lambdas/bursar_transfer.py:224 | a negative amount can come only from a leading minus, and a leading minus never gives a positive amount |
| ChargesSummary.ParseCentsOfDecimal | lambdas/bursar_transfer.py:224 | an optional `+` or `-`, digits, a point and up to two digits (at least one digit in all, leading zeros allowed) read as the amount they denote in cents, negated after a minus: `007.5` is 750, `-.05` is -5 |
| ChargesSummary.ParseCentsOfWhole | lambdas/bursar_transfer.py:224 | an optional `+` or `-` and one or more digits read as that many whole units, in cents, negated after a minus |
| ChargesSummary.ParseCentsAcceptsOnly | lambdas/bursar_transfer.py:224 | every amount the model reads is one of those two shapes after its sign, so the two lemmas above give the value of every amount read |
| ChargesSummary.ParseCentsExamples | lambdas/bursar_transfer.py:224 | `123.45`, `1.5`, `.5`, `7`, `-0.50`, `100.00` and `279.72` read as the expected cents |
| ChargesSummary.ParseCentsRefusals | lambdas/bursar_transfer.py:224 | the empty string, `.`, `1.234` and `abc` are refused |
| ChargesSummary.FormatCentsRoundTrip | lambdas/bursar_transfer.py:224 | an amount written with two decimals reads back as the same cents |
| ChargesSummary.TallyFailureSticks | lambdas/bursar_transfer.py:222-224 | once an amount cannot be read, later records change nothing |
| ChargesSummary.GetRecordsAndTotalCharges | lambdas/bursar_transfer.py:211-225 | the contents are unchanged and the result is the summary of the whole buffer (`Summarize`), read to its end |
| ChargesSummary.SummarizeTwice | lambdas/bursar_transfer.py:218 | because of the rewind, two calls give the same result |
| ChargesSummary.TotalCentsDefined | lambdas/bursar_transfer.py:224 | the total exists exactly when every amount reads as a number |
| ChargesSummary.TallyOfRows | lambdas/bursar_transfer.py:222-225 | reading a converted file's records counts every row and sums their amounts, or fails on an unreadable amount |
| ChargesSummary.SummaryOfConversion | lambdas/bursar_transfer.py:211-225 | the summary of a converted file succeeds exactly when every amount reads, and then counts one record per row with the sum of the amounts |
| ChargesSummary.SummaryExample | lambdas/bursar_transfer.py:222-225 | amounts `100.00`, `100.00`, `279.72` give 3 records and 47972 cents |
| ChargesSummary.SummaryErrorExamples | lambdas/bursar_transfer.py:222-224 | a header alone gives 0 and 0; a header without AMOUNT fails on the first record; a short record fails; a blank line, alone or before a record, is passed over; with two AMOUNT columns the last one is read |
| Handler.JobPrefix | lambdas/bursar_transfer.py:239 | the job's prefix is the source prefix, a hyphen, then the job id |
| Handler.LambdaHandler | lambdas/bursar_transfer.py:228-268 | the run's response and upload are those of `Transfer`; a successful response names the uploaded file as `bucket/key`; the entries logged for skipped fees are those of converting the job's export, and there are none when the run stops before converting |
| Handler.TransferTargetFile | lambdas/bursar_transfer.py:242-265 | a successful run whose job prefix lists a single key reports `{target bucket}/{target key of that key}` |
| Handler.TestListing | lambdas/bursar_transfer.py:236-240 | in the test bucket, the export of job 1234 is the only key under the job's prefix |
| Handler.TransferOutcome | lambdas/bursar_transfer.py:228-268 | the file is uploaded exactly when the workspace is set, the job's prefix matches one key and the export converts; the run succeeds exactly when, in addition, every amount reads; it then reports the target file, one record per row and the total |
| Handler.TestEnvironmentTarget | lambdas/bursar_transfer.py:236-265 | with the test settings and job 1234, a successful run reports `test-pickup-bucket/test/target-prefix/bursar_file_ready_to_pickup-1234-5678.csv` |

## Left out

- Storage calls are not modelled:
  - `list_objects_v2` is a filter of the bucket's keys (`KeysWithPrefix`), without pagination and without telling an absent `Contents` from an empty one;
  - `get_bursar_export_xml_from_s3` is the `exportOf` parameter of the handler;
  - `put_csv` is the `Upload` value the handler returns.
- XML parsing with `ElementTree`, namespaces and `findtext`/`iterfind` are not modelled. The export enters already parsed, as `User` and `Fee` values.
- CSV serialisation (quoting, delimiters, line terminators) is not modelled. The buffer holds records as lists of fields, and `getvalue()` is the list of records.
- Floating-point arithmetic is not modelled. `fsum`, `float(...)` and the `round(..., 2)` after every record are replaced by exact sums of integer cents.
- `ParseCents` accepts an optional sign, digits, and at most two decimals after a point (`ParseCentsAcceptsOnly`), and `ParseCentsOfDecimal`/`ParseCentsOfWhole` give the value of each such amount. Python's `float` also accepts more decimals (and rounds), exponents, surrounding whitespace, underscores, `inf` and `nan`. The model refuses those, so a file holding such an amount fails in the model where the source might go on.
- Logging and Sentry are not modelled. The entries logged for skipped fees are returned as `SkipEntry` values instead, by `XmlToCsv` and by `LambdaHandler`.
- Environment variables are not modelled: they are the fields of `Settings`. The load-time `TODAY` is a `Date` parameter.
- `strftime` is not modelled. A date is (year, month, day) within the range `datetime.date` accepts. Zero-padding of years below 1000 follows the four-digit `%Y` of common platforms.
- The `StringIO` buffer is modelled one record at a time, not one character at a time. Writes happen only at its end, which is where the writer in the source always writes.
- `event['job_id']` raising `KeyError` when the event has no job id is not modelled. `LambdaHandler` takes the job id as a string, so a run always has one.
- Failures of the handler are `HandlerError` values rather than exceptions. A failure after the upload still returns the upload, as the source has uploaded the file by then.
