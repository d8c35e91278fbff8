# gen3 submission chunking and manifest verification, in Dafny

This project models two parts of the gen3 Python SDK and proves properties
about them.

**`Gen3Submission.submit_file`** (gen3/submission.py) sends a spreadsheet of
records to a Gen3 Data Commons, one chunk of rows per request.

- Before it sends anything, it does four things:
  - picks a reader from the file name's suffix, ignoring case;
  - strips leading asterisks from the column names;
  - rejects a file whose `submitter_id` values repeat;
  - splits the project id at its first hyphen into program and project.
- The chunk loop then reads each response and decides the next chunk:
  - an overload notice halves the chunk size and resends from the same row;
  - a response that is not JSON raises;
  - a rejected chunk with both valid and invalid entities is sent again holding only the valid rows;
  - a rejected chunk whose failed entities are all valid raises;
  - anything else moves on to the next rows.
- The results dictionary collects:
  - the successful submitter ids;
  - the invalid ids with their errors;
  - a trace line for every response except an unparseable one (which raises) or one with an unrecognised code.

The model has two modules for this:

- `SubmitPrechecks` covers the checks before the first request.
- `Submission` covers the loop:
  - `Step` gives one pass of the loop body.
  - `RunFrom` gives a whole run against a server oracle.
  - `SubmitFile`, `ChunkLoop` and `HandleResponse` are imperative methods. They follow the source's loop and are proved equal to those functions.

**`verify_manifest`** (gen3/tools/indexing/verify_manifest.py) compares each
row of a manifest with the index record stored for its guid.

- Seven adapters read the expected fields from a row, accepting column synonyms.
- The producer strips every key and value of each row and queues it, then queues `"DONE"`.
- For each row, the consumer fetches the record and writes one line per disagreement:
  - `authz`, `acl` and `urls` are compared as sorted lists;
  - `file_size` and `md5` are compared as values, with `None` and `""` treated as equal;
  - `file_name` is reported only when the index has no name and the manifest gives one;
  - a missing record or a failed fetch gives one `no_record` line.

The model has two modules for this:

- `ManifestRows` holds the adapters and the row trimming.
- `ManifestVerify` holds the comparison and the producer/consumer pass.

The consumer's loop is the method `ManifestVerify.ParseFromQueue`. It is proved equal to the
log function `ManifestVerify.Log`.

Two helper modules model the Python text operations the core relies on:

- `Text`:
  - `str.strip` over Python's whitespace set;
  - `split(" ")`;
  - ASCII `lower`, `endswith` and `in`;
  - `os.path.basename`;
  - decimal `int()`.
- `Sorting`: `sorted` on strings.

The model follows the code. Two places where that matters:

- `_get_urls_from_row` reads the `urls` column even in its `url` branch, so a
  `url` column is never read (`ManifestRows.UrlColumnIgnored`).
- `.csv` and `.xlsx` are tested on the lower-cased base name, while `.tsv` and
  `.txt` are tested on the lower-cased whole path. The lower-cased base name
  always ends the lower-cased path right after a `/`, so the two tests agree
  (`SubmitPrechecks.LowerBasename`, `SubmitPrechecks.BasenameSuffixes`).

## Model

| member | source | states |
|---|---|---|
| Text.Strip | gen3/tools/indexing/verify_manifest.py:276 | the stripped text is a slice of the text with only whitespace cut off either end, it neither starts nor ends with whitespace, and it is empty exactly when the text is all whitespace |
| Text.StripIdempotent | gen3/tools/indexing/verify_manifest.py:276 | stripping twice gives what stripping once gives |
| Text.StripUnchanged | gen3/tools/indexing/verify_manifest.py:276 | a text with no surrounding whitespace is left as it is |
| Text.Split | gen3/tools/indexing/verify_manifest.py:131 | `split(" ")` gives at least one piece, none holding the separator, and joining the pieces with it gives the text back |
| Text.SplitJoin | gen3/tools/indexing/verify_manifest.py:131 | splitting the join of separator-free pieces gives those pieces back |
| Text.SplitAppend | gen3/tools/indexing/verify_manifest.py:131 | splitting two texts joined by one separator gives the pieces of the first followed by the pieces of the second |
| Text.Lower | gen3/submission.py:323 | lower-casing keeps the length and lower-cases each character |
| Text.Basename | gen3/submission.py:322 | the base name has no `/`, ends the path, and follows a `/` when shorter than the path |
| Text.EndsWithIff | gen3/submission.py:323-333 | `s.endswith(suffix)` holds exactly when `s` is some text followed by `suffix` |
| Text.ContainsIff | gen3/submission.py:392-397 | `sub in s` holds exactly when `sub` occurs at some position of `s` |
| Text.ParseInt | gen3/tools/indexing/verify_manifest.py:111 | `int()` succeeds exactly on an optional sign followed by at least one digit |
| Text.ParseShowInt | gen3/tools/indexing/verify_manifest.py:111 | reading back the decimal text of any integer gives that integer |
| Sorting.Sort | gen3/tools/indexing/verify_manifest.py:324 | `sorted` returns an ordered permutation of its input |
| Sorting.SortedUnique | gen3/tools/indexing/verify_manifest.py:324 | two ordered lists with the same elements are equal |
| Sorting.SortEqualIffSameElements | gen3/tools/indexing/verify_manifest.py:324 | two lists sort to the same list exactly when they hold the same elements with the same multiplicities |
| ManifestRows.FirstPresent | gen3/tools/indexing/verify_manifest.py:91-96 | an `if in … elif in … else None` chain gives the cell of the first listed column the row has, and `None` only when it has none |
| ManifestRows.FirstPresentOfColumns | gen3/tools/indexing/verify_manifest.py:176-183 | the synonym lists read `md5` before `md5sum`, `file_size` before `size`, and `file_name` before `filename` before `name` |
| ManifestRows.GuidOf | gen3/tools/indexing/verify_manifest.py:65-78 | the guid is the `guid` cell when it is non-empty, and otherwise whatever `GUID` holds (or `None`) |
| ManifestRows.Md5Of | gen3/tools/indexing/verify_manifest.py:81-96 | the md5 is the `md5` cell, else the `md5sum` cell, else `None` |
| ManifestRows.FileSizeOf | gen3/tools/indexing/verify_manifest.py:99-118 | an integer exactly when the chosen column parses, and then that integer; the raw `file_size` text exactly when that column is present and does not parse; `None` otherwise |
| ManifestRows.FileSizeReadsBackDecimal | gen3/tools/indexing/verify_manifest.py:109-113 | a `file_size` or `size` cell holding the decimal text of `n` gives the integer `n` |
| ManifestRows.DropEmpty | gen3/tools/indexing/verify_manifest.py:131 | `[item for item in … if item]` keeps only non-empty items taken from the list, and every non-empty item as often as it occurs |
| ManifestRows.DropEmptyAppend | gen3/tools/indexing/verify_manifest.py:131 | the filter keeps the order of the items: filtering two lists in turn gives the first list's items before the second's |
| ManifestRows.DropEmptyKeeps | gen3/tools/indexing/verify_manifest.py:131 | a list with no empty item passes unchanged |
| ManifestRows.Tokens | gen3/tools/indexing/verify_manifest.py:131 | the tokens of a list cell are non-empty and hold no space |
| ManifestRows.TokensSkipRuns | gen3/tools/indexing/verify_manifest.py:131 | a run of one or more spaces between two stripped, non-empty texts only separates their tokens: the tokens of the whole are those of the first text followed by those of the second |
| ManifestRows.TokensSkipRepeatedSpaces | gen3/tools/indexing/verify_manifest.py:131 | the two-space case: `"a  b"` reads as `["a", "b"]` |
| ManifestRows.TokensRoundTrip | gen3/tools/indexing/verify_manifest.py:131 | space-joined tokens without whitespace read back as the same list |
| ManifestRows.AclOf | gen3/tools/indexing/verify_manifest.py:121-131 | the acl list holds non-empty space-free tokens and is empty when the row has no `acl` column |
| ManifestRows.AuthzOf | gen3/tools/indexing/verify_manifest.py:134-145 | the authz list holds non-empty space-free tokens and is empty when the row has no `authz` column |
| ManifestRows.UrlsOf | gen3/tools/indexing/verify_manifest.py:148-163 | the urls list is the tokens of the `urls` cell, or of `""` when there is none |
| ManifestRows.UrlColumnIgnored | gen3/tools/indexing/verify_manifest.py:160-161 | without a `urls` column the list is empty whether or not a `url` column is present |
| ManifestRows.FileNameOf | gen3/tools/indexing/verify_manifest.py:166-183 | the file name is the `file_name`, else `filename`, else `name` cell, else `None` |
| ManifestRows.ParseRow | gen3/tools/indexing/verify_manifest.py:186-194 | applying the parser table, only the size can come out as an integer, and the three lists hold non-empty space-free tokens |
| ManifestRows.ParseRowOfUnknownColumns | gen3/tools/indexing/verify_manifest.py:186-194 | a row with none of the thirteen recognised columns parses as `None` and empty lists throughout |
| ManifestRows.SynonymsAgree | gen3/tools/indexing/verify_manifest.py:65-183 | in any row without the columns read before it, a value under a synonym column parses the same as under the preferred column (`GUID`/`guid` for non-empty values, `md5sum`/`md5`, `size`/`file_size` when an integer, `filename`/`name`/`file_name`) |
| ManifestRows.ParseRowReadsOnlyKnownColumns | gen3/tools/indexing/verify_manifest.py:186-194 | the parsed record of a row depends only on the thirteen columns the parsers read |
| ManifestRows.TrimRow | gen3/tools/indexing/verify_manifest.py:273-277 | the copying loop builds exactly the trimmed row |
| ManifestRows.TrimmedKeys | gen3/tools/indexing/verify_manifest.py:274-276 | the keys of the trimmed row are exactly the stripped keys of the row read |
| ManifestRows.TrimmedLastWins | gen3/tools/indexing/verify_manifest.py:275-276 | a key holds the stripped value of the last item whose key strips to it |
| ManifestRows.TrimmedIsClean | gen3/tools/indexing/verify_manifest.py:276 | every key and value of the trimmed row is already stripped |
| ManifestVerify.ListsDifferIffElementsDiffer | gen3/tools/indexing/verify_manifest.py:324 | the `sorted(a) != sorted(b)` test fails exactly when the lists differ as multisets |
| ManifestVerify.ListsDifferIgnoresOrder | gen3/tools/indexing/verify_manifest.py:331 | reordering either list does not change the outcome of the list test |
| ManifestVerify.ListsDifferOnRepeat | gen3/tools/indexing/verify_manifest.py:368 | a repeated entry is a difference: the list test counts duplicates |
| ManifestVerify.NullLikeIsNoneOrEmpty | gen3/tools/indexing/verify_manifest.py:337-342 | `not v and v != 0` holds exactly for `None` and `""` |
| ManifestVerify.ScalarTestsIff | gen3/tools/indexing/verify_manifest.py:336-378 | the `file_size`/`md5` test fails exactly when the values differ and are not both `None` or `""`; the `file_name` test fails exactly when the index holds `None`, `""` or `0` and the manifest anything else |
| ManifestVerify.NullEquivalence | gen3/tools/indexing/verify_manifest.py:336-350 | `""` and `None` never count as differing; `0` and `None` do; a non-empty text differs from both |
| ManifestVerify.VerifyRowWithoutRecord | gen3/tools/indexing/verify_manifest.py:309-320 | a missing record or a failed fetch gives exactly one `no_record` line, with the row's guid, the whole row as expected and the message as actual |
| ManifestVerify.CheckRecordReports | gen3/tools/indexing/verify_manifest.py:324-378 | each field's line appears exactly when its own test fails, all lines carry the row's guid, they come in the source's order (authz, acl, file_size, md5, urls, file_name) with no `no_record` line, and each shows the manifest's value of its field as expected and the index's value as actual |
| ManifestVerify.FileNameReportedOnlyWhenMissing | gen3/tools/indexing/verify_manifest.py:373-378 | a file name the index already holds is never reported, even when the manifest names the file differently |
| ManifestVerify.VerifyRowEmptyIff | gen3/tools/indexing/verify_manifest.py:309-378 | a row adds nothing to the log exactly when its record was found and agrees on every checked field |
| ManifestVerify.LogEmptyIff | gen3/tools/indexing/verify_manifest.py:300-380 | the log is empty exactly when every row's record was found and agrees with it |
| ManifestVerify.LogSplits | gen3/tools/indexing/verify_manifest.py:300-380 | the log of a manifest is the log of its first rows followed by the lines of the rest, in row order |
| ManifestVerify.RowsBeforeDoneAt | gen3/tools/indexing/verify_manifest.py:298-300 | the consumer stops at the first `"DONE"`; the items before it are exactly the rows it handles |
| ManifestVerify.ParseFromQueue | gen3/tools/indexing/verify_manifest.py:283-382 | the consumer loop writes exactly the lines of every row queued before `"DONE"`, row by row |
| ManifestVerify.VerifyAllIndexRecords | gen3/tools/indexing/verify_manifest.py:239-280 | the whole pass logs exactly the lines of the trimmed manifest rows, in order |
| SubmitPrechecks.FormatOf | gen3/submission.py:322-336 | CSV exactly when the lower-cased name ends in `.csv`; Excel for `.xlsx`; tab-separated for `.tsv` or `.txt`; tried in that order; the unsupported-format error exactly when none matches |
| SubmitPrechecks.LowerBasename | gen3/submission.py:322-323 | the lower-cased base name ends the lower-cased path, after a `/` |
| SubmitPrechecks.SuffixAfterSlash | gen3/submission.py:322-333 | a suffix without `/` ends the path exactly when it ends the part after the last `/` |
| SubmitPrechecks.FormatIgnoresCase | gen3/submission.py:323-333 | the format of a name and of its lower-cased form agree |
| SubmitPrechecks.FormatIgnoresDirectory | gen3/submission.py:322-333 | directories in front of a file name do not change its format |
| SubmitPrechecks.LStrip | gen3/submission.py:337 | `lstrip('*')` removes exactly the leading run of `*`: the result does not start with `*` and is what follows a run of `*` in the input |
| SubmitPrechecks.LStripRepeat | gen3/submission.py:337 | any number of leading `*` in front of an unmarked name is removed |
| SubmitPrechecks.LStripIdempotent | gen3/submission.py:337 | stripping twice gives what stripping once gives |
| SubmitPrechecks.RenameColumns | gen3/submission.py:337 | the renaming keeps the number and order of the columns and strips each name |
| SubmitPrechecks.RenameStripsMarks | gen3/submission.py:337 | a column `**submitter_id` is renamed `submitter_id` |
| SubmitPrechecks.FindColumn | gen3/submission.py:340 | `df.submitter_id` finds the first column of that name, and nothing when there is none |
| SubmitPrechecks.ColumnValues | gen3/submission.py:340 | one value per row, taken from the column, with a short row reading as `""` |
| SubmitPrechecks.Unique | gen3/submission.py:340 | `unique()` gives distinct values, no more than the input, and the same set of values |
| SubmitPrechecks.UniqueKeepsLengthIffDistinct | gen3/submission.py:340-343 | the length test raises exactly when some submitter id is repeated |
| SubmitPrechecks.SplitProject | gen3/submission.py:347 | the unpacking fails exactly when the id has no hyphen; otherwise the program has no hyphen and program, `-`, project rebuild the id |
| SubmitPrechecks.SplitProjectUnique | gen3/submission.py:347 | a program without a hyphen and any project are recovered from their joined id |
| SubmitPrechecks.Prepare | gen3/submission.py:322-349 | on success, the job has the file's format, the renamed header with a `submitter_id` column, the rows, distinct ids one per row, and a program and project that rebuild the project id; the format error comes first, then the missing column |
| SubmitPrechecks.DuplicateIdsRejected | gen3/submission.py:339-343 | a repeated submitter id is rejected whatever the project id |
| SubmitPrechecks.PrepareNeedsHyphen | gen3/submission.py:347 | a file that passes the checks is accepted exactly when the project id has a hyphen, and then with the table's submitter ids |
| Submission.OverloadedIffMarker | gen3/submission.py:392-397 | a response is an overload notice exactly when one of the four marker texts occurs in it |
| Text.ContainsAnyIff | gen3/submission.py:392-397 | the chain of `marker in response` tests holds exactly when one of the markers occurs at some position of the text |
| Submission.ClassifyVerdicts | gen3/submission.py:392-474 | the verdict of each response: an overload marker first, then a body that is not JSON, then no `code` with or without a `message`; with a code, 200 accepts, 400, 403 and 404 reject, 500 is a server error, and any other code is ignored; the entities, message and errors come from the body |
| Submission.RecordTouches | gen3/submission.py:392-474 | one trace line for every verdict but an unparseable or ignored response; `succeeded` changes only on a 200, `invalid` only on a rejection, `other` only without a code, `details` never |
| Submission.SubmitterIdsOf | gen3/submission.py:439-441 | the submitter id of each entity, in order |
| Submission.ValidIdsMembers | gen3/submission.py:457-460 | an id is collected as valid-but-failed exactly when some valid entity carries it |
| Submission.InvalidIdsMembers | gen3/submission.py:461-464 | an id is collected as invalid exactly when some invalid entity carries it |
| Submission.RecordInvalidKeys | gen3/submission.py:457-464 | `results["invalid"]` gains exactly the invalid ids, and earlier entries for other ids are kept |
| Submission.RecordInvalidLastWins | gen3/submission.py:457-464 | an invalid id is in `results["invalid"]` with the error text of the last invalid entity that carries it |
| Submission.Slice | gen3/submission.py:353 | `df[start:start+size]` is the run of consecutive positions from `start`, cut at the last row |
| Submission.Retain | gen3/submission.py:479-481 | the retried chunk holds exactly the rows of the chunk whose id is in the list, and is no longer than it |
| Submission.RetainKeepsOrder | gen3/submission.py:479-481 | the selection keeps the chunk's row order; with the membership clause of `Retain` this fixes the retried chunk exactly |
| Submission.StepKeepsOrder | gen3/submission.py:476-514 | every next chunk (the following slice, a halved slice or a selection) is in table order when the chunk before it was |
| Submission.RunSendsRowsInOrder | gen3/submission.py:353-514 | every request of a run sends its rows in table order, when the first chunk is in table order (a slice is) |
| Submission.Step | gen3/submission.py:366-514 | a pass that continues keeps the chunk within the table and counts one more chunk |
| Submission.RunFrom | gen3/submission.py:366-514 | a run sends at most as many requests as its fuel allows |
| Submission.Submit | gen3/submission.py:306-520 | a failed check raises before anything is sent; at most `fuel` requests are sent, and a submission cut short used all of them |
| Submission.Sent | gen3/submission.py:385 | the chunks sent, one per request, in order |
| Submission.StepRaisesOnUnparseable | gen3/submission.py:404-409 | a response that is neither an overload notice nor JSON raises |
| Submission.StepOnOverload | gen3/submission.py:392-401 | an overload adds one trace line and halves the chunk size from the same row, or raises "timing out" when the chunk size is below 2 |
| Submission.StepAdvances | gen3/submission.py:495-498 | any other response without valid-but-failed entities advances `start` by the chunk size and keeps the chunk size |
| Submission.StepRetries | gen3/submission.py:476-486 | a rejection with valid and invalid entities resends, from the same row, only the rows of the valid entities, after recording the invalid ones |
| Submission.StepRaisesOnValidOnly | gen3/submission.py:488-493 | a rejection whose failed entities are all valid raises |
| Submission.StepRecordsSuccess | gen3/submission.py:429-441 | a 200 appends its entities' submitter ids to `succeeded`, leaves `invalid` alone and moves on |
| Submission.RetryDropsInvalid | gen3/submission.py:476-481 | the retried chunk holds only rows of the current chunk with a valid id, drops every row without one, and every invalid id is in `results["invalid"]` |
| Submission.NoLaterTransitive | gen3/submission.py:366-514 | the "no earlier than" order on loop states is transitive |
| Submission.StepMonotone | gen3/submission.py:366-514 | one pass never grows the chunk size (kept or halved), never moves `start` back, only adds to the results (at most one trace line) and counts one request |
| Submission.RunMonotone | gen3/submission.py:366-514 | along a run every later state is no earlier than every earlier one |
| Submission.RunCounts | gen3/submission.py:366-514 | the request counter of the run's states rises by one per request from the starting count |
| Submission.RunSendsWhileContinuing | gen3/submission.py:366 | every request of a run was sent with the loop condition `start + len(chunk) <= len(df)` holding |
| Submission.RunEnds | gen3/submission.py:366 | a run returns only when `start + len(chunk) > len(df)`, with that state's results; a run cut short used all its fuel |
| Submission.PrecheckFailureSendsNothing | gen3/submission.py:322-347 | a failed check on the file, columns, ids or project id raises that error before any request |
| Submission.DuplicateIdsSendNothing | gen3/submission.py:339-343 | a file with a repeated submitter id raises before any request |
| Submission.RunFollowsPlan | gen3/submission.py:366-498 | when the server lets every chunk through, the loop sends exactly the planned chunks and returns |
| Submission.PlanCoversRows | gen3/submission.py:351-366 | the planned chunks cover every row from the offset on, once each and in order; there are `(n - start) / size + 1` of them, and the last is empty exactly when the rows divide evenly |
| Submission.SubmitFollowsPlan | gen3/submission.py:306-520 | when the server lets every chunk through, a whole submission sends exactly the planned chunks from the row offset on and returns |
| Submission.OffsetPastEndSendsNothing | gen3/submission.py:351-366 | a row offset past the last row sends nothing and returns empty results |
| Submission.AdvanceOnce | gen3/submission.py:495-498 | with a server that lets every chunk through, one pass moves to the next slice of the same size |
| Submission.SliceAppend | gen3/submission.py:496-498 | two adjacent slices make one |
| Submission.AppendSucceeded | gen3/submission.py:439-441 | the loop appends the submitter id of every entity, in order |
| Submission.SortRejected | gen3/submission.py:457-464 | the loop over a rejected chunk's entities builds the invalid map, the valid-but-failed ids and the invalid ids |
| Submission.ReadResponse | gen3/submission.py:392-474 | handling a readable response updates the results as the verdict dictates, sets `timeout` exactly on an overload, and sorts a rejection's ids |
| Submission.HandleResponse | gen3/submission.py:391-514 | the loop body gives exactly the next state or the error of one `Step` |
| Submission.SubmitFile | gen3/submission.py:306-520 | `submit_file` ends exactly as the specification `Submit` says, for every file, table, project id and server |
| Submission.ChunkLoop | gen3/submission.py:351-514 | the chunk loop ends exactly as `RunFrom` from the first window says |

## Left out

- HTTP requests are not modelled. The server is a function from the request number and the request to a response. Its JSON parse is part of the response.
- Reading the file (pandas CSV, TSV and Excel readers, `fillna`) is not modelled. The table the reader would produce is an input. For an Excel file this is the first worksheet.
- Transport failures are not modelled: every request gets a response. On a `ConnectionError` the source's handler reads `e.message`, which Python 3 exceptions do not have, so `submit_file` raises there and nothing is ever appended to `details`; `details` stays empty in the model.
- A JSON body that is not an object is not modelled. Nor is an entity without `unique_keys` (a `KeyError` in the source). A body parses into the keys the loop reads.
- `message` present with a JSON `null` value is not modelled. A message is either absent or a string.
- Trace lines in `results["responses"]` are structured `TraceLine` values, not the source's formatted text. The `print` output is left out.
- Submission.SubmitFile: runs at most `fuel` requests and ends `Unfinished` when that runs out. Some servers keep the source looping for ever, for example one that always rejects without naming an invalid entity of the chunk.
- Submission.SubmitFile: `chunk_size` and `row_offset` are natural numbers. Python's negative slicing is not modelled. A chunk size of 0 makes no progress and ends `Unfinished`.
- Submission.Step: halves the chunk size as an exact integer halving. The source's `int(chunk_size / 2)` goes through a float and differs for chunk sizes above 2^53.
- Submission.RetryDropsInvalid: holds only for the request that immediately follows. After a later overload the chunk is re-sliced from the table, so a row with an invalid id can be sent again. The source does the same.
- Text.Lower: lower-cases ASCII letters only. Python's Unicode `lower()` is not modelled.
- SubmitPrechecks.FindColumn: if two columns carry the same name after the renaming, the first is used. pandas would give a data frame for that case.
- Text.ParseInt: accepts an optional sign and decimal digits. Python's surrounding whitespace, underscores and non-ASCII digits are not modelled. Cells are stripped before parsing anyway.
- asyncio, the semaphore and the executor writes are not modelled. The producer and consumer run as one sequential pass, and the record fetch is a function from the row number and the guid.
- The log lines are structured `Discrepancy` values. The output file, the `logging` calls, the temporary folder and the timing are left out.
- The `manifest_row_parsers` parameter of `async_verify_object_manifest` is not modelled. The consumer always uses the module-level table.
- `csv.DictReader` details are not modelled. These include ragged rows, whose extra cells become a `None` key or a list value. A row is a list of text key/value pairs.
- The command-line entry point, `verify_object_manifest` and the rest of `Gen3Submission` are not part of this model.
