# Document export and SharePoint migration: a Dafny model

This project models the parts of the export-and-migrate tool set that decide
what happens to a file. The tools export documents from a document store
(`main.go`), check the exported files (`validate_detect`, `validate`) and
upload them to SharePoint through Microsoft Graph
(`sharepoint/upload.go`, `cmd/sharepoint`).

The central piece is the resumable chunked upload `UploadFileChunkedResumeV2`:
- it reuses a saved upload state;
- it creates an upload session, retrying with back-off;
- it chooses the starting offset from the server's session information;
- it sends 5 MiB chunks with their `Content-Range` headers and moves the
  cursor according to the server's replies;
- after the loop it checks completion one last time.

The older `UploadFileChunkedResume` is modelled next to it. Around them the
model covers:
- the migration tool's configuration, file scan, per-file retry and shared
  statistics;
- the exporter's file-type detection by magic bytes, file-name sanitising,
  MIME table, role table, row window, rename-by-magic and the `SaveUser`
  merge of folder access records;
- the two validators, each a walk that classifies files into counters.

The remote service is an oracle: a sequence of replies, one per request in the
order the requests are made. A `Failed` reply stands for a transport error. A
reply is what remains after the HTTP client's own retries. The file to upload
is a byte sequence. The environment is a map. Directory walks are sequences of
entries. `url.PathEscape` is an uninterpreted per-segment function `esc`, and
the host path separator is a parameter `sep`. Each upload method returns a
`Transfer` record of every request it made and the reply it got, so its
contract can speak about the whole exchange.

Modules:
- `Wrappers` and `Files`: Option/Result, bytes, walk entries.
- `Text`: the string functions used: `%d` scanning (which skips leading
  `unicode.IsSpace` runes other than the newline), prefixes, split and join,
  lower-casing, `TrimSpace`.
- `Paths`: `filepath.ToSlash` and `filepath.Ext`.
- `SharePointPaths`: clean-up and escaping of the destination path.
- `Upload`: `UploadFileChunkedResumeV2`.
- `LegacyUpload`: `UploadFileChunkedResume`.
- `FileTypes`: signature tables and `detectFileType`.
- `Export`: the exporter's helpers and `SaveUser`.
- `Migrate`: `cmd/sharepoint/main.go`.
- `DetectReport`: `validate_detect/main.go`.
- `ExportCheck`: `validate/validate_exports.go`.

## Model

| member | source | states |
|---|---|---|
| Upload.ContentRangeRoundTrip | sharepoint/upload.go:340 | the `bytes start-end/total` header parses back to exactly the three numbers it was built from |
| Upload.NextExpectedStartOf | sharepoint/upload.go:292-296 | an entry `"N-"` of `nextExpectedRanges` yields N |
| Upload.RangeHeaderEndOf | sharepoint/upload.go:300-305 | a `Range: bytes=a-b` header yields b |
| Upload.BodyOffset | sharepoint/upload.go:291-297 | an offset is read from the body exactly when a reply has a body with at least one expected range |
| Upload.NextStart | sharepoint/upload.go:278-309 | `getNextStart` fails exactly on a transport error or an error status (above 399) |
| Upload.NextStartFromBody | sharepoint/upload.go:291-297 | with a body offset N the next start is N, whatever the headers say |
| Upload.NextStartFromRange | sharepoint/upload.go:299-306 | without a body range, a `Range: bytes=a-b` header gives b + 1 |
| Upload.NextStartDefault | sharepoint/upload.go:308 | with neither, the next start is 0 |
| Upload.ResumeOffset | sharepoint/upload.go:311-317 | the initial cursor is never negative, and it is positive exactly when the session query succeeded with a positive offset |
| Upload.WellFormedChunkBounds | sharepoint/upload.go:323-341 | every chunk lies inside the file (`start <= end < size`), holds `end - start + 1` bytes, at most 5 MiB, and ends at the last byte exactly when at most 5 MiB remained |
| Upload.Advance | sharepoint/upload.go:364-385 | after a partial reply the cursor moves strictly forward, to `end + 1` or to an offset the server reported |
| Upload.CursorIncreases | sharepoint/upload.go:323-389 | across a run of chunks the start offsets strictly increase, so no chunk is sent twice |
| Upload.SessionError | sharepoint/upload.go:254-267 | a session reply that grants no session is turned into a transport, status, body or empty-URL error |
| Upload.ResolveSession | sharepoint/upload.go:214-275 | a saved state is reused only when its path is this file and its URL is non-empty; otherwise at most 3 session requests, the ones before the last all rejected, a wait of 2, 4, … seconds after each rejected attempt (the last included), and on success the new URL and this path are written to the state file |
| Upload.StepError | sharepoint/upload.go:351-353 | a chunk's error is a request failure for its own byte range exactly when its request failed in transport |
| Upload.ExtendRun | sharepoint/upload.go:323-389 | a run followed by a well-formed chunk at the current cursor is still a run, and its replies are the run's replies followed by the new ones |
| Upload.SendChunk | sharepoint/upload.go:324-385 | one chunk is cut at the cursor with the 5 MiB rule, and a session query is made exactly when the reply is partial and carries no usable body offset |
| Upload.SendChunks | sharepoint/upload.go:323-389 | the chunk loop sends a chained run from the start offset, stops on a final reply, stops with that chunk's error on any reply other than 200/201/202/204/308, and otherwise leaves only when the cursor has reached the file size |
| Upload.Transmit | sharepoint/upload.go:311-399 | the chunk loop ends only on a final reply, on a rejected reply (which is then the error) or by draining to the file size, and only then is the final query made; success exactly when the last chunk got a final reply, or the loop drained and the final session query reports a next start at or past the file size; "incomplete" exactly when that query reports less |
| Upload.RunSession | sharepoint/upload.go:214-399 | the whole exchange after the checks: the requests consume the oracle in order (all stated by the predicate `SessionRun`), a saved state is reused only when it names this file and then nothing is created or written, otherwise one to three create requests, each but the last rejected and fewer than three only when the last was accepted, with a wait of 2, 4, … seconds after each rejection, the chunks go to the reused URL or to the granted one after it and this path were written to the state file, never to an empty URL, a session that cannot be obtained fails with its session error, the chunks form a chained run from the resume offset that ends only on a final reply, a rejected reply or by draining to the file size, and it ends without error exactly when the last chunk got a final reply or the final query covers the file, which is exactly when the state file is removed |
| Upload.UploadV2 | sharepoint/upload.go:169-400 | missing credentials or an empty file fail before any request, with no state file written or removed; otherwise everything `RunSession` guarantees (`SessionRun`) holds with the result's error: the session is reused or created (at most 3 requests, a create retried only after a rejection) for the cleaned and per-segment escaped path, the chunks go to the reused URL or to the granted one, which was first written to the state file with this path, and never to an empty URL, a session that could not be obtained fails with its session error, and the chunks form a chained run from the resume offset that ends only on a final reply, a rejected reply or by draining to the file size; the result is Ok exactly when the last chunk got a final reply or the final query covers the file, "incomplete" exactly when that query falls short, and a rejected chunk fails with its own error; Ok exactly when the state file is removed; the Ok value is the destination with one leading '/' trimmed, in '/' form |
| Upload.SentIsFileSlice | sharepoint/upload.go:124-151 | contiguous well-formed chunks together carry exactly the file bytes from the first start to the last end |
| Upload.FreshSequentialRunDeliversFile | sharepoint/upload.go:323-389 | a V2 run from offset 0 in which the cursor always moves to `end + 1`, and which reaches the file size, sends the whole file |
| LegacyUpload.TotalChunks | sharepoint/upload.go:87 | the chunk count is the least n with `n * 5 MiB >= size` |
| LegacyUpload.LegacyVerdict | sharepoint/upload.go:139-150 | as written: only a transport failure stops the loop, 200/201 ends it, any other status continues |
| LegacyUpload.CheckedVerdict | sharepoint/upload.go:139-150 | corrected: 200/201 ends the loop, 202/204/308 continues, anything else fails |
| LegacyUpload.RejectedChunkVerdicts | sharepoint/upload.go:139-150 | a chunk rejected with status 400 or more counts as progress as written, and as a failure in the corrected verdict |
| LegacyUpload.PutSlices | sharepoint/upload.go:124-151 | chunk k is bytes `k * 5 MiB ..` of the file, at most `ceil(size / 5 MiB)` chunks; every chunk before the last continued; the loop stops early only on a non-continuing verdict, and an error names the failed chunk |
| LegacyUpload.AllSlicesDeliverFile | sharepoint/upload.go:124-151 | when all chunks are sent, their bodies together are the whole file |
| LegacyUpload.UploadChunkedResume | sharepoint/upload.go:77-154 | missing credentials fail before any request; with credentials the session request for the escaped whole path is always made, and the upload URL is the one its body carries; a transport failure or an unreadable body ends it before any chunk; a body without an upload URL makes the first PUT fail in the HTTP client, so only an empty file succeeds; the Ok value is the destination as given |
| SharePointPaths.EscapeAll | sharepoint/upload.go:196-200 | every segment is escaped on its own, in order |
| SharePointPaths.EscapeSharePointPath | sharepoint/upload.go:407-413 | the escaped path is the '/'-join of the escaped '/'-segments |
| SharePointPaths.SegmentsPreserved | sharepoint/upload.go:407-413 | when escaping never yields '/', the escaped path splits back into exactly the escaped segments, one more than the original has separators |
| SharePointPaths.ReplaceDoubleSlash | sharepoint/upload.go:195 | collapsing "//" never lengthens the path and introduces no backslash |
| SharePointPaths.ReplaceDoubleSlashKeeps | sharepoint/upload.go:195 | a path without "//" is unchanged |
| SharePointPaths.CleanSharePointPath | sharepoint/upload.go:193-195 | the cleaned path has no backslash and is never longer than the original |
| SharePointPaths.CleanNormalisesSeparators | sharepoint/upload.go:193-195 | for a path with no two separators in a row, every backslash becomes '/', one leading separator is dropped, and every other rune stays in place |
| SharePointPaths.CleanKeepsCleanPath | sharepoint/upload.go:193-195 | a path that is already clean is unchanged by the clean-up |
| FileTypes.FirstMatch | main.go:758-768 | the chosen entry matches, and no earlier entry does; a magic longer than the data never matches |
| FileTypes.DetectFileType | main.go:758-768 | the result is the extension and MIME of the first matching entry, or ("unknown", "unknown") |
| FileTypes.FirstMatchIsLeast | main.go:758-768 | any matching entry preceded only by non-matching ones is the one chosen |
| FileTypes.ShadowedNeverChosen | main.go:758-768 | an entry whose magic extends an earlier entry's magic is never chosen |
| FileTypes.ExportPkIsDocx | main.go:709-711 | every `PK\x03\x04` file is detected as ".docx" with the Word MIME type |
| FileTypes.ExportShadowedEntries | main.go:705-756 | the ".xlsx", ".pptx", ".msi" and ".zip" entries are never chosen, whatever the data |
| FileTypes.ExportNeverReports | main.go:705-768 | the exporter's detection never answers ".xlsx", ".pptx", ".msi" or ".zip" |
| FileTypes.ValidatorPkIsDocx | validate_detect/main.go:16-36 | the validator's table also detects every `PK\x03\x04` file as ".docx" |
| FileTypes.ValidatorShadowedEntries | validate_detect/main.go:16-36 | the validator never reports ".xlsx" or ".pptx" |
| FileTypes.DetectFor | main.go:343-349 | corrected detection: keeps the current extension when an entry with it matches, otherwise first match |
| FileTypes.DetectForConfirms | main.go:343-349 | the corrected detection departs from first match only to confirm the current extension, and always does when an entry with it matches |
| FileTypes.ExportPkKeepsOwnExtension | main.go:709-711 | with the corrected detection, `PK` files named .docx, .xlsx, .pptx or .zip keep their extension |
| FileTypes.PkKeepsOwnExtension | validate_detect/main.go:16-24 | the same holds in both tables for the three Office Open XML extensions |
| Export.SanitizeFileName | main.go:770-777 | length is kept, exactly the characters `/ \ : * ? " < > \|` change, and none of them remains |
| Export.SanitizeKeepsSafeName | main.go:770-777 | a name without those characters is unchanged |
| Export.SanitizeIdempotent | main.go:770-777 | sanitising twice is sanitising once |
| Export.TrimSpaceResult | main.go:670 | `TrimSpace` leaves no white space at either end |
| Export.TrimSpaceKeeps | main.go:670 | a string with no white space at its ends is unchanged by `TrimSpace` |
| Export.LowerCharKeepsSpace | main.go:670 | lower-casing keeps white space and is idempotent on a character |
| Export.NormalizeMimeIdempotent | main.go:670 | trimming and lower-casing a MIME type twice is doing it once |
| Export.ExtensionFromMime | main.go:669-696 | a listed type (after trimming and lower-casing) maps to its table extension, any other to ".bin" |
| Export.ExtensionFromMimeNormalized | main.go:669-696 | the lookup ignores surrounding space and case: it gives the same answer for the normalised type |
| Export.FolderRolePermission | main.go:931-957 | the role is echoed; the permission is "view" exactly for unknown roles, and always one of read/write/owner/view |
| Export.KnownRolePermissionsDistinct | main.go:931-952 | the three known roles get three different permissions |
| Export.FindFolder | main.go:835-836 | the first record with the folder id, or none |
| Export.AddAccess | main.go:841-850 | the email ends up present; an email already present changes nothing, otherwise the access is appended |
| Export.UpsertEffect | main.go:834-862 | for a known folder id only the first matching record changes, taking the new path; for a new id one record with the access and its FOLDER_VIEWER copy is appended; no other record changes |
| Export.UpsertKeepsAccesses | main.go:834-855 | the updated record keeps every access it had, in order |
| Export.UpsertIdempotent | main.go:834-862 | saving the same access twice is saving it once |
| Export.UpsertKeepsFoldersUnique | main.go:834-862 | if folder ids were unique, they stay unique |
| Export.UserStore.SaveUser | main.go:810-862 | the users list becomes the upsert of the old list |
| Export.UserStore.constructor | main.go:824-832 | the store holds the decoded list |
| Export.PaginationWindow | main.go:222-229 | no LIMIT exactly when both bounds are 0; otherwise OFFSET is start clamped at 0 and LIMIT is `end - offset + 1`, or 101 when end is not past the offset, so always at least 2 |
| Export.FixExtension | main.go:343-349 | the path is kept when the detected extension is unknown or already the file's, or the rename fails; otherwise the old extension is replaced |
| Export.FixExtensionSettles | main.go:343-349 | after a rename the file carries the detected extension, and fixing again changes nothing |
| Export.OfficeFileRenamedToDocx | main.go:343-349 | as written, a genuine `.xlsx`, `.pptx` or `.zip` export is renamed to `.docx` |
| Export.OfficeFileKeepsName | main.go:343-349 | with the corrected detection, `PK` files named .docx, .xlsx, .pptx or .zip keep their names |
| Migrate.LoadConfig | cmd/sharepoint/main.go:57-85 | source path and SharePoint root are never empty: the variables when set, otherwise "./data" and "Documents/Migration"; without WORKER the worker count is the CPU count; the five credentials are the variables as they are |
| Migrate.LoadConfigWorker | cmd/sharepoint/main.go:69-73 | WORKER set to a decimal number, after any blanks such as a tab, gives that number; an unscannable value keeps the CPU count |
| Migrate.LoadConfigFromEnv | cmd/sharepoint/main.go:87-107 | error exactly when one of the five credentials is empty; the stored configuration holds the credentials and nothing else |
| Migrate.SharePointPathFor | cmd/sharepoint/main.go:137-144 | the destination starts with `SPRoot/timestamp/`, and what follows is the relative path in '/' form |
| Migrate.ScannedJobsSound | cmd/sharepoint/main.go:115-153 | every job is the job of a reachable, non-empty regular file of the walk |
| Migrate.ScannedJobsCount | cmd/sharepoint/main.go:115-153 | there are exactly as many jobs as reachable, non-empty regular files, and never more than entries |
| Migrate.ScanFiles | cmd/sharepoint/main.go:111-154 | the scan emits the jobs of the uploadable entries in walk order |
| Migrate.FirstStop | cmd/sharepoint/main.go:162-176 | the first attempt that succeeds or fails with "409", and none before it |
| Migrate.RetryResultSuccess | cmd/sharepoint/main.go:158-185 | the result is nil exactly when an attempt succeeds before any "409" error, or no attempt is allowed |
| Migrate.UploadWithRetry | cmd/sharepoint/main.go:158-185 | at most maxRetry calls, stopping at the first success or "409"; after each other failure a wait of `(i + 1) * 2` seconds; otherwise the last error |
| Migrate.JobResults | cmd/sharepoint/main.go:199-201 | each job's final result is that of `uploadWithRetry(job, 3)` |
| Migrate.OutcomesPartition | cmd/sharepoint/main.go:199-227 | every job is counted once: success, exists or failed |
| Migrate.Stats.constructor | cmd/sharepoint/main.go:232-238 | fresh statistics are zero and consistent |
| Migrate.Stats.Record | cmd/sharepoint/main.go:203-218 | exactly one counter grows, and the failure list grows exactly with `failed` |
| Migrate.Worker | cmd/sharepoint/main.go:189-228 | after the jobs, each counter has grown by the number of its results, and the failure list by the failed jobs' paths in order |
| Migrate.WorkerTotals | cmd/sharepoint/main.go:199-227 | success + exists + failed equals the number of jobs |
| DetectReport.Classify | validate_detect/main.go:42-75 | a file is counted exactly when it is reachable, readable and at least 4 bytes long; a counted file is "unrecognised" exactly when the detection answers "unknown"; "valid" means detected equals lower-cased extension, "wrong extension" that a known detection differs from it |
| DetectReport.TotalPartition | validate_detect/main.go:58-74 | total = valid + mismatch + unknown |
| DetectReport.Report | validate_detect/main.go:38-78 | the printed counters are the number of counted files, of wrongly named files and of unrecognised files |
| DetectReport.OfficeFileFlagged | validate_detect/main.go:68-72 | as written, every genuine .xlsx or .pptx file is reported with the wrong extension |
| DetectReport.OfficeFileAccepted | validate_detect/main.go:68-72 | with the corrected detection, genuine .docx, .xlsx and .pptx files are valid |
| DetectReport.CorrectionOnlyConfirms | validate_detect/main.go:59-72 | the correction only turns reports into "valid": a file it reports with the wrong extension was reported so as written, and it reports a file as unrecognised exactly when the original does |
| DetectReport.CorrectionReducesMismatches | validate_detect/main.go:58-74 | the corrected report never has more mismatches and has the same number of unknown files |
| ExportCheck.Magic | validate/validate_exports.go:23-36 | `data[:4]` is the file's first bytes followed by zeros: the re-slice is bounded by the capacity of the buffer `os.ReadFile` returns, which is at least 512 |
| ExportCheck.PaddingAgrees | validate/validate_exports.go:36-55 | comparing the padded magic with a pattern free of zero bytes is testing whether the file starts with the pattern |
| ExportCheck.IsValidExport | validate/validate_exports.go:36-56 | valid exactly for ".pdf" with "%PDF", the Office Open XML and ".zip" extensions with "PK", ".doc" with D0 CF 11 E0, and ".txt", judged on the file's own bytes even when it is shorter than four bytes |
| ExportCheck.ExtensionCaseSensitive | validate/validate_exports.go:37-55 | ".PDF" and ".DOCX" are never valid |
| ExportCheck.DetectedNamePasses | main.go:343-349 | a file the exporter names ".pdf", ".docx" or ".doc" by its magic passes the export validator |
| ExportCheck.Judge | validate/validate_exports.go:14-64 | every reachable, readable, non-empty file is checked, however short; unreadable and empty files are the bad ones not checked; a checked file is valid exactly when it passes its extension's test |
| ExportCheck.TallyMeaning | validate/validate_exports.go:23-64 | count is the number of non-empty readable files; bad files are the unreadable and empty ones plus those that fail their check |
| ExportCheck.InvalidAmongChecked | validate/validate_exports.go:57-63 | no more files fail their check than are counted |
| ExportCheck.CheckExports | validate/validate_exports.go:9-73 | the walk always ends with the summary, whose counters are those counts |
| Text.ScanIntText | cmd/sharepoint/main.go:72 | `%d` scanning of a number's decimal text gives back that number |
| Text.ScanIntSkipsBlanks | cmd/sharepoint/main.go:72 | white space other than a newline before the number is skipped and counted as consumed, and changes nothing else |
| Paths.ExtOfAppended | main.go:344 | `filepath.Ext` of `stem + ".ext"` is ".ext" for a plain extension |

## Left out

- `GetToken` and the site id are inputs; the token request, its HTTP call and its error text are not part of this model.
- HTTP, JSON and resty retries: every request's outcome comes from the reply oracle. A reply is what remains after resty's retries on 429 and 503. The JSON bodies are the decoded `SessionInfo`. The create body's file name and conflict behaviour are not modelled.
- File I/O: the file is a byte sequence that does not change while it is uploaded, so reads return the full count. The short-read and read-error branches of both chunk loops are not modelled.
- Opening the file: the `os.Open` and `os.Stat` failures of `UploadFileChunkedResumeV2` (sharepoint/upload.go:178-187) are not modelled, nor the `os.Open` failure of `UploadFileChunkedResume` (sharepoint/upload.go:78-80), whose ignored `Stat` error (sharepoint/upload.go:84) would leave a nil file info; both models start from a readable file.
- State-file I/O: writing and removing the state file are recorded in the `Transfer`, and a failed write or remove is not modelled.
- `filepath.Rel` is an input field of each walk entry, and `filepath.WalkDir` and `filepath.Walk` are the entry sequence.
- Concurrency: goroutines, the channel, the mutex, the atomics, `sync.Once` and the progress bar. For WORKER of 1 or more, the worker runs sequentially over the job list, which gives the same counters.
- Migrate.Worker: a WORKER of 0 or less is not modelled. `run` then starts no worker goroutine (cmd/sharepoint/main.go:295), so nothing is uploaded and every counter stays 0, and with more than 1000 files the scan blocks on the full 1000-slot channel (cmd/sharepoint/main.go:267); the model handles every job whatever the WORKER value.
- Floating point: `SizeMB` and the size totals are not modelled.
- Real sleeping: waits are kept as numbers of seconds.
- SQL, the database schema, CSV and JSON files, `loadLargeObject`, `SaveUserFolder`, `SaveListUsers`, `extractAllFilesOld`, `uploadFile`, `uploadFolder` and the logs package.
- The content choice in `extractAllFiles` (PDF column or large object) is not modelled; it is a database lookup.
- `sharepoint.UploadFile` and the sharing helpers in sharepoint/access.go and sharepoint/item.go are not part of this model.
- `ToLower` maps ASCII letters only; Unicode case mapping beyond ASCII is not modelled. `TrimSpace` uses the full `unicode.IsSpace` list.
- Integers are unbounded: int64 overflow of offsets, sizes and counters, and overflow in `%d` scanning, are not modelled.
- `SharePointPaths.EscapeSharePointPath`: `url.PathEscape` is uninterpreted, so nothing is claimed about what it escapes or about idempotence of the escaped path.
- `Migrate.LoadConfigFromEnv`: the global `cfg` it assigns is returned instead of stored.
- Error message texts are replaced by the `UploadError` constructors, except the "409" test, which keeps the text.
- `LegacyUpload.UploadChunkedResume`: a PUT to an empty upload URL is a request failure for chunk 0 that consumes no reply; what resty and `net/http` report for it is not modelled.

## Findings

| source | as written | input that shows it | evidently intended | confidence | as-written member | corrected member |
|---|---|---|---|---|---|---|
| sharepoint/upload.go:139-150 | a chunk reply with any status other than 200/201 counts as progress, so the upload reports success after every chunk was rejected | a one-chunk file whose PUT reply is 500: the loop ends and the path is returned with no error | only 202/204/308 continue, and any other status fails the upload, as in the V2 loop | not executed | LegacyUpload.LegacyVerdict | LegacyUpload.CheckedVerdict |
| main.go:343-349 | the exporter renames a file to the first-match detected extension, and `PK\x03\x04` always matches ".docx" first | an exported spreadsheet `report.xlsx` whose data starts with `PK\x03\x04` is renamed to `report.docx` | the tables list .xlsx, .pptx and .zip with the same magic, so a file already carrying one of them keeps it | not executed | Export.OfficeFileRenamedToDocx | Export.OfficeFileKeepsName |
| validate_detect/main.go:68-72 | the detection validator compares the first-match extension with the file's | a genuine `sheet.xlsx` is reported as having the wrong extension (should be .docx) | genuine .xlsx and .pptx files are reported valid | not executed | DetectReport.OfficeFileFlagged | DetectReport.OfficeFileAccepted |
