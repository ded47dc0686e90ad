# Audio deepfake detector client — a Dafny model

This project models the behavioural core of the browser client of an audio
deepfake-detection service: the client-side file validator and its filename
and size helpers, the detection hook's upload lifecycle (idle, uploading,
processing, completed, error), the pure parts of the HTTP client (progress
scaling, the synthetic 75/100 tail, the result merge, failure messages, the
health probe, the shared instance) and the upload widget's status line, loading
flag, drag highlight and first-file rule.

Everything is a pure function over immutable datatypes. The transport is an
input: the upload's progress events, and either the server's JSON body or the
error the request failed with. The server's body is a JSON value (`Json.Value`)
and a detection result is a JSON object, so object spread is modelled exactly
(`Json.Spread`). The hook is a transition function `AudioDetection.Step` over
`(UploadState, AnalysisStatus)`. Its events are a file selection, which runs
the validator, a progress value, success, failure and reset. `Lifecycle` feeds a
whole request's callbacks into it in the order the client delivers them.

Modules: `Wrappers` (Option), `Numbers` (rounding, integer logarithm), `Text`
(ASCII case folding, suffixes, `lastIndexOf`, decimal numerals), `Json`,
`Types`, `FileValidator`, `Api`, `AudioDetection`, `AudioUploader`, `Lifecycle`,
`GuardedDetection` (the corrected hook of the finding below).

Three behaviours of the code worth stating up front:

- Progress callbacks carry no session token. A late callback from an earlier
  request still changes the current state (see Findings).
- The server's `file_info` keys are spread after the local `name` and `size`,
  so the server's values win (`Api.ServerFileInfoOverrides`).
- `formatFileSize` passes the `toFixed(2)` string through `parseFloat`, which
  drops trailing zeros, so 1536 bytes prints "1.5 KB"
  (`FileValidator.FormatFileSizeKilobytes`).

## Model

| member | source | states |
|---|---|---|
| FileValidator.ValidateAudioFile | audio-deepfake-detector/src/utils/fileValidator.ts:3-41 | valid iff no error, and every error is non-empty; a size over 50·1024·1024 gives the size message; within the limit, valid iff the MIME type is one of the seven allowed types or the ASCII-lower-cased name ends with one of the six extensions; an invalid file within the limit gets the fixed format message |
| FileValidator.OversizeWinsOverFormat | audio-deepfake-detector/src/utils/fileValidator.ts:18-38 | an oversized file is refused with the size message even when its MIME type and extension are both allowed |
| FileValidator.ExactlyMaxSizeAccepted | audio-deepfake-detector/src/utils/fileValidator.ts:4-23 | the bound is strict: an acceptable file of exactly 50 MiB is valid and one byte more is not |
| FileValidator.ExtensionCheckIgnoresCase | audio-deepfake-detector/src/utils/fileValidator.ts:29-31 | files whose names agree after case folding get the same verdict |
| FileValidator.UpperCaseWavAccepted | audio-deepfake-detector/src/utils/fileValidator.ts:29-40 | "SONG.WAV" within the limit is valid whatever its MIME type |
| FileValidator.SizeErrorReportsSize | audio-deepfake-detector/src/utils/fileValidator.ts:21 | the size message names the limit as 50 and prints the size as `FixedTwo(size, 2^20)`: two decimals whose value is size/2^20 rounded half-up to the hundredth |
| FileValidator.AnyEndsWith | audio-deepfake-detector/src/utils/fileValidator.ts:29-31 | true iff some listed extension is a suffix of the name |
| FileValidator.FormatFileSize | audio-deepfake-detector/src/utils/fileValidator.ts:43-49 | a nonzero size is printed in the unit 1024^i that brackets it (1024^i <= bytes < 1024^(i+1)), as bytes/1024^i rounded to hundredths with trailing zeros dropped, then the unit name ("undefined" past GB) |
| FileValidator.FileSizeUnitByPowers | audio-deepfake-detector/src/utils/fileValidator.ts:45-48 | a size in [1024^i, 1024^(i+1)) for i < 4 is printed with the i-th of Bytes/KB/MB/GB |
| FileValidator.FormatFileSizeKilobytes | audio-deepfake-detector/src/utils/fileValidator.ts:43-49 | 0 prints "0 Bytes" and 1536 prints "1.5 KB" |
| FileValidator.FormatFileSizeOneMegabyte | audio-deepfake-detector/src/utils/fileValidator.ts:43-49 | 1048576 prints "1 MB" |
| FileValidator.FormatFileSizeJustBelowPebibyte | audio-deepfake-detector/src/utils/fileValidator.ts:43-49 | 2^50 − 1 bytes picks 1024^4 and the missing fifth unit: "1024 undefined" |
| FileValidator.GetFileExtension | audio-deepfake-detector/src/utils/fileValidator.ts:51-53 | the result is always a suffix of the name |
| FileValidator.NoDotNoExtension | audio-deepfake-detector/src/utils/fileValidator.ts:52 | for names up to 2^32 characters with no dot after index 0 the result is "" (the `>>> 0` wrap covers both -1 and 0) |
| FileValidator.ExtensionAfterLastDot | audio-deepfake-detector/src/utils/fileValidator.ts:52 | with the last dot at index i >= 1 the result is exactly the characters after it (empty for a trailing dot) and contains no dot |
| FileValidator.LongDotFreeNameWraps | audio-deepfake-detector/src/utils/fileValidator.ts:52 | for a dot-free name longer than 2^32 the wrap yields the non-empty tail from index 2^32 |
| Text.LastIndexOf | audio-deepfake-detector/src/utils/fileValidator.ts:52 | -1 when the character is absent, otherwise an index holding it with no occurrence after it |
| Text.ToLower | audio-deepfake-detector/src/utils/fileValidator.ts:30 | the folded name has the same length and each character is its ASCII lower-case form |
| Text.Decimal | audio-deepfake-detector/src/utils/fileValidator.ts:21 | the printed integer is a non-empty run of digits without a leading zero |
| Text.ShortHundredths | audio-deepfake-detector/src/utils/fileValidator.ts:48 | a whole number of units prints as the bare whole part; otherwise the whole part, a point and one or two digits with no trailing 0 whose value (scaled by 10 when one digit) is the hundredths |
| Json.Get | audio-deepfake-detector/src/services/api.ts:59 | a property is present iff the value is an object holding that key, and then it is that field's value |
| Json.Spread | audio-deepfake-detector/src/services/api.ts:55-59 | spreading an object copies its fields, spreading null, undefined, a boolean or a number copies nothing, an array gives exactly the keys "0", "1", … mapped to its items, and a string gives the same keys mapped to its one-character strings |
| Text.FixedTwo | audio-deepfake-detector/src/utils/fileValidator.ts:21 | `toFixed(2)`: a numeral with no leading zero, a point and two digits whose value is 100·num/den rounded half-up |
| Text.DecimalRoundTrip | audio-deepfake-detector/src/utils/fileValidator.ts:21 | reading back the printed numeral of n gives n |
| Numbers.RoundHalfUp | audio-deepfake-detector/src/services/api.ts:38-40 | the result n satisfies 2·den·n <= 2·num + den < 2·den·(n+1), i.e. it is the nearest integer, ties upward, as `Math.round` and `toFixed` choose |
| Numbers.FloorLog | audio-deepfake-detector/src/utils/fileValidator.ts:47 | base^i <= x < base^(i+1): the integer value of floor(log x / log base) |
| Numbers.FloorLogUnique | audio-deepfake-detector/src/utils/fileValidator.ts:47 | only one exponent brackets x |
| Api.BaseUrl | audio-deepfake-detector/src/services/api.ts:4 | a non-empty override is used; an unset or empty one falls back to http://localhost:8000 |
| Api.BaseUrlSettles | audio-deepfake-detector/src/services/api.ts:4 | configuring the URL the client already uses changes nothing, and any URL other than the default came from the override |
| Api.GetInstance | audio-deepfake-detector/src/services/api.ts:14-19 | the slot afterwards holds the returned instance; an existing instance is returned unchanged; a new one gets the configured base URL |
| Api.GetInstanceIsStable | audio-deepfake-detector/src/services/api.ts:14-19 | every later call returns the instance the first call created and leaves the slot alone |
| Api.UploadPercent | audio-deepfake-detector/src/services/api.ts:38-40 | the percentage is loaded/total·50 rounded half-up |
| Api.UploadPercentBounds | audio-deepfake-detector/src/services/api.ts:38-40 | for 0 <= loaded <= total the percentage lies in [0,50], with 0 at the start and 50 at the end |
| Api.UploadPercentMonotone | audio-deepfake-detector/src/services/api.ts:38-40 | more bytes sent never lowers the percentage |
| Api.UploadReport | audio-deepfake-detector/src/services/api.ts:36-43 | a value is reported iff a callback exists and the total is known and nonzero, and then it is the scaled percentage |
| Api.UploadReports | audio-deepfake-detector/src/services/api.ts:36-43 | none without a callback; every reported value comes from some event; when every event reports, one value per event in order |
| Api.UploadReportsSingle | audio-deepfake-detector/src/services/api.ts:36-43 | one event reports its own scaled percentage when it has a callback and a known nonzero total, and nothing otherwise |
| Api.UploadReportsAppend | audio-deepfake-detector/src/services/api.ts:36-43 | the reports for consecutive runs of events are each run's reports in order, so skipped events leave the others in place |
| Api.UploadReportsSkipUnknownTotal | audio-deepfake-detector/src/services/api.ts:36-43 | events at 10/100, then no total, then 100/100 report exactly 5 and 50 |
| Api.UploadReportsOrdered | audio-deepfake-detector/src/services/api.ts:36-43 | a well-ordered upload is reported one value per event, each the event's scaled percent, non-decreasing, within [0,50] |
| Api.ProcessingTailOrdered | audio-deepfake-detector/src/services/api.ts:36-53 | upload values in [0,50] followed by the 75 and 100 of the processing tail stay non-decreasing within [0,100] |
| Api.MergeResult | audio-deepfake-detector/src/services/api.ts:54-61 | no result exactly when the body is null (reading `file_info` from null throws) |
| Api.MergeCopiesServerFields | audio-deepfake-detector/src/services/api.ts:55 | the result has the server's keys plus file_info, and every other server field unchanged |
| Api.ServerFileInfoOverrides | audio-deepfake-detector/src/services/api.ts:56-60 | server file_info keys, name and size included, override the local ones; local name/size remain only where the server gives none |
| Api.NoServerFileInfoKeepsLocal | audio-deepfake-detector/src/services/api.ts:56-60 | without a server file_info object the result's file_info is exactly the local name and size |
| Api.NonObjectFileInfoKeepsName | audio-deepfake-detector/src/services/api.ts:56-60 | a string or array file_info spreads only numeric keys, so the local name and size survive |
| Api.ErrorMessage | audio-deepfake-detector/src/services/api.ts:62-74 | every failure message is non-empty |
| Api.TimeoutIgnoresDetail | audio-deepfake-detector/src/services/api.ts:64-66 | an ECONNABORTED axios error yields the timeout message whatever its detail or message |
| Api.AxiosErrorFirstNonEmpty | audio-deepfake-detector/src/services/api.ts:67-71 | any other axios error yields the first non-empty of the server's detail, the error's message and "Failed to analyze audio file" |
| Api.NonAxiosIsNetworkError | audio-deepfake-detector/src/services/api.ts:73 | a non-axios error yields the network-error message |
| Api.Detect | audio-deepfake-detector/src/services/api.ts:21-75 | the immediate progress is the upload reports followed by 75 when a reply came and a callback exists; a failed request rejects with its mapped message and schedules nothing; a reply schedules a delayed 100 when a callback exists; a non-null body resolves with the merged result; a null body rejects with the network message |
| Api.DetectProgressOrdered | audio-deepfake-detector/src/services/api.ts:36-52 | with a callback and a well-ordered upload, all reported values, timer included, are non-decreasing within [0,100], and a reply ends them with 75 then 100 |
| Api.HealthCheck | audio-deepfake-detector/src/services/api.ts:77-84 | online iff the server answered with status exactly 200; any rejection gives false |
| AudioDetection.SelectInvalidFile | audio-deepfake-detector/src/hooks/useAudioDetection.ts:18-23 | an invalid file sets status error with the validator's message and leaves progress, result and uploading unchanged |
| AudioDetection.SelectValidFile | audio-deepfake-detector/src/hooks/useAudioDetection.ts:25-32 | a valid file gives {uploading, progress 0, no error, no result} and status uploading, whatever came before |
| AudioDetection.ProgressStoresValue | audio-deepfake-detector/src/hooks/useAudioDetection.ts:37-42 | progress is stored in every status; >= 50 gives processing, < 50 keeps the status; nothing else changes |
| AudioDetection.SucceededCompletes | audio-deepfake-detector/src/hooks/useAudioDetection.ts:45-51 | success gives progress 100, not uploading, no error, the result, status completed |
| AudioDetection.FailedReportsMessage | audio-deepfake-detector/src/hooks/useAudioDetection.ts:53-61 | failure gives progress 0, not uploading, no result, the Error's message or "An unexpected error occurred", status error |
| AudioDetection.ResetClears | audio-deepfake-detector/src/hooks/useAudioDetection.ts:65-73 | reset from any state gives the cleared idle state, and is idempotent |
| AudioDetection.RejectionMessage | audio-deepfake-detector/src/hooks/useAudioDetection.ts:20 | the message stored for an invalid file is never empty |
| AudioDetection.StepPreservesConsistent | audio-deepfake-detector/src/hooks/useAudioDetection.ts:16-73 | every transition keeps the per-status invariant (idle has no upload flag, error or result, though it may keep a late progress value; uploading is in flight below 50 with nothing stored; completed holds a result; error holds a message) |
| AudioDetection.RunPreservesConsistent | audio-deepfake-detector/src/hooks/useAudioDetection.ts:16-73 | any sequence of events whose failure messages are non-empty keeps that invariant; every rejection of the client carries such a message (`Api.ErrorMessage`) |
| AudioDetection.RunKeepsUploadingBelowHalf | audio-deepfake-detector/src/hooks/useAudioDetection.ts:16-73 | any sequence of events, whatever its failure messages, keeps an uploading session below progress 50 |
| AudioDetection.LateProgressBreaksBusyInvariant | audio-deepfake-detector/src/hooks/useAudioDetection.ts:37-42 | a completed session hit by progress 100 becomes processing with no upload in flight |
| AudioDetection.RunAppend | audio-deepfake-detector/src/hooks/useAudioDetection.ts:16-73 | running two event sequences one after the other is running their concatenation |
| AudioUploader.StatusMessageCases | audio-deepfake-detector/src/components/AudioUploader.tsx:47-56 | "Uploading file..." iff uploading below 50; "Processing audio..." iff uploading at 50 or more; "Analyzing with AI model..." iff processing; the drop prompt iff not loading |
| AudioUploader.HandleDrag | audio-deepfake-detector/src/components/AudioUploader.tsx:21-29 | dragenter/dragover set the flag, dragleave clears it, other types keep it |
| AudioUploader.FirstFile | audio-deepfake-detector/src/components/AudioUploader.tsx:36-44 | a file is forwarded iff the list exists and is non-empty, and it is the first one |
| AudioUploader.HandleDrop | audio-deepfake-detector/src/components/AudioUploader.tsx:31-39 | a drop clears the flag and forwards at most the first file |
| AudioUploader.HandleFileInput | audio-deepfake-detector/src/components/AudioUploader.tsx:41-45 | the file input forwards at most the first file |
| AudioUploader.FirstFileIgnoresLaterFiles | audio-deepfake-detector/src/components/AudioUploader.tsx:36-44 | files after a non-empty prefix never change the forwarded file; an empty prefix defers to the rest |
| AudioUploader.DropAndInputAgree | audio-deepfake-detector/src/components/AudioUploader.tsx:31-45 | a drop and the file input forward the same file, and it is one of the list's files |
| AudioUploader.DragActiveIsLastDecisive | audio-deepfake-detector/src/components/AudioUploader.tsx:21-39 | after any inputs the flag is on iff the last deciding input was dragenter or dragover, and keeps its start value when none decides |
| Lifecycle.SettlementDecides | audio-deepfake-detector/src/hooks/useAudioDetection.ts:35-61 | whatever came before, a resolution leaves the completed state with the result and a rejection the error state with its message |
| Lifecycle.SuccessfulDetection | audio-deepfake-detector/src/services/api.ts:48-61 | a valid file answered with a non-null body is completed with the merged result, and the timer's 100 then moves the status to processing with the result kept |
| Lifecycle.FailedDetection | audio-deepfake-detector/src/services/api.ts:62-74 | a failed request ends in error with the client's message and no result |
| Lifecycle.NullBodyEndsProcessingWithError | audio-deepfake-detector/src/services/api.ts:49-61 | a null body ends in processing with the network error shown and the loading spinner on |
| Lifecycle.LateProgressAfterResetShowsSpinner | audio-deepfake-detector/src/services/api.ts:51 | success, reset and then the timer's 100 leave processing with no result, so the widget shows a loading spinner saying the model is analysing with nothing in flight |
| Lifecycle.ProgressTraceStatuses | audio-deepfake-detector/src/hooks/useAudioDetection.ts:37-42 | progress 10, 40, 60, 75, 100 after a valid file gives uploading, uploading, processing, processing, processing |
| Lifecycle.ProcessingAudioNeverShown | audio-deepfake-detector/src/components/AudioUploader.tsx:50 | in every reachable state the "Processing audio..." line is never shown |
| Lifecycle.DropStartsUpload | audio-deepfake-detector/src/components/AudioUploader.tsx:31-39 | a drop clears the flag, forwards nothing for an absent or empty list, and a valid first file starts an upload |
| GuardedDetection.GuardedAgreesWhenLive | audio-deepfake-detector/src/hooks/useAudioDetection.ts:16-73 | the guarded hook does what the hook does for user actions and for current callbacks on a busy session |
| GuardedDetection.StaleCallbackIgnored | audio-deepfake-detector/src/hooks/useAudioDetection.ts:37-42 | a callback with an old token or on a settled session changes nothing |
| GuardedDetection.GuardedStepKeepsBusyInvariant | audio-deepfake-detector/src/hooks/useAudioDetection.ts:37-42 | the guarded hook keeps the per-status invariant and the busy-means-in-flight invariant |
| GuardedDetection.GuardedLateProgressAfterReset | audio-deepfake-detector/src/services/api.ts:51 | under the guard, success, reset and the late 100 end in the cleared idle state |

## Left out

- HTTP transport: axios itself, multipart encoding, the 5 s and 300 s timeouts and the 500 ms timer are not modelled. Progress events, the reply body, the request error and the health probe's outcome are inputs.
- The React machinery (`useState`, `useCallback`, re-rendering, the page's health-polling interval and layout) is left out. Each hook event is one atomic transition.
- ResultDisplay's colour thresholds, percentages and duration formatting are floating-point presentation and are not modelled.
- The Python backend is not part of this model.
- Text.ToLower: folds ASCII letters only, while `toLowerCase` folds all of Unicode. The allowed extensions are ASCII, so only non-ASCII names could be judged differently.
- Numbers.FloorLog: gives the exact integer logarithm, but `formatFileSize` computes `Math.floor(Math.log(bytes) / Math.log(1024))` in double precision. Just below a high power of 1024 the float logarithm cannot tell the size from the power, so the quotient rounds up to the next integer. This first happens near 1024^5: for 2^50 − 1 bytes the code picks exponent 5 and prints "1 undefined", while the model picks 4 and prints "1024 undefined" (`FileValidator.FormatFileSizeJustBelowPebibyte`). Sizes up to 1 TiB lie far enough below each power that both choose the same unit. The rest of the rendering is exact: `toFixed` rounds the exact quotient, and re-printing a two-decimal value drops its trailing zeros.
- Api.UploadPercent: uses exact rational arithmetic for `loaded / total * 50`. A floating-point product that lands just beside a .5 tie is not modelled.
- FileValidator.SizeError: assumes sizes below 10^21 bytes, where `toFixed` prints positional digits rather than exponent form.
- Api.RequestError: the server's `detail` is a string or absent. A non-string `detail` would be converted to a string by `new Error(...)`, and that is not modelled.
- Api.MergeResult: a string spreads into one-character entries, one per `char`, where the browser uses UTF-16 code units. Prototype properties such as `length` are not read.
- Progress values are integers. The client only ever reports integers.

## Findings

| source | as written | input that shows it | evidently intended | confidence | as-written member | corrected member |
|---|---|---|---|---|---|---|
| audio-deepfake-detector/src/hooks/useAudioDetection.ts:37-42 | progress callbacks are applied in every status, and the client schedules a late progress(100) 500 ms after each reply (api.ts:51) | select a valid file, the reply arrives, press reset within 500 ms: the late 100 sets status processing with no result, so the uploader is back and shows a spinner "Analyzing with AI model..." that nothing ends on its own (only a new drop replaces it) | callbacks of a superseded or settled request are ignored, e.g. by a session token | not executed | Lifecycle.LateProgressAfterResetShowsSpinner | GuardedDetection.GuardedStepKeepsBusyInvariant |

The corrected hook is `GuardedDetection.GuardedStep`. It is the hook's own
`Step` behind a token check (`GuardedDetection.GuardedAgreesWhenLive`). The
composition lemmas in `Lifecycle` use the unguarded `Step`, because they
describe what the code does.
