# PDF OCR front end: verified model of its behavioural core

The repository is a client-side web front end for a PDF OCR workflow. A user
drops or picks a PDF. A page shows a simulated processing animation. A service
object uploads the file and polls a backend for the job's status. Most of the
code is UI markup. This project models, in Dafny, the parts whose behaviour can
be stated exactly:

- **The OCR service** (`OcrService.dfy`, from `lib/ocr-service.ts`). It holds
  the job-polling table `pollingIntervals` (job id to interval timer). Its
  operations are `stopPolling`, `cancelJob` and `cleanup`. It also has the
  private `validateFile`, `processFile`, and the decision each `poll` makes.
  Each poll reports progress, completes, fails or stops. The API client's
  replies are inputs: `APIResponse<T>` values, or an exception. The three
  callbacks become the trace of `Callback` values a poll returns. The
  runtime's intervals are modelled by two fields. `active` is the set of
  running timers. `nextTimer` hands out fresh handles.
- **The upload hook** (`UploadHook.dfy`, from `hooks/use-file-upload.ts`).
  Its validator checks the MIME type against a list, then the size in bytes,
  then the file-name pattern. Its state record is `isDragOver`,
  `selectedFile`, `uploadProgress` and `isUploading`, changed by the
  drag/drop/select/clear handlers.
- **The drop-zone component** (`UploadComponent.dfy`, from
  `components/file-upload.tsx`). Its validator needs `"pdf"` somewhere in the
  MIME type and a size within a limit given in MB. It writes the `error` text
  as it answers. The handlers update `isDragOver`, `selectedFile` and `error`.
- **The query policies** (`OcrQueries.dfy`, from `hooks/use-ocr.ts`). These
  are the `refetchInterval`, `retry` and `enabled` rules.
- **The progress bar** (`ProgressBar.dfy`, from
  `components/progress-bar.tsx`). It clamps the value and renders from the
  clamped value.
- **The processing page** (`ProcessPage.dfy`, from `app/process/page.tsx`).
  It has the five-step progress schedule of `processOCR` and the checklist
  classification.
- `Types.dfy` holds the records of `types/ocr.ts`. `Validators.dfy` relates
  the three validators to each other.

Some facts about the code that the model follows:

- The service calls `poll` once before it stores the interval. So a job whose
  first poll is terminal still gets an interval stored under its id.
- Storing an interval for a job id that already has one overwrites the entry.
  The old interval is not cleared. The model follows the code here, and
  `PollJobStatus` states that the earlier interval keeps running.
- The `processOCR` closure captures `progress` once, when the effect runs.
  So every step ramps up from that captured value (0 at mount), not from the
  progress reached so far.
- The step targets `((i + 1) / 5) * 100` are floating-point products. For
  five steps they come out exactly as 20, 40, 60, 80 and 100, so the model
  uses integers.

## Model

| member | source | states |
|---|---|---|
| `Types.MessageOr` | lib/ocr-service.ts:17 | `error?.message \|\| fallback`: the server's message when it is non-empty, otherwise the fallback; non-empty whenever the fallback is |
| `OcrService.ValidateFile` | lib/ocr-service.ts:84-97 | a file passes only with exactly the type `application/pdf`, so no other PDF type does; with that type it passes iff its size is at most 50·1024·1024 bytes, the limit included |
| `OcrService.ProcessFile` | lib/ocr-service.ts:7-21 | an invalid file throws the invalid-file error whatever the upload would have answered; a job id is returned iff the file is valid and the upload response has `success` and `data`, and it is `data.jobId`; every throw carries a non-empty message |
| `OcrService.PollEvents` | lib/ocr-service.ts:29-59 | one poll makes one or two callbacks, two exactly when a usable `completed` or `failed` status arrived, so an exception or an unusable status response makes a single `onError`; `onProgress` comes first, with the status, exactly when a usable status arrived; the last callback is `onComplete` or `onError` exactly when the poll stops polling; `onComplete` happens iff the status is `completed` and the result response is usable, and it carries that result |
| `OcrService.StopPollingTable` | lib/ocr-service.ts:69-75 | `stopPolling` removes only `jobId` and leaves every other entry as it was; it changes nothing when `jobId` is absent, so applying it twice is the same as once |
| `OcrService.PollingStopsAtFirstStoppingReply` | lib/ocr-service.ts:29-66 | over any sequence of polls, a job keeps its interval iff it had one and no reply so far was an exception, an unusable response or a terminal status; the polls of one job never change another job's entry |
| `OcrService.OCRService.constructor` | lib/ocr-service.ts:5 | the service starts with an empty polling table |
| `OcrService.OCRService.StopPolling` | lib/ocr-service.ts:69-75 | the table becomes `StopPollingTable` of the old one; the job's interval, if any, is cleared; the table invariant (mapped intervals running, no interval shared by two jobs) is kept |
| `OcrService.OCRService.Poll` | lib/ocr-service.ts:29-59 | one poll returns exactly the callbacks of `PollEvents`; it calls `stopPolling` on an exception, on an unusable status response, and on `completed` or `failed`; on `pending` or `processing` the table is unchanged |
| `OcrService.OCRService.PollJobStatus` | lib/ocr-service.ts:61-66 | after the immediate first poll, a fresh interval is started and mapped to `jobId` even if that poll was terminal; an earlier interval of the job that the poll did not stop keeps running with no entry referring to it |
| `OcrService.OCRService.PollJobStatusChecked` | lib/ocr-service.ts:61-66 | corrected version: the job has an interval afterwards iff its first poll did not stop polling; a stopping first poll starts no timer and leaves the table as `stopPolling` does; otherwise only the job's entry changes, to a fresh interval; either way the job's earlier interval is cleared |
| `OcrService.OCRService.CancelJob` | lib/ocr-service.ts:77-82 | the job's interval is cleared and its entry removed, exactly as `stopPolling` does, and nothing else changes; the result is true iff the response has `success` and `data.cancelled` is true |
| `OcrService.OCRService.Cleanup` | lib/ocr-service.ts:99-105 | every stored interval is cleared, and only those; the table is empty afterwards |
| `OcrService.TerminalFirstPollCompletesTwice` | lib/ocr-service.ts:61-66 | a job already `completed` at the first poll gets `onComplete` from that poll and again from the first tick of the interval that was stored anyway |
| `OcrService.RepeatedStartLeaksInterval` | lib/ocr-service.ts:61-66 | starting to poll a still-processing job twice leaves the first interval running even after `cleanup`, since no table entry refers to it |
| `OcrService.RepeatedStartLeaksNothing` | lib/ocr-service.ts:61-66 | with the corrected start-up the same two calls and `cleanup` leave no interval running |
| `OcrService.TerminalFirstPollCompletesOnce` | lib/ocr-service.ts:61-66 | with the corrected start-up the same job is completed once and has no interval left to tick |
| `UploadHook.NameShapeMatchesPattern` | hooks/use-file-upload.ts:42-46 | a name matches `^[가-힣a-zA-Z0-9\s\-_().]+\.pdf$` (case-insensitive) iff its last four characters are `.pdf` in any letter case and the characters before them, at least one, are Hangul syllables, ASCII letters or digits, JavaScript whitespace, or one of `-_().` |
| `UploadHook.ValidName` | hooks/use-file-upload.ts:42-46 | the pattern test answers true exactly for the names in the pattern's language |
| `UploadHook.Validate` | hooks/use-file-upload.ts:26-51 | the checks run in the order type, size, name, and the first failure decides; a file is accepted iff its type is one of `acceptedTypes` exactly, its size is at most `maxSize` (equal is accepted), and its name matches the pattern |
| `UploadHook.FileUploadHook.constructor` | hooks/use-file-upload.ts:14-24 | `maxSize` defaults to 50·1024·1024 bytes and `acceptedTypes` to `["application/pdf"]`; nothing is selected, dragged over or uploading |
| `UploadHook.FileUploadHook.HandleFileSelect` | hooks/use-file-upload.ts:53-64 | the file is selected and passed to `onFileSelect` iff it passes validation; otherwise the selection is unchanged; with the options fixed, a selected file always passed validation |
| `UploadHook.FileUploadHook.HandleDragOver` | hooks/use-file-upload.ts:66-69 | `isDragOver` becomes true and nothing else changes |
| `UploadHook.FileUploadHook.HandleDragLeave` | hooks/use-file-upload.ts:71-74 | `isDragOver` becomes false and nothing else changes |
| `UploadHook.FileUploadHook.HandleDrop` | hooks/use-file-upload.ts:76-94 | `isDragOver` always ends false; no file or more than one file leaves the selection unchanged; exactly one file goes through `handleFileSelect` |
| `UploadHook.FileUploadHook.HandleInputChange` | hooks/use-file-upload.ts:96-106 | a missing or empty list changes nothing; otherwise the first file goes through `handleFileSelect`, however many files there are |
| `UploadHook.FileUploadHook.ClearFile` | hooks/use-file-upload.ts:108-112 | the selection is cleared, `uploadProgress` becomes 0 and `isUploading` false |
| `UploadComponent.ContainsWitness` | components/file-upload.tsx:23 | when the substring test `includes` succeeds, the text occurs at some index |
| `UploadComponent.OccursContains` | components/file-upload.tsx:23 | an occurrence at any index makes `includes` succeed |
| `UploadComponent.ContainsIffOccurs` | components/file-upload.tsx:23 | the substring test `includes` is true iff the text occurs at some index |
| `UploadComponent.DecimalText` | components/file-upload.tsx:29 | the number in the size message is a non-empty string of decimal digits with no leading zero, and read as a decimal numeral it denotes `maxSize` itself |
| `UploadComponent.Validate` | components/file-upload.tsx:21-37 | a file is accepted iff its type contains `"pdf"` and its size is at most `maxSize`·1024·1024 bytes; the type check comes first, so a non-PDF file is reported as such whatever its size |
| `UploadComponent.ErrorText` | components/file-upload.tsx:21-37 | the error text is empty exactly when validation succeeded |
| `UploadComponent.FileUpload.constructor` | components/file-upload.tsx:15-18 | `maxSize` defaults to 10 MB and `disabled` to false; nothing is selected, nothing highlighted, no error |
| `UploadComponent.FileUpload.ValidateFile` | components/file-upload.tsx:21-37 | the answer is the validation rule, and `error` is left empty on success and set to a non-empty message on failure |
| `UploadComponent.FileUpload.HandleFileSelect` | components/file-upload.tsx:39-52 | a valid file is selected and handed to `onFileSelect`, or without that prop the page navigates to `/process`; an invalid file leaves the selection unchanged and does nothing else |
| `UploadComponent.FileUpload.HandleDrop` | components/file-upload.tsx:54-67 | `isDragOver` always ends false; when disabled or with no file nothing else changes; otherwise the first dropped file goes through `handleFileSelect`: the error text is its verdict, and an accepted file is selected and handed to `onFileSelect`, or without that prop the page navigates to `/process` |
| `UploadComponent.FileUpload.HandleDragOver` | components/file-upload.tsx:69-77 | `isDragOver` becomes true only when not disabled; with the props fixed, a disabled drop zone is never highlighted |
| `UploadComponent.FileUpload.HandleDragLeave` | components/file-upload.tsx:79-82 | `isDragOver` becomes false |
| `UploadComponent.FileUpload.HandleInputChange` | components/file-upload.tsx:84-92 | a missing or empty list changes nothing; otherwise the first file goes through `handleFileSelect`, with the same error text, selection and `onFileSelect`-or-navigation effect |
| `UploadComponent.FileUpload.RemoveFile` | components/file-upload.tsx:94-97 | the selection is cleared and `error` becomes empty |
| `OcrQueries.RefetchInterval` | hooks/use-ocr.ts:34-40 | the status query refetches every 2000 ms iff its data has status `processing` or `pending`, and not at all otherwise, missing data included |
| `OcrQueries.RefetchAgreesWithServicePoll` | hooks/use-ocr.ts:34-40 | for a usable status, the query keeps refetching exactly when the service's poll keeps polling |
| `OcrQueries.Retry` | hooks/use-ocr.ts:41-47 | a 404 is never retried, whatever the failure count; any other error is retried iff fewer than 3 failures occurred; the result query's rule (lines 56-61) is the same |
| `OcrQueries.GiveUpAt` | hooks/use-ocr.ts:41-47 | from any failure count, the retries stop at a count that is no later than 3 (or the starting count), and every count before it is retried |
| `OcrQueries.RetriesAreBounded` | hooks/use-ocr.ts:41-47 | from the first failure, a 404 gets no retry and any other error gets exactly 3 |
| `OcrQueries.QueryEnabled` | hooks/use-ocr.ts:29-33 | a query runs iff `enabled` (true by default) holds and `jobId` is non-null and non-empty |
| `ProgressBar.Clamp` | components/progress-bar.tsx:9 | the clamped value lies in [0, 100]; it is the identity on [0, 100]; negative inputs give 0 and inputs above 100 give 100 |
| `ProgressBar.ClampIdempotent` | components/progress-bar.tsx:9 | clamping twice is clamping once |
| `ProgressBar.ClampMonotone` | components/progress-bar.tsx:9 | the clamp never reverses the order of two inputs |
| `ProgressBar.JsRound` | components/progress-bar.tsx:17 | `Math.round` gives the integer within half a unit, halves rounding up |
| `ProgressBar.Render` | components/progress-bar.tsx:8-29 | the bar width is the clamped value; the percentage is shown unless `showPercentage` is explicitly false (it defaults to true), as the rounded clamped value in [0, 100]; the label is shown exactly when it is a non-empty string, and as given; the header row is drawn iff a label or a percentage is shown |
| `ProgressBar.RenderSeesOnlyClamped` | components/progress-bar.tsx:9-25 | rendering a value and rendering its clamp give the same view, so the raw input never reaches the screen |
| `ProcessPage.Target` | app/process/page.tsx:31 | step i's target `((i + 1) / 5) * 100` is 20·(i + 1) |
| `ProcessPage.RampShape` | app/process/page.tsx:34-37 | the inner loop sets progress to `first`, `first`+2, …; every value lies between `first` and the target, and the last one is the target when the distance is even |
| `ProcessPage.StepRampFromMount` | app/process/page.tsx:34-37 | on a page mounted at progress 0, step i sets 0, 2, …, 20·(i + 1): 10·(i + 1) + 1 values ending on the step's target |
| `ProcessPage.CapturedProgressRegresses` | app/process/page.tsx:34 | as written, the second step restarts at 0 right after the first ended at 20, and the first checklist item loses its completed styling |
| `ProcessPage.LiveScheduleNonDecreasing` | app/process/page.tsx:34-37 | when each step ramps from the progress reached so far, the progress shown never goes down |
| `ProcessPage.Checklist` | app/process/page.tsx:83-96 | item k is completed iff progress ≥ 20·(k + 1); it is current iff not completed and `currentStep` is its label, so completed wins over current; completed items form a prefix and at most one item is current |
| `ProcessPage.ProcessView.constructor` | app/process/page.tsx:13-15 | the page starts at progress 0, on the first step's label, not complete |
| `ProcessPage.ProcessView.RampProgress` | app/process/page.tsx:34-37 | the inner loop makes exactly the `setProgress` calls of the ramp from its start to the target, leaves progress at its last value and the label as it was |
| `ProcessPage.ProcessView.RunStep` | app/process/page.tsx:28-37 | one pass of the outer loop sets the label `steps[i]` first, then runs that step's ramp under it |
| `ProcessPage.ProcessView.Finalize` | app/process/page.tsx:43-45 | after the loop, progress 100 is shown, then the label "완료!", and the run is complete |
| `ProcessPage.ProcessView.ProcessOCR` | app/process/page.tsx:26-46 | the ordered trace of updates is: for each step i in turn, its label and then the ramp from the captured progress to 20·(i + 1); then 100 and "완료!"; `isComplete` ends true |
| `ProcessPage.ProcessView.ProcessOCRLive` | app/process/page.tsx:26-46 | corrected version: the same ordered trace with each step ramping from the progress reached so far |
| `ProcessPage.StepEventsShowSchedule` | app/process/page.tsx:27-37 | the progress values in the as-written run's trace are the per-step ramps from the captured value, one after another |
| `ProcessPage.LiveStepEventsShowLiveSchedule` | app/process/page.tsx:27-37 | the progress values in the corrected run's trace are the ramps that each start where the previous one ended, so they never go down |
| `ProcessPage.StepEventsNameEveryStep` | app/process/page.tsx:27-28 | the as-written run names the five steps in order, each once |
| `ProcessPage.LiveStepEventsNameEveryStep` | app/process/page.tsx:27-28 | the corrected run names the same steps in the same order |
| `ProcessPage.ProcessView.Mount` | app/process/page.tsx:19-54 | a missing or empty `file` parameter navigates home and changes nothing; otherwise the as-written run's ordered trace is produced from the progress of the current render (0 at mount), the run completes, and the page heads for the result page |
| `Validators.HookDefaultsRefineService` | hooks/use-file-upload.ts:15-19 | with its defaults the hook accepts exactly the files the service accepts whose names also match the name pattern |
| `Validators.ServiceAcceptedPassesComponent` | components/file-upload.tsx:21-37 | every file the service accepts passes the drop zone's type check, and its size check too when the drop zone allows at least 50 MB |
| `Validators.ComponentAdmitsOtherPdfTypes` | components/file-upload.tsx:23 | the drop zone accepts type `application/x-pdf`, which the hook and the service refuse |
| `Validators.DefaultSizeLimitsDiffer` | components/file-upload.tsx:15 | a 20 MiB PDF passes the hook and the service at their defaults but not the drop zone's default 10 MB limit |
| `Validators.ServiceLimitIsInclusive` | lib/ocr-service.ts:90-94 | exactly 50 MiB is accepted and one byte more is refused |

## Findings

| source | as written | input that shows it | evidently intended | confidence | as-written member | corrected member |
|---|---|---|---|---|---|---|
| lib/ocr-service.ts:62-66 | the interval is stored after the first poll even when that poll already stopped polling | a job whose first status reply is `completed` with a usable result | no interval for a job whose first poll is terminal, so completion is reported once | high; not executed | `OcrService.TerminalFirstPollCompletesTwice` | `OcrService.OCRService.PollJobStatusChecked` |
| lib/ocr-service.ts:65-66 | `pollJobStatus` for a job that already has an interval overwrites the table entry without clearing the old interval, which then no `stopPolling` or `cleanup` can reach; it keeps polling every 2 s and calling the callbacks, even after the job is terminal | two `pollJobStatus` calls for a job that is still `processing`, then `cleanup` | the earlier interval is cleared before a new one is stored | medium; not executed | `OcrService.RepeatedStartLeaksInterval` | `OcrService.RepeatedStartLeaksNothing` |
| app/process/page.tsx:34 | each step's ramp starts at the `progress` the effect's closure captured (0 at mount), so progress drops back to 0 at every step | a page mounted with a `file` parameter: step 1 ends at 20, step 2 starts at 0 | each step continues from the progress already reached, so progress never goes down | high; not executed | `ProcessPage.CapturedProgressRegresses` | `ProcessPage.ProcessView.ProcessOCRLive` |

`ProcessView.Mount` runs `ProcessOCR` as the page is written. `ProcessOCRLive`
gives the corrected run. `LiveStepEventsShowLiveSchedule` and
`LiveScheduleNonDecreasing` prove that the progress it shows never goes down.

## Left out

- Network I/O of the API client (`fetch`, `FormData`): its replies are inputs. The client's `request` never throws, so `cancelJob`'s reply is a response and not an exception.
- Timers and async scheduling (`setInterval` period, `setTimeout` delays, `await` interleavings): each poll and each step is one atomic transition. Later interval ticks are separate calls of `Poll`.
- Exceptions thrown by the `onProgress`/`onComplete`/`onError` callbacks themselves: callbacks are treated as returning normally.
- `simulateUpload` in the hook: it uses `Math.random` and a timer-driven float increment.
- Toasts, console logging, and the 2-second delayed navigation to the result page. The navigation target is returned, but its URL encoding is not modelled.
- The `accept` prop of the drop zone: it only filters the browser's file picker and is not part of any check.
- `useOCRProcess`, `useOCRHistory`, `useDeleteOCRJob` and the query functions. They call service methods that `OCRService` does not define, and `onSuccess` expects a job object while `processFile` returns a string. Only the policy callbacks are modelled.
- The result page, the result viewer, the home page, the layout and the build configuration: markup, mock data and download plumbing.
- Changing the hook's options or the drop zone's props after creation: `FileUploadHook` and `FileUpload` fix `maxSize`, `acceptedTypes`, `disabled` and `onFileSelect` when they are built, while the source reads them again on every render. The invariants "a selected file passed validation" and "a disabled drop zone is not highlighted" hold only for fixed props. A drop zone that is highlighted when `disabled` becomes true stays highlighted in the source, and a selected file can stop meeting a lowered `maxSize`.
- Floating-point details: `NaN` progress, `toFixed` formatting, a non-integer `maxSize` prop, and a `maxSize` of 10^21 MB or more, which JavaScript writes in exponent form (`1e+21`), so `UploadComponent.DecimalText` matches the rendered number only below that bound. Progress is a real number in the bar, an integer on the processing page, and sizes are whole numbers.
- `OcrService.PollEvents`: the contract fixes which callbacks run and in what order, but not the wording of each error message. The body gives the wording: the server's message or the fixed fallback.
- `OcrService.ProcessFile`: for a failed upload the contract only says that the thrown message is non-empty. The exact text comes from `Types.MessageOr`.
- `UploadHook.Validate`: the verdict names the failing check. The toast text shown for it is left out.
