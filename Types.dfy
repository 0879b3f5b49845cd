// Shared value types of the OCR front end: the records of types/ocr.ts, the
// browser `File` the validators look at, and the shapes in which the API
// client's replies reach the code that is modelled.

module Types {

  /** The outcome of an operation that may throw: `Ok` returns a value,
      `Thrown` carries the message of the `Error` it throws. */
  datatype Result<+T> = Ok(value: T) | Thrown(message: string)

  datatype Option<+T> = None | Some(value: T)

  /** The part of a browser `File` the validators read: its name, its MIME
      type (`file.type`) and its size in bytes. */
  datatype File = File(name: string, mime: string, size: nat)

  /** The four states a backend job can be in. */
  datatype JobState = Pending | Processing | Completed | Failed

  predicate IsTerminal(s: JobState) {
    s == Completed || s == Failed
  }

  /** `JobStatus`: the progress figures are carried along untouched. */
  datatype JobStatus = JobStatus(
    jobId: string,
    status: JobState,
    progress: int,
    currentStep: string,
    error: Option<string>)

  /** `OCRResult`: the extracted content is opaque to the modelled code. */
  datatype OCRResult = OCRResult(jobId: string, extractedText: string, pageCount: nat)

  datatype ProcessingError = ProcessingError(code: string, message: string)

  /** `APIResponse<T>`: a success flag, an optional payload and an optional error. */
  datatype APIResponse<+T> = APIResponse(success: bool, data: Option<T>, error: Option<ProcessingError>)

  /** The payload of a successful upload. */
  datatype UploadResponse = UploadResponse(success: bool, jobId: string, message: string)

  /** The payload of a cancel request. */
  datatype CancelData = CancelData(cancelled: bool)

  /** What an awaited API call produced: a response, or an exception
      (`Some(message)` when the thrown value is an `Error`). */
  datatype Reply<+T> = Answered(response: APIResponse<T>) | Threw(thrown: Option<string>)

  /** True when a response carries a payload and reports success, the test
      `response.success && response.data` of the service. */
  predicate Usable<T>(r: APIResponse<T>) {
    r.success && r.data.Some?
  }

  /** `response.error?.message || fallback`: the server's message when there
      is a non-empty one, the fallback otherwise. */
  function MessageOr(error: Option<ProcessingError>, fallback: string): (m: string)
    ensures fallback != "" ==> m != ""
    ensures error.Some? && error.value.message != "" ==> m == error.value.message
    ensures (error.None? || error.value.message == "") ==> m == fallback
  {
    if error.Some? && error.value.message != "" then error.value.message else fallback
  }
}
