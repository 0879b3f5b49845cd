// hooks/use-ocr.ts: the decision callbacks of the `useOCRStatus` and
// `useOCRResult` queries (refetch interval, retry, enabled). The query
// functions themselves are not part of this model.

module OcrQueries {
  import opened Types
  import OcrService

  /** The polling period of the status query, in milliseconds. */
  const RefetchMs: nat := 2000
  /** Failures after which a query stops retrying. */
  const MaxFailures: nat := 3
  const NotFoundStatus: int := 404

  /** A `refetchInterval` answer: a period, or `false` for no refetch. */
  datatype Refetch = Every(ms: nat) | Off

  /** `refetchInterval(data)` of the status query. */
  function RefetchInterval(data: Option<JobStatus>): (r: Refetch)
    ensures r != Off <==> data.Some? && (data.value.status == Processing || data.value.status == Pending)
    ensures r != Off ==> r == Every(RefetchMs)
  {
    if data.Some? && (data.value.status == Processing || data.value.status == Pending) then Every(RefetchMs)
    else Off
  }

  /** The query keeps refetching exactly while the service's own poll of
      the same status would keep polling. */
  lemma RefetchAgreesWithServicePoll(s: JobStatus, error: Option<ProcessingError>)
    ensures RefetchInterval(Some(s)) != Off <==> !OcrService.PollStops(Answered(APIResponse(true, Some(s), error)))
  {
  }

  /** `retry(failureCount, error)`, the same rule in both queries: never
      after a 404, otherwise while fewer than three failures occurred.
      `errorStatus` is `error?.status`. */
  function Retry(failureCount: nat, errorStatus: Option<int>): (retry: bool)
    ensures errorStatus == Some(NotFoundStatus) ==> !retry
    ensures errorStatus != Some(NotFoundStatus) ==> (retry <==> failureCount < MaxFailures)
  {
    if errorStatus == Some(NotFoundStatus) then false else failureCount < MaxFailures
  }

  /** The failure count at which a run of failures with the same error
      stops being retried, starting from `failureCount`. */
  function GiveUpAt(failureCount: nat, errorStatus: Option<int>): (n: nat)
    ensures failureCount <= n
    ensures !Retry(n, errorStatus)
    ensures forall k | failureCount <= k < n :: Retry(k, errorStatus)
    ensures n <= if failureCount < MaxFailures then MaxFailures else failureCount
    decreases if failureCount < MaxFailures then MaxFailures - failureCount else 0
  {
    if Retry(failureCount, errorStatus) then GiveUpAt(failureCount + 1, errorStatus) else failureCount
  }

  /** Retries are bounded: from the first failure, a 404 is never retried
      and any other error at most three times. */
  lemma RetriesAreBounded(errorStatus: Option<int>)
    ensures GiveUpAt(0, errorStatus) == if errorStatus == Some(NotFoundStatus) then 0 else MaxFailures
  {
  }

  /** `enabled && !!jobId`, with `enabled` defaulting to true. */
  function QueryEnabled(jobId: Option<string>, enabled: Option<bool>): (on: bool)
    ensures on <==> enabled != Some(false) && jobId.Some? && jobId.value != ""
  {
    var flag := if enabled.Some? then enabled.value else true;
    flag && jobId.Some? && jobId.value != ""
  }
}
