// lib/ocr-service.ts: the upload entry point, the job-polling table and the
// per-poll decision rule. The API client's replies are inputs; the callbacks
// onProgress/onComplete/onError become the trace each poll returns; the
// runtime's interval timers are modelled by the set of running timers and a
// counter that hands out fresh timer handles.

module OcrService {
  import opened Types

  const PdfMime: string := "application/pdf"
  /** 50 MiB, the service's upload limit. */
  const MaxUploadBytes: nat := 50 * 1024 * 1024

  const InvalidFileMessage: string := "유효하지 않은 파일입니다. PDF 파일만 업로드 가능합니다."
  const UploadFailedMessage: string := "파일 업로드에 실패했습니다."
  const StatusFailedMessage: string := "상태 확인에 실패했습니다."
  const ResultFailedMessage: string := "결과 조회에 실패했습니다."
  const JobFailedMessage: string := "처리 중 오류가 발생했습니다."
  const UnknownErrorMessage: string := "알 수 없는 오류가 발생했습니다."

  /** The private `validateFile`: the type must be exactly the PDF MIME type
      (no other PDF type passes), and the size limit of 50 MiB is inclusive. */
  function ValidateFile(f: File): (ok: bool)
    ensures ok ==> f.mime == PdfMime
    ensures f.mime == PdfMime ==> (ok <==> f.size <= MaxUploadBytes)
  {
    f.mime == PdfMime && f.size <= MaxUploadBytes
  }

  /** `processFile`: validate, then upload; the job id of a usable upload
      response is returned, everything else throws. */
  function ProcessFile(f: File, upload: APIResponse<UploadResponse>): (r: Result<string>)
    ensures !ValidateFile(f) ==> r == Thrown(InvalidFileMessage)
    ensures r.Ok? <==> ValidateFile(f) && Usable(upload)
    ensures r.Ok? ==> r.value == upload.data.value.jobId
    ensures r.Thrown? ==> r.message != ""
  {
    if !ValidateFile(f) then Thrown(InvalidFileMessage)
    else if !Usable(upload) then Thrown(MessageOr(upload.error, UploadFailedMessage))
    else Ok(upload.data.value.jobId)
  }

  /** One call of a callback passed to `pollJobStatus`. */
  datatype Callback = Progress(status: JobStatus) | Complete(result: OCRResult) | Error(message: string)

  predicate IsTerminalCallback(c: Callback) {
    c.Complete? || c.Error?
  }

  /** The message the `catch` block reports for a thrown value. */
  function CaughtMessage(thrown: Option<string>): (m: string) {
    if thrown.Some? then thrown.value else UnknownErrorMessage
  }

  /** `status.error || fallback` */
  function JobErrorOr(error: Option<string>, fallback: string): (m: string) {
    if error.Some? && error.value != "" then error.value else fallback
  }

  /** Whether one run of `poll` calls `stopPolling`: on an exception, on an
      unusable status response, and on a terminal status. */
  predicate PollStops(statusReply: Reply<JobStatus>) {
    match statusReply
    case Threw(_) => true
    case Answered(resp) => !Usable(resp) || IsTerminal(resp.data.value.status)
  }

  /** The callbacks one run of `poll` makes, in order. The result reply is
      consulted only after a `completed` status. */
  function PollEvents(statusReply: Reply<JobStatus>, resultReply: Reply<OCRResult>): (events: seq<Callback>)
    ensures 1 <= |events| <= 2
    // two callbacks exactly when a usable terminal status arrived; an
    // exception or an unusable response makes the single onError call
    ensures |events| == 2 <==>
              statusReply.Answered? && Usable(statusReply.response) && IsTerminal(statusReply.response.data.value.status)
    // progress is reported exactly when a usable status arrived, and first
    ensures events[0].Progress? <==> statusReply.Answered? && Usable(statusReply.response)
    ensures events[0].Progress? ==> events[0].status == statusReply.response.data.value
    ensures forall k | 1 <= k < |events| :: !events[k].Progress?
    // the run ends in onComplete or onError exactly when it stops polling
    ensures IsTerminalCallback(events[|events| - 1]) <==> PollStops(statusReply)
    // onComplete only after `completed` and a usable result response
    ensures (exists k | 0 <= k < |events| :: events[k].Complete?) <==>
              && statusReply.Answered? && Usable(statusReply.response)
              && statusReply.response.data.value.status == Completed
              && resultReply.Answered? && Usable(resultReply.response)
    ensures forall k | 0 <= k < |events| :: events[k].Complete? ==> events[k].result == resultReply.response.data.value
  {
    match statusReply
    case Threw(t) => [Error(CaughtMessage(t))]
    case Answered(resp) =>
      if !Usable(resp) then [Error(MessageOr(resp.error, StatusFailedMessage))]
      else
        var status := resp.data.value;
        if status.status == Completed then
          match resultReply
          case Threw(t) => [Progress(status), Error(CaughtMessage(t))]
          case Answered(rr) =>
            if Usable(rr) then [Progress(status), Complete(rr.data.value)]
            else [Progress(status), Error(MessageOr(rr.error, ResultFailedMessage))]
        else if status.status == Failed then
          [Progress(status), Error(JobErrorOr(status.error, JobFailedMessage))]
        else
          [Progress(status)]
  }

  /** A handle returned by `setInterval`. */
  datatype Timer = Timer(handle: nat)

  /** The table after `stopPolling(jobId)`: the entry for `jobId` is gone
      and every other entry is as it was. */
  function StopPollingTable(m: map<string, Timer>, jobId: string): (r: map<string, Timer>)
    ensures jobId !in r
    ensures forall k :: k in r <==> k in m && k != jobId
    ensures forall k | k in r :: r[k] == m[k]
    ensures jobId !in m ==> r == m
  {
    if jobId in m then m - {jobId} else m
  }

  /** The table after one run of `poll` for `jobId`. */
  function PollTable(m: map<string, Timer>, jobId: string, statusReply: Reply<JobStatus>): (r: map<string, Timer>) {
    if PollStops(statusReply) then StopPollingTable(m, jobId) else m
  }

  /** The table after the interval has run `poll` once per reply. */
  function PollSession(m: map<string, Timer>, jobId: string, replies: seq<Reply<JobStatus>>): (r: map<string, Timer>)
    decreases |replies|
  {
    if replies == [] then m else PollSession(PollTable(m, jobId, replies[0]), jobId, replies[1..])
  }

  /** A job stays in the table exactly as long as no poll has stopped it,
      and the polls of one job never touch another job's entry. */
  lemma {:induction false} PollingStopsAtFirstStoppingReply(m: map<string, Timer>, jobId: string, replies: seq<Reply<JobStatus>>)
    ensures jobId in PollSession(m, jobId, replies) <==>
              jobId in m && forall i | 0 <= i < |replies| :: !PollStops(replies[i])
    ensures forall k | k != jobId :: (k in PollSession(m, jobId, replies) <==> k in m)
    ensures forall k | k != jobId && k in m :: PollSession(m, jobId, replies)[k] == m[k]
    ensures jobId in PollSession(m, jobId, replies) ==> PollSession(m, jobId, replies)[jobId] == m[jobId]
    decreases |replies|
  {
    if replies != [] {
      var next := PollTable(m, jobId, replies[0]);
      PollingStopsAtFirstStoppingReply(next, jobId, replies[1..]);
      forall i | 0 <= i < |replies[1..]| ensures replies[1..][i] == replies[i + 1] { }
      if jobId in PollSession(m, jobId, replies) {
        forall i | 0 <= i < |replies| ensures !PollStops(replies[i]) {
          if i > 0 { assert replies[i] == replies[1..][i - 1]; }
        }
      }
    }
  }

  class OCRService {
    /** `pollingIntervals`: job id to the interval polling it. */
    var pollingIntervals: map<string, Timer>
    /** Intervals the runtime is still running (set by `setInterval`,
        removed by `clearInterval`). */
    var active: set<Timer>
    /** The handle the next `setInterval` returns. */
    var nextTimer: nat

    /** Every mapped interval is running, every handle was handed out, and
        no two jobs share an interval. */
    ghost predicate Valid()
      reads this
    {
      && (forall id | id in pollingIntervals :: pollingIntervals[id] in active)
      && (forall t | t in active :: t.handle < nextTimer)
      && (forall a, b | a in pollingIntervals && b in pollingIntervals && a != b ::
            pollingIntervals[a] != pollingIntervals[b])
    }

    constructor ()
      ensures Valid()
      ensures pollingIntervals == map[] && active == {}
    {
      pollingIntervals := map[];
      active := {};
      nextTimer := 0;
    }

    /** `stopPolling`: clear and forget the interval of `jobId`, if any. */
    method StopPolling(jobId: string)
      requires Valid()
      modifies this
      ensures Valid()
      ensures pollingIntervals == StopPollingTable(old(pollingIntervals), jobId)
      ensures active == if jobId in old(pollingIntervals)
                        then old(active) - {old(pollingIntervals)[jobId]}
                        else old(active)
      ensures nextTimer == old(nextTimer)
    {
      if jobId in pollingIntervals {
        var interval := pollingIntervals[jobId];
        active := active - {interval};
        pollingIntervals := pollingIntervals - {jobId};
      }
    }

    /** One run of the `poll` closure of `pollJobStatus(jobId, ...)`. */
    method Poll(jobId: string, statusReply: Reply<JobStatus>, resultReply: Reply<OCRResult>)
      returns (events: seq<Callback>)
      requires Valid()
      modifies this
      ensures Valid()
      ensures events == PollEvents(statusReply, resultReply)
      ensures pollingIntervals == PollTable(old(pollingIntervals), jobId, statusReply)
      ensures active == if PollStops(statusReply) && jobId in old(pollingIntervals)
                        then old(active) - {old(pollingIntervals)[jobId]}
                        else old(active)
      ensures nextTimer == old(nextTimer)
    {
      match statusReply
      case Threw(t) =>
        events := [Error(CaughtMessage(t))];
        StopPolling(jobId);
      case Answered(resp) =>
        if !Usable(resp) {
          events := [Error(MessageOr(resp.error, StatusFailedMessage))];
          StopPolling(jobId);
          return;
        }
        var status := resp.data.value;
        events := [Progress(status)];
        if status.status == Completed {
          StopPolling(jobId);
          match resultReply
          case Threw(t) =>
            events := events + [Error(CaughtMessage(t))];
            StopPolling(jobId);
          case Answered(rr) =>
            if Usable(rr) {
              events := events + [Complete(rr.data.value)];
            } else {
              events := events + [Error(MessageOr(rr.error, ResultFailedMessage))];
            }
        } else if status.status == Failed {
          StopPolling(jobId);
          events := events + [Error(JobErrorOr(status.error, JobFailedMessage))];
        }
    }

    /** `pollJobStatus`: poll once at once, then start a fresh interval and
        store it under `jobId`, whatever the first poll decided. An interval
        already stored for `jobId` is overwritten without being cleared. */
    method PollJobStatus(jobId: string, statusReply: Reply<JobStatus>, resultReply: Reply<OCRResult>)
      returns (events: seq<Callback>, interval: Timer)
      requires Valid()
      modifies this
      ensures Valid()
      ensures events == PollEvents(statusReply, resultReply)
      ensures interval !in old(active)
      ensures pollingIntervals == PollTable(old(pollingIntervals), jobId, statusReply)[jobId := interval]
      ensures active == (if PollStops(statusReply) && jobId in old(pollingIntervals)
                         then old(active) - {old(pollingIntervals)[jobId]}
                         else old(active)) + {interval}
      // an earlier interval for the job that the first poll did not stop keeps
      // running, but no table entry refers to it any more
      ensures jobId in old(pollingIntervals) && !PollStops(statusReply) ==>
                old(pollingIntervals)[jobId] in active &&
                forall k | k in pollingIntervals :: pollingIntervals[k] != old(pollingIntervals)[jobId]
    {
      events := Poll(jobId, statusReply, resultReply);
      interval := Timer(nextTimer);
      nextTimer := nextTimer + 1;
      active := active + {interval};
      pollingIntervals := pollingIntervals[jobId := interval];
    }

    /** `pollJobStatus` as evidently intended: the interval is started only
        when the first poll did not already stop polling. */
    method PollJobStatusChecked(jobId: string, statusReply: Reply<JobStatus>, resultReply: Reply<OCRResult>)
      returns (events: seq<Callback>)
      requires Valid()
      modifies this
      ensures Valid()
      ensures events == PollEvents(statusReply, resultReply)
      ensures jobId in pollingIntervals <==> !PollStops(statusReply)
      ensures PollStops(statusReply) ==> pollingIntervals == StopPollingTable(old(pollingIntervals), jobId)
      // a job that keeps polling gets a fresh interval; no other entry changes
      ensures !PollStops(statusReply) ==>
                && pollingIntervals[jobId] !in old(active)
                && pollingIntervals == old(pollingIntervals)[jobId := pollingIntervals[jobId]]
      // either way the job's earlier interval, if any, is cleared
      ensures active == (if jobId in old(pollingIntervals)
                         then old(active) - {old(pollingIntervals)[jobId]}
                         else old(active))
                        + (if PollStops(statusReply) then {} else {pollingIntervals[jobId]})
      ensures nextTimer == if PollStops(statusReply) then old(nextTimer) else old(nextTimer) + 1
    {
      events := Poll(jobId, statusReply, resultReply);
      if !PollStops(statusReply) {
        if jobId in pollingIntervals {
          StopPolling(jobId);
        }
        var interval := Timer(nextTimer);
        nextTimer := nextTimer + 1;
        active := active + {interval};
        pollingIntervals := pollingIntervals[jobId := interval];
      }
    }

    /** `cancelJob`: stop polling first, then report whether the backend
        confirmed the cancellation. */
    method CancelJob(jobId: string, reply: APIResponse<CancelData>) returns (cancelled: bool)
      requires Valid()
      modifies this
      ensures Valid()
      ensures jobId !in pollingIntervals
      ensures pollingIntervals == StopPollingTable(old(pollingIntervals), jobId)
      ensures active == if jobId in old(pollingIntervals)
                        then old(active) - {old(pollingIntervals)[jobId]}
                        else old(active)
      ensures nextTimer == old(nextTimer)
      ensures cancelled <==> reply.success && reply.data.Some? && reply.data.value.cancelled
    {
      StopPolling(jobId);
      cancelled := reply.success && reply.data.Some? && reply.data.value.cancelled;
    }

    /** `cleanup`: clear every stored interval, then empty the table. */
    method Cleanup()
      requires Valid()
      modifies this
      ensures Valid()
      ensures pollingIntervals == map[]
      ensures active == old(active) - old(pollingIntervals).Values
      ensures nextTimer == old(nextTimer)
    {
      var pending := pollingIntervals.Keys;
      while pending != {}
        invariant pending <= pollingIntervals.Keys
        invariant pollingIntervals == old(pollingIntervals)
        invariant nextTimer == old(nextTimer)
        invariant active == old(active) - (set k | k in pollingIntervals.Keys - pending :: pollingIntervals[k])
        decreases pending
      {
        var k :| k in pending;
        active := active - {pollingIntervals[k]};
        pending := pending - {k};
      }
      pollingIntervals := map[];
    }
  }

  const DemoJob: string := "job-1"
  const DemoResult: OCRResult := OCRResult(DemoJob, "text", 1)
  const CompletedReply: Reply<JobStatus> :=
    Answered(APIResponse(true, Some(JobStatus(DemoJob, Completed, 100, "", None)), None))
  const ResultReply: Reply<OCRResult> := Answered(APIResponse(true, Some(DemoResult), None))
  const ProcessingReply: Reply<JobStatus> :=
    Answered(APIResponse(true, Some(JobStatus(DemoJob, Processing, 40, "", None)), None))

  /** A job that is already complete at the first poll: the interval is
      installed anyway, and its first tick reports the completion again. */
  method TerminalFirstPollCompletesTwice() returns (first: seq<Callback>, second: seq<Callback>)
    ensures Complete(DemoResult) in first
    ensures Complete(DemoResult) in second
  {
    var service := new OCRService();
    var interval;
    first, interval := service.PollJobStatus(DemoJob, CompletedReply, ResultReply);
    assert DemoJob in service.pollingIntervals;
    assert first[1] == Complete(DemoResult);
    // the interval's first tick
    second := service.Poll(DemoJob, CompletedReply, ResultReply);
    assert second[1] == Complete(DemoResult);
  }

  /** The same job under the corrected `pollJobStatus`: one completion and
      no interval left to tick. */
  method TerminalFirstPollCompletesOnce() returns (first: seq<Callback>, scheduled: bool)
    ensures Complete(DemoResult) in first
    ensures !scheduled
  {
    var service := new OCRService();
    first := service.PollJobStatusChecked(DemoJob, CompletedReply, ResultReply);
    assert first[1] == Complete(DemoResult);
    scheduled := DemoJob in service.pollingIntervals;
  }

  /** `pollJobStatus` called twice for a job that is still processing: the
      first interval is overwritten without being cleared, so even
      `cleanup` cannot reach it and it keeps running. */
  method RepeatedStartLeaksInterval() returns (leaked: Timer, running: bool)
    ensures running
  {
    var service := new OCRService();
    var events, first := service.PollJobStatus(DemoJob, ProcessingReply, ResultReply);
    var events2, second := service.PollJobStatus(DemoJob, ProcessingReply, ResultReply);
    assert service.pollingIntervals == map[DemoJob := second];
    assert service.pollingIntervals.Values == {second};
    service.Cleanup();
    leaked := first;
    running := first in service.active;
  }

  /** The same calls under the corrected `pollJobStatus`: the first
      interval is cleared when the second starts, and `cleanup` leaves no
      interval running. */
  method RepeatedStartLeaksNothing() returns (running: bool)
    ensures !running
  {
    var service := new OCRService();
    var events := service.PollJobStatusChecked(DemoJob, ProcessingReply, ResultReply);
    var events2 := service.PollJobStatusChecked(DemoJob, ProcessingReply, ResultReply);
    assert service.pollingIntervals == map[DemoJob := service.pollingIntervals[DemoJob]];
    assert service.active == {service.pollingIntervals[DemoJob]};
    assert service.pollingIntervals.Values == service.active;
    service.Cleanup();
    running := service.active != {};
  }
}
