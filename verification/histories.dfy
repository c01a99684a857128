/** Workflow histories as the archiver sees them: events in batches, batches in blobs,
    and the two checks made on a blob. */
module Histories {
  import opened Wrappers
  import opened Configuration

  type int64 = x: int | -0x8000_0000_0000_0000 <= x < 0x8000_0000_0000_0000

  /** `x + 1` in 64-bit arithmetic: the largest value wraps to the smallest. */
  function Int64Successor(x: int64): int64 {
    if x == 0x7fff_ffff_ffff_ffff then -0x8000_0000_0000_0000 else x + 1
  }

  datatype EventType =
    | WorkflowExecutionCompleted
    | WorkflowExecutionFailed
    | WorkflowExecutionTimedOut
    | WorkflowExecutionCanceled
    | WorkflowExecutionTerminated
    | WorkflowExecutionContinuedAsNew
    | OtherEventType(code: int)

  datatype Event = Event(eventId: int64, eventType: EventType, version: int64)

  /** One history batch. */
  datatype Batch = Batch(events: seq<Event>)

  /** What one step of the upstream history iterator delivers. */
  datatype Blob = Blob(body: seq<Batch>, isLast: bool)

  datatype HistoryRequest = HistoryRequest(
    namespaceId: string, workflowId: string, runId: string, closeFailoverVersion: int64, nextEventId: int64)

  /** An event of this type closes a workflow with this status. */
  predicate ClosesWith(eventType: EventType, status: Status) {
    || (eventType == WorkflowExecutionCompleted && status == Completed)
    || (eventType == WorkflowExecutionFailed && status == Failed)
    || (eventType == WorkflowExecutionTimedOut && status == TimedOut)
    || (eventType == WorkflowExecutionCanceled && status == Canceled)
    || (eventType == WorkflowExecutionTerminated && status == Terminated)
    || (eventType == WorkflowExecutionContinuedAsNew && status == ContinuedAsNew)
  }

  /** The lookup table of closing events. */
  function StatusOfEventType(eventType: EventType): Option<Status> {
    match eventType
    case WorkflowExecutionCompleted => Some(Completed)
    case WorkflowExecutionFailed => Some(Failed)
    case WorkflowExecutionTimedOut => Some(TimedOut)
    case WorkflowExecutionCanceled => Some(Canceled)
    case WorkflowExecutionTerminated => Some(Terminated)
    case WorkflowExecutionContinuedAsNew => Some(ContinuedAsNew)
    case OtherEventType(_) => None
  }

  /** The last event of the last batch. */
  function LastEvent(body: seq<Batch>): Option<Event> {
    if body == [] || body[|body| - 1].events == [] then None
    else var events := body[|body| - 1].events; Some(events[|events| - 1])
  }

  function TerminalStatus(blob: Blob): Option<Status> {
    match LastEvent(blob.body)
    case None => None
    case Some(event) => StatusOfEventType(event.eventType)
  }

  /** The blob does not fit the failover version and event ID the request was made for. */
  predicate HistoryMutated(request: HistoryRequest, body: seq<Batch>, isLast: bool) {
    match LastEvent(body)
    case None => false
    case Some(event) =>
      if event.version > request.closeFailoverVersion then true
      else if !isLast then false
      else event.version != request.closeFailoverVersion || Int64Successor(event.eventId) != request.nextEventId
  }

  // ---- What the checks mean ----

  /** The batches end with a batch that ends with the event. */
  ghost predicate EndsWith(body: seq<Batch>, event: Event) {
    exists batches, events :: body == batches + [Batch(events + [event])]
  }

  /** The event `next` is numbered one after `id`, counting modulo 2^64. */
  predicate NumberedNext(id: int64, next: int64) {
    (next - id - 1) % 0x1_0000_0000_0000_0000 == 0
  }

  /** The blob's last event, if it has one, is not newer than the request; that of the final blob
      has the version and the number that the request was made for. */
  ghost predicate FitsRequest(request: HistoryRequest, blob: Blob) {
    forall event | EndsWith(blob.body, event) ::
      && event.version <= request.closeFailoverVersion
      && (blob.isLast ==>
            event.version == request.closeFailoverVersion && NumberedNext(event.eventId, request.nextEventId))
  }

  /** The blob's last event, if it has one, closes the workflow with an allowed status or with none. */
  ghost predicate MayBeStored(config: Config, blob: Blob) {
    forall event, status | EndsWith(blob.body, event) && ClosesWith(event.eventType, status) ::
      config.allowedStatuses == {} || status in config.allowedStatuses
  }

  lemma LastOfAppended<T>(s: seq<T>, x: T)
    ensures s + [x] != [] && (s + [x])[|s + [x]| - 1] == x
  {
  }

  lemma LastEventExactly(body: seq<Batch>, event: Event)
    ensures LastEvent(body) == Some(event) <==> EndsWith(body, event)
  {
    if LastEvent(body) == Some(event) {
      var n := |body| - 1;
      var events := body[n].events;
      var m := |events| - 1;
      assert events == events[..m] + [event];
      assert body == body[..n] + [Batch(events[..m] + [event])];
    }
    if EndsWith(body, event) {
      var batches, events :| body == batches + [Batch(events + [event])];
      LastOfAppended(batches, Batch(events + [event]));
      LastOfAppended(events, event);
    }
  }

  lemma SuccessorExactly(id: int64, next: int64)
    ensures Int64Successor(id) == next <==> NumberedNext(id, next)
  {
    var d := next - id - 1;
    assert -0x1_0000_0000_0000_0000 <= d < 0x1_0000_0000_0000_0000;
  }

  /** The check of a blob passes exactly those that fit. */
  lemma MutatedExactly(request: HistoryRequest, blob: Blob)
    ensures !HistoryMutated(request, blob.body, blob.isLast) <==> FitsRequest(request, blob)
  {
    forall event
      ensures LastEvent(blob.body) == Some(event) <==> EndsWith(blob.body, event)
    {
      LastEventExactly(blob.body, event);
    }
    if LastEvent(blob.body).Some? {
      SuccessorExactly(LastEvent(blob.body).value.eventId, request.nextEventId);
    }
  }

  lemma ClosingTableExactly(eventType: EventType, status: Status)
    ensures StatusOfEventType(eventType) == Some(status) <==> ClosesWith(eventType, status)
  {
  }

  lemma TerminalStatusExactly(blob: Blob, status: Status)
    ensures TerminalStatus(blob) == Some(status)
            <==> exists event | EndsWith(blob.body, event) :: ClosesWith(event.eventType, status)
  {
    forall event
      ensures LastEvent(blob.body) == Some(event) <==> EndsWith(blob.body, event)
      ensures StatusOfEventType(event.eventType) == Some(status) <==> ClosesWith(event.eventType, status)
    {
      LastEventExactly(blob.body, event);
      ClosingTableExactly(event.eventType, status);
    }
  }

  // ---- Flattening ----

  /** The batches of consecutive blobs. */
  function Batches(blobs: seq<Blob>): seq<Batch> {
    if blobs == [] then [] else blobs[0].body + Batches(blobs[1..])
  }

  lemma {:induction false} BatchesConcat(a: seq<Blob>, b: seq<Blob>)
    ensures Batches(a + b) == Batches(a) + Batches(b)
  {
    if a == [] {
      assert a + b == b;
    } else {
      assert (a + b)[1..] == a[1..] + b;
      BatchesConcat(a[1..], b);
    }
  }

  /** The batches split at any cursor into those before it and those from it on. */
  lemma BatchesSplit(blobs: seq<Blob>, cursor: nat)
    requires cursor <= |blobs|
    ensures Batches(blobs) == Batches(blobs[..cursor]) + Batches(blobs[cursor..])
  {
    assert blobs == blobs[..cursor] + blobs[cursor..];
    BatchesConcat(blobs[..cursor], blobs[cursor..]);
  }

  /** The events of consecutive batches. */
  function Events(batches: seq<Batch>): seq<Event> {
    if batches == [] then [] else batches[0].events + Events(batches[1..])
  }

  lemma {:induction false} EventsConcat(a: seq<Batch>, b: seq<Batch>)
    ensures Events(a + b) == Events(a) + Events(b)
  {
    if a == [] {
      assert a + b == b;
    } else {
      assert (a + b)[1..] == a[1..] + b;
      EventsConcat(a[1..], b);
    }
  }
}
