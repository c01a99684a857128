/** One attempt to archive a history, as a function of the recorded progress, the object
    store and what the environment does; and what such an attempt can and cannot do.

    The upstream history iterator is a cursor over the sequence of blobs; its saved state is
    the cursor. */
module ArchiveAttempt {
  import opened Wrappers
  import opened Configuration
  import opened Storage
  import opened Packing
  import opened Histories
  import Keys

  datatype ReadOutcome = Delivered | NotFound | Unreadable

  /** What the surroundings do during one attempt.
      `managed`: there is a progress manager; `loads`, `restores`: recorded progress can be
      loaded, and an iterator built from it; `accepted`: the request passes validation;
      `read(c)`: the outcome of reading the blob at cursor `c`; `records(c)`: whether saving
      cursor `c` succeeds; `put`: whether the upload succeeds. */
  datatype Environment = Environment(
    managed: bool, loads: bool, restores: bool, accepted: bool,
    read: nat -> ReadOutcome, records: nat -> bool, nonRetryable: bool, put: bool)

  /** How an attempt ends. The first four return no error. */
  datatype Outcome =
    | Uploaded
    | SkippedStatus(status: Status)
    | SkippedNotFound
    | NothingLeft
    | BadUri(error: UriError)
    | BadRequest
    | ReadFailed
    | Mutated
    | PackFailed(packError: PackError, nonRetryable: bool)
    | PutFailed

  predicate Succeeded(outcome: Outcome) {
    outcome.Uploaded? || outcome.SkippedStatus? || outcome.SkippedNotFound? || outcome.NothingLeft?
  }

  /** What stays the same over all attempts to archive one execution. */
  datatype Call = Call(uri: Uri, request: HistoryRequest, source: seq<Blob>, config: Config, codec: Codec<seq<Batch>>)

  /** What one attempt leaves to the next: recorded progress and stored objects. */
  datatype World = World(recorded: Option<nat>, objects: Objects)

  ghost predicate ValidWorld(call: Call, world: World) {
    world.recorded.Some? ==> world.recorded.value <= |call.source|
  }

  function HistoryId(call: Call): ObjectId {
    ObjectId(call.uri.hostname,
             Keys.HistoryKey(call.uri.path, call.request.namespaceId, call.request.workflowId,
                             call.request.runId, call.request.closeFailoverVersion))
  }

  // ---- The attempt ----

  predicate Restores(env: Environment) {
    env.managed && env.loads && env.restores
  }

  function StartCursor(env: Environment, recorded: Option<nat>): nat {
    if Restores(env) && recorded.Some? then recorded.value else 0
  }

  function Saved(env: Environment, cursor: nat, recorded: Option<nat>): Option<nat> {
    if env.managed && env.records(cursor) then Some(cursor) else recorded
  }

  /** An unrecognised last event never stops an upload. */
  predicate StatusPermits(config: Config, blob: Blob) {
    match TerminalStatus(blob)
    case None => true
    case Some(status) => StatusAllowed(config, status)
  }

  datatype Verdict = Ended(outcome: Outcome) | ReadyToUpload

  datatype Scan = Scan(verdict: Verdict, recorded: Option<nat>, gathered: seq<Batch>)

  /** The loop over the remaining blobs. */
  function ScanFrom(call: Call, env: Environment, cursor: nat, recorded: Option<nat>, gathered: seq<Batch>): Scan
    requires cursor <= |call.source|
    decreases |call.source| - cursor
  {
    if cursor == |call.source| then Scan(Ended(NothingLeft), recorded, gathered)
    else if env.read(cursor).NotFound? then Scan(Ended(SkippedNotFound), recorded, gathered)
    else if env.read(cursor).Unreadable? then Scan(Ended(ReadFailed), recorded, gathered)
    else
      var blob := call.source[cursor];
      if HistoryMutated(call.request, blob.body, blob.isLast) then Scan(Ended(Mutated), recorded, gathered)
      else
        var recorded' := Saved(env, cursor + 1, recorded);
        var gathered' := gathered + blob.body;
        if !blob.isLast then ScanFrom(call, env, cursor + 1, recorded', gathered')
        else if StatusPermits(call.config, blob) then Scan(ReadyToUpload, recorded', gathered')
        else Scan(Ended(SkippedStatus(TerminalStatus(blob).value)), recorded', gathered')
  }

  function UploadOutcome(call: Call, env: Environment, batches: seq<Batch>): Outcome {
    match Pack(call.codec, batches)
    case Failure(error) => PackFailed(error, env.nonRetryable)
    case Success(_) => if env.put then Uploaded else PutFailed
  }

  function Attempt(call: Call, env: Environment, world: World): (Outcome, World)
    requires ValidWorld(call, world)
  {
    if ValidateUri(call.uri).Some? then (BadUri(ValidateUri(call.uri).value), world)
    else if !env.accepted then (BadRequest, world)
    else
      var scan := ScanFrom(call, env, StartCursor(env, world.recorded), world.recorded, []);
      match scan.verdict
      case Ended(outcome) => (outcome, world.(recorded := scan.recorded))
      case ReadyToUpload =>
        var outcome := UploadOutcome(call, env, scan.gathered);
        (outcome,
         World(scan.recorded,
               if outcome.Uploaded? then world.objects[HistoryId(call) := Pack(call.codec, scan.gathered).value]
               else world.objects))
  }

  // ---- What the loop does, by where it stops ----

  /** The blob at `i` is delivered and fits the request. */
  ghost predicate Clean(call: Call, env: Environment, i: nat)
    requires i < |call.source|
  {
    env.read(i).Delivered? && !HistoryMutated(call.request, call.source[i].body, call.source[i].isLast)
  }

  ghost predicate CleanBetween(call: Call, env: Environment, start: nat, stop: nat)
    requires stop <= |call.source|
  {
    forall i | start <= i < stop :: Clean(call, env, i)
  }

  /** From `start` the loop stops at `stop`: before the first blob that is not clean, right
      after the first last-marked one, or at the end. */
  ghost predicate StopsAt(call: Call, env: Environment, start: nat, stop: nat) {
    && start <= stop <= |call.source|
    && CleanBetween(call, env, start, stop)
    && (forall i | start <= i < stop - 1 :: !call.source[i].isLast)
    && (stop == |call.source| || (start < stop && call.source[stop - 1].isLast) || !Clean(call, env, stop))
  }

  /** The verdict that belongs to a stopping place. */
  function VerdictAt(call: Call, env: Environment, start: nat, stop: nat): Verdict
    requires start <= stop <= |call.source|
  {
    if start < stop && call.source[stop - 1].isLast then
      if StatusPermits(call.config, call.source[stop - 1]) then ReadyToUpload
      else Ended(SkippedStatus(TerminalStatus(call.source[stop - 1]).value))
    else if stop == |call.source| then Ended(NothingLeft)
    else Ended(match env.read(stop)
               case NotFound => SkippedNotFound
               case Unreadable => ReadFailed
               case Delivered => Mutated)
  }

  /** The furthest cursor beyond `start` and up to `stop` whose saving succeeded. */
  function LastSaved(env: Environment, start: nat, stop: nat, recorded: Option<nat>): Option<nat>
    decreases stop
  {
    if stop <= start then recorded
    else if env.managed && env.records(stop) then Some(stop)
    else LastSaved(env, start, stop - 1, recorded)
  }

  lemma {:induction false} LastSavedFromFront(env: Environment, start: nat, stop: nat, recorded: Option<nat>)
    requires start + 1 <= stop
    ensures LastSaved(env, start, stop, recorded) == LastSaved(env, start + 1, stop, Saved(env, start + 1, recorded))
    decreases stop
  {
    if start + 1 < stop && !(env.managed && env.records(stop)) {
      LastSavedFromFront(env, start, stop - 1, recorded);
    }
  }

  lemma StopsAtStep(call: Call, env: Environment, start: nat, stop: nat)
    requires start < |call.source| && Clean(call, env, start) && !call.source[start].isLast
    requires StopsAt(call, env, start + 1, stop)
    ensures StopsAt(call, env, start, stop)
    ensures VerdictAt(call, env, start, stop) == VerdictAt(call, env, start + 1, stop)
  {
  }

  lemma GatherStep(source: seq<Blob>, start: nat, stop: nat, gathered: seq<Batch>)
    requires start < stop <= |source|
    ensures gathered + source[start].body + Batches(source[start + 1..stop]) == gathered + Batches(source[start..stop])
  {
    BatchesStep(source, start, stop);
  }

  /** The loop's verdict, recorded progress and gathered batches are those of its stopping place:
      it has gathered exactly the batches from its start cursor to there. */
  lemma {:induction false} ScanMeaning(call: Call, env: Environment, start: nat,
                                       recorded: Option<nat>, gathered: seq<Batch>) returns (stop: nat)
    requires start <= |call.source|
    ensures StopsAt(call, env, start, stop)
    ensures ScanFrom(call, env, start, recorded, gathered)
            == Scan(VerdictAt(call, env, start, stop), LastSaved(env, start, stop, recorded),
                    gathered + Batches(call.source[start..stop]))
    decreases |call.source| - start
  {
    if start == |call.source| || !Clean(call, env, start) {
      stop := start;
      assert Batches(call.source[start..stop]) == [];
    } else if call.source[start].isLast {
      stop := start + 1;
      GatherStep(call.source, start, stop, gathered);
      assert Batches(call.source[stop..stop]) == [];
    } else {
      stop := ScanMeaning(call, env, start + 1, Saved(env, start + 1, recorded), gathered + call.source[start].body);
      StopsAtStep(call, env, start, stop);
      LastSavedFromFront(env, start, stop, recorded);
      GatherStep(call.source, start, stop, gathered);
    }
  }

  /** The same for a whole attempt whose URI and request are valid. */
  lemma AttemptMeaning(call: Call, env: Environment, world: World) returns (stop: nat)
    requires ValidWorld(call, world) && ValidateUri(call.uri).None? && env.accepted
    ensures var start := StartCursor(env, world.recorded);
            && StopsAt(call, env, start, stop)
            && var verdict := VerdictAt(call, env, start, stop);
               var batches := Batches(call.source[start..stop]);
               var (outcome, world') := Attempt(call, env, world);
               && outcome == (if verdict.Ended? then verdict.outcome else UploadOutcome(call, env, batches))
               && world'.recorded == LastSaved(env, start, stop, world.recorded)
               && world'.objects == if outcome.Uploaded?
                                    then world.objects[HistoryId(call) := Pack(call.codec, batches).value]
                                    else world.objects
  {
    var start := StartCursor(env, world.recorded);
    stop := ScanMeaning(call, env, start, world.recorded, []);
    assert [] + Batches(call.source[start..stop]) == Batches(call.source[start..stop]);
  }

  lemma BatchesStep(blobs: seq<Blob>, from: nat, to: nat)
    requires from < to <= |blobs|
    ensures Batches(blobs[from..to]) == blobs[from].body + Batches(blobs[from + 1..to])
  {
    assert blobs[from..to][1..] == blobs[from + 1..to];
  }

  // ---- Well-marked sources ----

  /** The upstream iterator marks exactly the final blob as last. */
  ghost predicate WellMarked(source: seq<Blob>) {
    forall i | 0 <= i < |source| :: source[i].isLast <==> i == |source| - 1
  }

  /** Something is left from `start`, all of it is clean, and the final status may be archived. */
  ghost predicate ReachesUpload(call: Call, env: Environment, start: nat) {
    && start < |call.source|
    && CleanBetween(call, env, start, |call.source|)
    && StatusPermits(call.config, call.source[|call.source| - 1])
  }

  /** Exactly when an attempt uploads, and exactly what it then stores: the batches from its
      start cursor to the end. Otherwise it leaves every object as it was. */
  lemma AttemptUploads(call: Call, env: Environment, world: World)
    requires ValidWorld(call, world) && WellMarked(call.source)
    ensures var start := StartCursor(env, world.recorded);
            var (outcome, world') := Attempt(call, env, world);
            var packed := Pack(call.codec, Batches(call.source[start..]));
            && (outcome.Uploaded? <==>
                  && ValidateUri(call.uri).None? && env.accepted && ReachesUpload(call, env, start)
                  && packed.Success? && env.put)
            && world'.objects == if outcome.Uploaded? then world.objects[HistoryId(call) := packed.value]
                                 else world.objects
  {
    if ValidateUri(call.uri).None? && env.accepted {
      var start := StartCursor(env, world.recorded);
      var stop := AttemptMeaning(call, env, world);
      StopOfUpload(call, env, start, stop);
      assert call.source[start..|call.source|] == call.source[start..];
    }
  }

  lemma StopOfUpload(call: Call, env: Environment, start: nat, stop: nat)
    requires WellMarked(call.source) && StopsAt(call, env, start, stop)
    ensures VerdictAt(call, env, start, stop).ReadyToUpload? <==> ReachesUpload(call, env, start)
    ensures ReachesUpload(call, env, start) ==> stop == |call.source|
  {
  }

  /** Cursor `c` was recorded by this attempt: it lies beyond the start, saving it succeeded,
      and every blob passed on the way is clean. */
  ghost predicate RecordedCleanly(call: Call, env: Environment, start: nat, c: nat) {
    start < c <= |call.source| && env.managed && env.records(c) && CleanBetween(call, env, start, c)
  }

  lemma {:induction false} LastSavedIsSaved(env: Environment, start: nat, stop: nat, recorded: Option<nat>)
    ensures var saved := LastSaved(env, start, stop, recorded);
            saved == recorded || (saved.Some? && start < saved.value <= stop && env.managed && env.records(saved.value))
    decreases stop
  {
    if start < stop && !(env.managed && env.records(stop)) {
      LastSavedIsSaved(env, start, stop - 1, recorded);
    }
  }

  /** An attempt either leaves recorded progress alone or advances it past clean blobs. */
  lemma AttemptRecords(call: Call, env: Environment, world: World)
    requires ValidWorld(call, world)
    ensures var recorded' := Attempt(call, env, world).1.recorded;
            && ValidWorld(call, Attempt(call, env, world).1)
            && (recorded' == world.recorded
                || (recorded'.Some? && RecordedCleanly(call, env, StartCursor(env, world.recorded), recorded'.value)))
  {
    if ValidateUri(call.uri).None? && env.accepted {
      var start := StartCursor(env, world.recorded);
      var stop := AttemptMeaning(call, env, world);
      LastSavedIsSaved(env, start, stop, world.recorded);
    }
  }

  /** An attempt that gets as far as packing the history has offered the end cursor for
      recording, whatever becomes of the upload. */
  lemma AttemptRecordsEnd(call: Call, env: Environment, world: World)
    requires ValidWorld(call, world) && WellMarked(call.source)
    requires env.managed && env.records(|call.source|)
    requires var outcome := Attempt(call, env, world).0; outcome.Uploaded? || outcome.PutFailed? || outcome.PackFailed?
    ensures Attempt(call, env, world).1.recorded == Some(|call.source|)
  {
    var start := StartCursor(env, world.recorded);
    var stop := AttemptMeaning(call, env, world);
    StopOfUpload(call, env, start, stop);
  }

  /** What each successful ending means; only the upload writes. */
  ghost predicate SuccessFits(call: Call, env: Environment, start: nat, outcome: Outcome,
                              before: Objects, after: Objects)
    requires start <= |call.source|
  {
    match outcome
    case Uploaded =>
      && HistoryId(call) in after
      && Success(after[HistoryId(call)]) == Pack(call.codec, Batches(call.source[start..]))
    case SkippedStatus(status) =>
      && after == before && start < |call.source|
      && TerminalStatus(call.source[|call.source| - 1]) == Some(status) && !StatusAllowed(call.config, status)
    case SkippedNotFound =>
      && after == before
      && exists i | start <= i < |call.source| :: env.read(i).NotFound? && CleanBetween(call, env, start, i)
    case NothingLeft =>
      after == before && start == |call.source|
    case _ => false
  }

  /** An attempt without error means exactly one of: the object was put, the final status is
      not allowed, some blob was gone, or nothing was left to iterate. */
  lemma SuccessMeans(call: Call, env: Environment, world: World)
    requires ValidWorld(call, world) && WellMarked(call.source)
    ensures var (outcome, world') := Attempt(call, env, world);
            Succeeded(outcome) <==>
              SuccessFits(call, env, StartCursor(env, world.recorded), outcome, world.objects, world'.objects)
  {
    AttemptUploads(call, env, world);
    if ValidateUri(call.uri).None? && env.accepted {
      var start := StartCursor(env, world.recorded);
      var stop := AttemptMeaning(call, env, world);
      assert start < |call.source| ==> call.source[|call.source| - 1].isLast;
    }
  }

  /** With nothing left, an attempt does nothing and succeeds; that is the only way to get there. */
  lemma NothingLeftExactly(call: Call, env: Environment, world: World)
    requires ValidWorld(call, world) && WellMarked(call.source)
    requires ValidateUri(call.uri).None? && env.accepted
    ensures Attempt(call, env, world) == (NothingLeft, world) <==> StartCursor(env, world.recorded) == |call.source|
  {
    var start := StartCursor(env, world.recorded);
    var stop := AttemptMeaning(call, env, world);
    assert start < |call.source| ==> call.source[|call.source| - 1].isLast;
  }

  // ---- Contiguous sources ----

  ghost predicate Contiguous(events: seq<Event>) {
    && (forall i | 0 <= i < |events| :: events[i].eventId == i + 1)
    && (forall i, j | 0 <= i <= j < |events| :: events[i].version <= events[j].version)
  }

  /** No blob is without batches and no batch without events. */
  ghost predicate NothingEmpty(source: seq<Blob>) {
    forall blob | blob in source :: blob.body != [] && forall batch | batch in blob.body :: batch.events != []
  }

  /** The events of a suffix end with the last event of the final blob. */
  lemma {:induction false} LastEventOfSuffix(source: seq<Blob>, start: nat)
    requires start < |source| && NothingEmpty(source)
    ensures var events := Events(Batches(source[start..]));
            events != [] && LastEvent(source[|source| - 1].body) == Some(events[|events| - 1])
    decreases |source| - start
  {
    var blob := source[start];
    assert blob in source;
    BatchesStep(source, start, |source|);
    assert source[start..|source|] == source[start..] && source[start + 1..|source|] == source[start + 1..];
    EventsConcat(blob.body, Batches(source[start + 1..]));
    if start < |source| - 1 {
      LastEventOfSuffix(source, start + 1);
    } else {
      LastEventOfBody(blob.body);
      assert Batches([]) == [] && Events([]) == [];
    }
  }

  lemma {:induction false} LastEventOfBody(body: seq<Batch>)
    requires body != [] && forall batch | batch in body :: batch.events != []
    ensures Events(body) != [] && LastEvent(body) == Some(Events(body)[|Events(body)| - 1])
  {
    assert body[0] in body;
    if |body| == 1 {
      assert Events(body[1..]) == [];
    } else {
      assert body[1..][|body| - 2] == body[|body| - 1];
      LastEventOfBody(body[1..]);
    }
  }

  /** The guard on the final blob of an upload, read on the events of its suffix. */
  lemma UploadGuard(call: Call, env: Environment, start: nat)
    requires ReachesUpload(call, env, start) && WellMarked(call.source) && NothingEmpty(call.source)
    ensures var stored := Events(Batches(call.source[start..]));
            && stored != []
            && Int64Successor(stored[|stored| - 1].eventId) == call.request.nextEventId
            && stored[|stored| - 1].version == call.request.closeFailoverVersion
  {
    LastEventOfSuffix(call.source, start);
    assert Clean(call, env, |call.source| - 1);
  }

  lemma EventsSplit(source: seq<Blob>, start: nat)
    requires start <= |source|
    ensures Events(Batches(source)) == Events(Batches(source[..start])) + Events(Batches(source[start..]))
  {
    BatchesSplit(source, start);
    EventsConcat(Batches(source[..start]), Batches(source[start..]));
  }

  lemma BlobEventInHistory(source: seq<Blob>, i: nat)
    requires i < |source| && NothingEmpty(source)
    ensures LastEvent(source[i].body).Some? && LastEvent(source[i].body).value in Events(Batches(source))
  {
    var blob := source[i];
    assert blob in source;
    LastEventOfBody(blob.body);
    EventsSplit(source, i);
    BatchesStep(source, i, |source|);
    assert source[i..|source|] == source[i..] && source[i + 1..|source|] == source[i + 1..];
    EventsConcat(blob.body, Batches(source[i + 1..]));
  }

  /** For a contiguous history the per-blob guards together accept exactly the requests that fit
      its last event: they are neither too strict nor too weak. */
  lemma GuardsAcceptExactly(request: HistoryRequest, source: seq<Blob>)
    requires source != [] && WellMarked(source) && NothingEmpty(source) && Contiguous(Events(Batches(source)))
    ensures var events := Events(Batches(source));
            && events != []
            && var last := events[|events| - 1];
               (forall i | 0 <= i < |source| :: !HistoryMutated(request, source[i].body, source[i].isLast))
               <==> last.version == request.closeFailoverVersion && Int64Successor(last.eventId) == request.nextEventId
  {
    var events := Events(Batches(source));
    LastEventOfSuffix(source, 0);
    assert source[0..] == source;
    var last := events[|events| - 1];
    if last.version == request.closeFailoverVersion && Int64Successor(last.eventId) == request.nextEventId {
      forall i | 0 <= i < |source|
        ensures !HistoryMutated(request, source[i].body, source[i].isLast)
      {
        BlobEventInHistory(source, i);
      }
    } else {
      assert HistoryMutated(request, source[|source| - 1].body, source[|source| - 1].isLast);
    }
  }

  /** `stored` are exactly the events after the first `skipped` ones, up to the one before
      `nextEventId`, at versions up to the close failover version, which the last event has. */
  ghost predicate StoresEvents(request: HistoryRequest, skipped: nat, stored: seq<Event>) {
    && stored != []
    && Int64Successor(stored[|stored| - 1].eventId) == request.nextEventId
    && stored[|stored| - 1].version == request.closeFailoverVersion
    && (forall i | 0 <= i < |stored| ::
          stored[i].eventId == skipped + i + 1 && stored[i].version <= request.closeFailoverVersion)
    && (request.nextEventId > 0 ==> skipped + |stored| == request.nextEventId - 1)
  }

  lemma SuffixOfContiguous(request: HistoryRequest, skipped: seq<Event>, stored: seq<Event>)
    requires Contiguous(skipped + stored) && stored != []
    requires Int64Successor(stored[|stored| - 1].eventId) == request.nextEventId
    requires stored[|stored| - 1].version == request.closeFailoverVersion
    ensures StoresEvents(request, |skipped|, stored)
  {
    var all := skipped + stored;
    forall i | 0 <= i < |stored|
      ensures stored[i].eventId == |skipped| + i + 1 && stored[i].version <= stored[|stored| - 1].version
    {
      assert all[|skipped| + i] == stored[i] && all[|all| - 1] == stored[|stored| - 1];
    }
  }

  /** For a contiguous history, an attempt that uploads has stored exactly the events that
      follow those of the skipped blobs. */
  lemma UploadedEvents(call: Call, env: Environment, world: World)
    requires ValidWorld(call, world) && WellMarked(call.source) && NothingEmpty(call.source)
    requires Contiguous(Events(Batches(call.source)))
    requires Attempt(call, env, world).0.Uploaded?
    ensures var start := StartCursor(env, world.recorded);
            StoresEvents(call.request, |Events(Batches(call.source[..start]))|, Events(Batches(call.source[start..])))
  {
    var start := StartCursor(env, world.recorded);
    AttemptUploads(call, env, world);
    UploadGuard(call, env, start);
    EventsSplit(call.source, start);
    SuffixOfContiguous(call.request, Events(Batches(call.source[..start])), Events(Batches(call.source[start..])));
  }

  /** A fresh attempt that uploads has stored the complete history: exactly the events
      numbered 1 to `nextEventId` - 1. */
  lemma FreshUploadIsComplete(call: Call, env: Environment, world: World)
    requires ValidWorld(call, world) && WellMarked(call.source) && NothingEmpty(call.source)
    requires Contiguous(Events(Batches(call.source)))
    requires Attempt(call, env, world).0.Uploaded? && StartCursor(env, world.recorded) == 0
    ensures StoresEvents(call.request, 0, Events(Batches(call.source)))
    ensures var objects := Attempt(call, env, world).1.objects;
            HistoryId(call) in objects && Success(objects[HistoryId(call)]) == Pack(call.codec, Batches(call.source))
  {
    AttemptUploads(call, env, world);
    UploadedEvents(call, env, world);
    assert call.source[0..] == call.source && call.source[..0] == [];
    assert Events(Batches([])) == [];
  }
}
