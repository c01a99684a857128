/** Exactly how an attempt to archive a history ends, told by the request, the events, the allowlist,
    the parts of the codec and what the surroundings do. */
module ArchiveOutcomes {
  import opened Wrappers
  import opened Configuration
  import opened Storage
  import opened Packing
  import opened Histories
  import opened ArchiveAttempt

  /** A request that is not valid ends at once and changes nothing. */
  lemma RejectsExactly(call: Call, env: Environment, world: World)
    requires ValidWorld(call, world)
    ensures var (outcome, world') := Attempt(call, env, world);
            && (call.uri.scheme != "minio" <==> outcome == BadUri(SchemeMismatch))
            && (call.uri.scheme == "minio" && call.uri.hostname == "" <==> outcome == BadUri(InvalidUri))
            && (call.uri.scheme == "minio" && call.uri.hostname != "" && !env.accepted <==> outcome == BadRequest)
            && (outcome.BadUri? || outcome.BadRequest? ==> world' == world)
  {
    if ValidateUri(call.uri).None? && env.accepted {
      var stop := AttemptMeaning(call, env, world);
    }
  }

  /** The URI names a bucket of this archiver, and the request passes validation. */
  predicate Valid(call: Call, env: Environment) {
    call.uri.scheme == "minio" && call.uri.hostname != "" && env.accepted
  }

  /** An attempt starts at recorded progress that can be loaded and restored, else at the first blob. */
  function StartsAt(env: Environment, world: World): nat {
    if env.managed && env.loads && env.restores && world.recorded.Some? then world.recorded.value else 0
  }

  /** From `start` up to `i` every blob is delivered and fits the request. */
  ghost predicate FitUpTo(call: Call, env: Environment, start: nat, i: nat) {
    && i <= |call.source|
    && forall j | start <= j < i :: env.read(j).Delivered? && FitsRequest(call.request, call.source[j])
  }

  lemma CleanExactly(call: Call, env: Environment, start: nat, i: nat)
    requires i <= |call.source|
    ensures FitUpTo(call, env, start, i) <==> CleanBetween(call, env, start, i)
  {
    forall j | start <= j < i
      ensures Clean(call, env, j) <==> env.read(j).Delivered? && FitsRequest(call.request, call.source[j])
    {
      MutatedExactly(call.request, call.source[j]);
    }
  }

  lemma PermitsExactly(config: Config, blob: Blob)
    ensures StatusPermits(config, blob) <==> MayBeStored(config, blob)
  {
    if TerminalStatus(blob).Some? {
      TerminalStatusExactly(blob, TerminalStatus(blob).value);
    }
    forall status
      ensures TerminalStatus(blob) == Some(status)
              <==> exists event | EndsWith(blob.body, event) :: ClosesWith(event.eventType, status)
    {
      TerminalStatusExactly(blob, status);
    }
  }

  /** Every blob that is left fits, and the last one may be stored. */
  ghost predicate ReadyFrom(call: Call, env: Environment, start: nat) {
    && start < |call.source| && FitUpTo(call, env, start, |call.source|)
    && MayBeStored(call.config, call.source[|call.source| - 1])
  }

  lemma ReadyExactly(call: Call, env: Environment, start: nat)
    ensures ReadyFrom(call, env, start) <==> ReachesUpload(call, env, start)
  {
    CleanExactly(call, env, start, |call.source|);
    if start < |call.source| {
      PermitsExactly(call.config, call.source[|call.source| - 1]);
    }
  }

  /** How packing and putting end, by the parts of the codec. */
  ghost predicate UploadEnds(call: Call, env: Environment, id: ObjectId, batches: seq<Batch>, outcome: Outcome,
                             before: Objects, after: Objects)
  {
    var json := call.codec.encode(batches);
    if json.None? then outcome == PackFailed(EncodeError, env.nonRetryable) && after == before
    else if call.codec.compress(json.value).None? then
      outcome == PackFailed(CompressError, env.nonRetryable) && after == before
    else if !env.put then outcome == PutFailed && after == before
    else outcome == Uploaded && after == before[id := call.codec.compress(json.value).value]
  }

  /** Exactly when an attempt gets to its upload, and exactly what becomes of it: a valid request
      whose remaining blobs all fit, and whose last event closes with an allowed status or none. */
  lemma UploadExactly(call: Call, env: Environment, world: World)
    requires ValidWorld(call, world) && WellMarked(call.source)
    ensures var (outcome, world') := Attempt(call, env, world);
            var start := StartsAt(env, world);
            && (outcome.Uploaded? || outcome.PackFailed? || outcome.PutFailed?
                <==> Valid(call, env) && ReadyFrom(call, env, start))
            && (Valid(call, env) && ReadyFrom(call, env, start) ==>
                  UploadEnds(call, env, HistoryId(call), Batches(call.source[start..]), outcome,
                             world.objects, world'.objects))
            && (!(Valid(call, env) && ReadyFrom(call, env, start)) ==> world'.objects == world.objects)
  {
    var start := StartCursor(env, world.recorded);
    ReadyExactly(call, env, start);
    if ValidateUri(call.uri).None? && env.accepted {
      var stop := AttemptMeaning(call, env, world);
      StopOfUpload(call, env, start, stop);
      assert call.source[start..|call.source|] == call.source[start..];
    }
  }

  /** Every blob that is left fits, and the last event closes with this status, which is not allowed. */
  ghost predicate BarredFrom(call: Call, env: Environment, start: nat, status: Status) {
    && start < |call.source| && FitUpTo(call, env, start, |call.source|)
    && call.config.allowedStatuses != {} && status !in call.config.allowedStatuses
    && exists event | EndsWith(call.source[|call.source| - 1].body, event) :: ClosesWith(event.eventType, status)
  }

  lemma BarredExactly(call: Call, env: Environment, start: nat, stop: nat, status: Status)
    requires WellMarked(call.source) && StopsAt(call, env, start, stop)
    ensures VerdictAt(call, env, start, stop) == Ended(SkippedStatus(status))
            <==> BarredFrom(call, env, start, status)
  {
    CleanExactly(call, env, start, |call.source|);
    if start < |call.source| {
      TerminalStatusExactly(call.source[|call.source| - 1], status);
      assert call.source[|call.source| - 1].isLast;
    }
  }

  /** Exactly when an attempt skips a history for its status. */
  lemma SkipsStatusExactly(call: Call, env: Environment, world: World, status: Status)
    requires ValidWorld(call, world) && WellMarked(call.source)
    ensures Attempt(call, env, world).0 == SkippedStatus(status)
            <==> Valid(call, env) && BarredFrom(call, env, StartsAt(env, world), status)
  {
    if ValidateUri(call.uri).None? && env.accepted {
      var stop := AttemptMeaning(call, env, world);
      BarredExactly(call, env, StartsAt(env, world), stop, status);
    }
  }

  /** An attempt ends at the first blob that is not delivered or does not fit, `i`: without writing
      an object, and without recording a cursor beyond that blob. */
  lemma StopsAtFirstUnfit(call: Call, env: Environment, world: World, i: nat)
    requires ValidWorld(call, world) && WellMarked(call.source) && Valid(call, env)
    requires StartsAt(env, world) <= i < |call.source| && FitUpTo(call, env, StartsAt(env, world), i)
    requires !env.read(i).Delivered? || !FitsRequest(call.request, call.source[i])
    ensures var (outcome, world') := Attempt(call, env, world);
            && (env.read(i).NotFound? <==> outcome == SkippedNotFound)
            && (env.read(i).Unreadable? <==> outcome == ReadFailed)
            && (env.read(i).Delivered? <==> outcome == Mutated)
            && world'.objects == world.objects
            && (world'.recorded == world.recorded || (world'.recorded.Some? && world'.recorded.value <= i))
  {
    var start := StartCursor(env, world.recorded);
    var stop := AttemptMeaning(call, env, world);
    CleanExactly(call, env, start, i);
    MutatedExactly(call.request, call.source[i]);
    assert !Clean(call, env, i);
    assert stop == i;
    LastSavedIsSaved(env, start, stop, world.recorded);
  }

  /** Exactly what an attempt leaves recorded: the furthest cursor that it reached past blobs that
      fit and whose saving worked, and what was recorded before if there is none. */
  lemma RecordsExactly(call: Call, env: Environment, world: World, c: nat)
    requires ValidWorld(call, world) && WellMarked(call.source) && Valid(call, env)
    ensures var start := StartsAt(env, world);
            var recorded' := Attempt(call, env, world).1.recorded;
            && (start < c && FitUpTo(call, env, start, c) && env.managed && env.records(c) ==>
                  recorded'.Some? && c <= recorded'.value)
            && (recorded' == world.recorded
                || (&& recorded'.Some? && start < recorded'.value && FitUpTo(call, env, start, recorded'.value)
                    && env.managed && env.records(recorded'.value)))
  {
    var start := StartCursor(env, world.recorded);
    var stop := AttemptMeaning(call, env, world);
    AttemptRecords(call, env, world);
    var recorded' := Attempt(call, env, world).1.recorded;
    if recorded'.Some? && recorded'.value <= |call.source| {
      CleanExactly(call, env, start, recorded'.value);
    }
    if start < c && FitUpTo(call, env, start, c) && env.managed && env.records(c) {
      CleanExactly(call, env, start, c);
      assert forall i | start <= i < c :: Clean(call, env, i);
      assert c <= stop;
      LastSavedIsLast(env, start, stop, world.recorded, c);
    }
  }

  lemma {:induction false} LastSavedIsLast(env: Environment, start: nat, stop: nat, recorded: Option<nat>, c: nat)
    requires start < c <= stop && env.managed && env.records(c)
    ensures var saved := LastSaved(env, start, stop, recorded); saved.Some? && c <= saved.value
    decreases stop
  {
    if !env.records(stop) {
      LastSavedIsLast(env, start, stop - 1, recorded, c);
    }
  }
}
