/** The history archiver as an object: it drives an iterator, heartbeats progress and puts one
    object. Its `Archive` method is proved to be `ArchiveAttempt.Attempt`. */
module HistoryArchiving {
  import opened Wrappers
  import opened Configuration
  import opened Storage
  import opened Packing
  import opened Histories
  import opened ArchiveAttempt
  import Keys

  /** Keeps the heartbeat state that a later attempt of the same activity can load. */
  class ProgressManager {
    var recorded: Option<nat>

    constructor ()
      ensures recorded == None
    {
      recorded := None;
    }

    method RecordProgress(state: nat, succeeds: bool)
      modifies this
      ensures recorded == if succeeds then Some(state) else old(recorded)
    {
      if succeeds {
        recorded := Some(state);
      }
    }
  }

  /** The upstream iterator: a cursor over the blobs of one history. */
  class HistoryIterator {
    const source: seq<Blob>
    var cursor: nat

    ghost predicate Valid()
      reads this
    {
      cursor <= |source|
    }

    constructor (source: seq<Blob>)
      ensures Valid() && this.source == source && cursor == 0
    {
      this.source := source;
      cursor := 0;
    }

    constructor FromState(source: seq<Blob>, state: nat)
      requires state <= |source|
      ensures Valid() && this.source == source && cursor == state
    {
      this.source := source;
      cursor := state;
    }

    predicate HasNext()
      reads this
    {
      cursor < |source|
    }

    /** Delivers the blob at the cursor and moves on, or fails and stays. */
    method Next(outcome: ReadOutcome) returns (r: Result<Blob, ReadOutcome>)
      requires Valid() && HasNext()
      modifies this
      ensures Valid()
      ensures outcome.Delivered? ==> r == Success(source[old(cursor)]) && cursor == old(cursor) + 1
      ensures !outcome.Delivered? ==> r == Failure(outcome) && cursor == old(cursor)
    {
      if outcome.Delivered? {
        r := Success(source[cursor]);
        cursor := cursor + 1;
      } else {
        r := Failure(outcome);
      }
    }
  }

  class HistoryArchiver {
    const config: Config
    const codec: Codec<seq<Batch>>
    const store: ObjectStore

    constructor (config: Config, codec: Codec<seq<Batch>>, store: ObjectStore)
      ensures this.config == config && this.codec == codec && this.store == store
    {
      this.config := config;
      this.codec := codec;
      this.store := store;
    }

    /** Restores the iterator from recorded progress where that works, and starts afresh otherwise. */
    method BuildIterator(source: seq<Blob>, progress: ProgressManager?, env: Environment)
      returns (iter: HistoryIterator)
      requires env.managed <==> progress != null
      requires progress != null && progress.recorded.Some? ==> progress.recorded.value <= |source|
      ensures fresh(iter) && iter.Valid() && iter.source == source
      ensures iter.cursor == StartCursor(env, if progress == null then None else progress.recorded)
    {
      if progress != null && progress.recorded.Some? {
        if env.loads && env.restores {
          iter := new HistoryIterator.FromState(source, progress.recorded.value);
          return;
        }
      }
      iter := new HistoryIterator(source);
    }

    method Upload(uri: Uri, request: HistoryRequest, batches: seq<Batch>, env: Environment) returns (outcome: Outcome)
      modifies store
      ensures var call := Call(uri, request, [], config, codec);
              && outcome == UploadOutcome(call, env, batches)
              && store.objects == (if outcome.Uploaded?
                                   then old(store.objects)[HistoryId(call) := Pack(codec, batches).value]
                                   else old(store.objects))
    {
      var packed := Pack(codec, batches);
      if packed.Failure? {
        return PackFailed(packed.error, env.nonRetryable);
      }
      var key := Keys.HistoryKey(uri.path, request.namespaceId, request.workflowId, request.runId,
                                 request.closeFailoverVersion);
      store.PutObject(ObjectId(uri.hostname, key), packed.value, env.put);
      outcome := if env.put then Uploaded else PutFailed;
    }

    /** Archives the history that `source` delivers. */
    method Archive(uri: Uri, request: HistoryRequest, source: seq<Blob>, progress: ProgressManager?, env: Environment)
      returns (outcome: Outcome)
      requires env.managed <==> progress != null
      requires progress != null && progress.recorded.Some? ==> progress.recorded.value <= |source|
      modifies store, progress
      ensures var call := Call(uri, request, source, config, codec);
              var before := World(if progress == null then None else old(progress.recorded), old(store.objects));
              var after := World(if progress == null then None else progress.recorded, store.objects);
              (outcome, after) == Attempt(call, env, before)
    {
      var uriError := ValidateUri(uri);
      if uriError.Some? {
        return BadUri(uriError.value);
      }
      if !env.accepted {
        return BadRequest;
      }
      var iter := BuildIterator(source, progress, env);
      var allHistories: seq<Batch> := [];
      ghost var call := Call(uri, request, source, config, codec);
      ghost var scan := ScanFrom(call, env, iter.cursor, if progress == null then None else progress.recorded, []);
      while iter.HasNext()
        invariant iter.Valid() && iter.source == source
        invariant progress != null && progress.recorded.Some? ==> progress.recorded.value <= |source|
        invariant store.objects == old(store.objects)
        invariant scan == ScanFrom(call, env, iter.cursor,
                                   if progress == null then None else progress.recorded, allHistories)
        decreases |source| - iter.cursor
      {
        var next := iter.Next(env.read(iter.cursor));
        if next.Failure? {
          return if next.error.NotFound? then SkippedNotFound else ReadFailed;
        }
        var blob := next.value;
        if HistoryMutated(request, blob.body, blob.isLast) {
          return Mutated;
        }
        allHistories := allHistories + blob.body;
        if progress != null {
          progress.RecordProgress(iter.cursor, env.records(iter.cursor));
        }
        if blob.isLast {
          var status := TerminalStatus(blob);
          if status.Some? && !StatusAllowed(config, status.value) {
            return SkippedStatus(status.value);
          }
          outcome := Upload(uri, request, allHistories, env);
          return;
        }
      }
      outcome := NothingLeft;
    }
  }
}
