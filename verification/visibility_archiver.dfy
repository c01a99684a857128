/** The visibility archiver as an object: it puts one object for each allowed record, and
    answers queries by listing, downloading and filtering. */
module VisibilityArchiving {
  import opened Wrappers
  import opened Configuration
  import opened Storage
  import opened Packing
  import opened VisibilityWalk
  import Keys

  /** A visibility record; times are Unix nanoseconds. */
  datatype Record = Record(
    namespaceId: string, workflowId: string, runId: string, workflowTypeName: string,
    startTime: int, executionTime: int, closeTime: int, executionDuration: int,
    status: Status, historyLength: int, memo: string, searchAttributes: string)

  // ---- Archiving ----

  /** What the surroundings do during one archival: whether the record passes validation, whether
      the put succeeds, whether errors are marked non-retryable. */
  datatype ArchivalEnvironment = ArchivalEnvironment(accepted: bool, put: bool, nonRetryable: bool)

  datatype ArchivalOutcome =
    | Uploaded
    | SkippedStatus(status: Status)
    | BadUri(error: UriError)
    | BadRequest
    | PackFailed(packError: PackError, nonRetryable: bool)
    | PutFailed

  function RecordId(uri: Uri, record: Record): ObjectId {
    ObjectId(uri.hostname, Keys.VisibilityKey(uri.path, record.namespaceId, record.runId, record.closeTime))
  }

  function ArchiveOutcome(config: Config, codec: Codec<Record>, uri: Uri, record: Record, env: ArchivalEnvironment)
    : ArchivalOutcome
  {
    if ValidateUri(uri).Some? then BadUri(ValidateUri(uri).value)
    else if !env.accepted then BadRequest
    else if !StatusAllowed(config, record.status) then SkippedStatus(record.status)
    else match Pack(codec, record)
      case Failure(error) => PackFailed(error, env.nonRetryable)
      case Success(_) => if env.put then Uploaded else PutFailed
  }

  function Archived(config: Config, codec: Codec<Record>, uri: Uri, record: Record, env: ArchivalEnvironment,
                    objects: Objects): Objects
  {
    if ArchiveOutcome(config, codec, uri, record, env).Uploaded?
    then objects[RecordId(uri, record) := Pack(codec, record).value]
    else objects
  }

  /** Exactly how an archival ends: the checks in their order, then the parts of the codec, then the
      put under the record's key. */
  ghost predicate ArchivalEnds(config: Config, codec: Codec<Record>, uri: Uri, record: Record,
                               env: ArchivalEnvironment, outcome: ArchivalOutcome, before: Objects, after: Objects)
  {
    var json := codec.encode(record);
    var key := Keys.VisibilityKey(uri.path, record.namespaceId, record.runId, record.closeTime);
    if uri.scheme != "minio" then outcome == BadUri(SchemeMismatch) && after == before
    else if uri.hostname == "" then outcome == BadUri(InvalidUri) && after == before
    else if !env.accepted then outcome == BadRequest && after == before
    else if config.allowedStatuses != {} && record.status !in config.allowedStatuses then
      outcome == SkippedStatus(record.status) && after == before
    else if json.None? then outcome == PackFailed(EncodeError, env.nonRetryable) && after == before
    else if codec.compress(json.value).None? then
      outcome == PackFailed(CompressError, env.nonRetryable) && after == before
    else if !env.put then outcome == PutFailed && after == before
    else outcome == Uploaded && after == before[ObjectId(uri.hostname, key) := codec.compress(json.value).value]
  }

  lemma ArchivalEndsExactly(config: Config, codec: Codec<Record>, uri: Uri, record: Record, env: ArchivalEnvironment,
                            objects: Objects)
    ensures ArchivalEnds(config, codec, uri, record, env, ArchiveOutcome(config, codec, uri, record, env),
                         objects, Archived(config, codec, uri, record, env, objects))
  {
  }

  // ---- Querying ----

  /** The object storage as a query sees it: the keys under the namespace prefix in listing
      order, the record behind a key if it can be downloaded and decoded, the upstream search
      attribute parser, and the listing server. A continuation token is a position. */
  datatype Bucket = Bucket(
    keys: seq<string>,
    download: string -> Option<Record>,
    parse: string -> Option<string>,
    chunk: (nat, int) -> nat,
    failure: nat -> Option<ListError>)

  function ConvertToExecutionInfo(bucket: Bucket, record: Record): Option<ExecutionInfo> {
    match bucket.parse(record.searchAttributes)
    case None => None
    case Some(attributes) =>
      Some(ExecutionInfo(record.workflowId, record.runId, record.workflowTypeName,
                         record.startTime, record.executionTime, record.closeTime, record.executionDuration,
                         record.status, record.historyLength, record.memo, attributes))
  }

  /** The record an execution info was converted from, given what the conversion drops: the
      namespace and the unparsed search attributes. */
  function RecordBehind(info: ExecutionInfo, namespaceId: string, searchAttributes: string): Record {
    Record(namespaceId, info.workflowId, info.runId, info.workflowTypeName,
           info.startTime, info.executionTime, info.closeTime, info.executionDuration,
           info.status, info.historyLength, info.memo, searchAttributes)
  }

  /** The info shows the record, field by field, with its search attributes parsed. */
  predicate Shows(bucket: Bucket, info: ExecutionInfo, record: Record) {
    && info.workflowId == record.workflowId && info.runId == record.runId
    && info.workflowTypeName == record.workflowTypeName
    && info.startTime == record.startTime && info.executionTime == record.executionTime
    && info.closeTime == record.closeTime && info.executionDuration == record.executionDuration
    && info.status == record.status && info.historyLength == record.historyLength && info.memo == record.memo
    && bucket.parse(record.searchAttributes) == Some(info.searchAttributes)
  }

  function FateOf(bucket: Bucket, filter: Option<Status>, key: string): Fate {
    match bucket.download(key)
    case None => DownloadFailed
    case Some(record) =>
      match ConvertToExecutionInfo(bucket, record)
      case None => ConversionFailed
      case Some(info) => if filter.Some? && info.status != filter.value then WrongStatus else Matching(info)
  }

  /** Exactly what becomes of an object: it matches when it downloads, its attributes parse and its
      status is wanted, and it is then shown as it is stored. */
  lemma FateExactly(bucket: Bucket, filter: Option<Status>, key: string)
    ensures var fate, download := FateOf(bucket, filter, key), bucket.download(key);
            && (fate.DownloadFailed? <==> download.None?)
            && (fate.ConversionFailed? <==> download.Some? && bucket.parse(download.value.searchAttributes).None?)
            && (fate.WrongStatus? <==>
                  && download.Some? && bucket.parse(download.value.searchAttributes).Some?
                  && filter.Some? && filter.value != download.value.status)
            && (fate.Matching? <==>
                  && download.Some? && bucket.parse(download.value.searchAttributes).Some?
                  && (filter.None? || filter.value == download.value.status))
            && (fate.Matching? ==> Shows(bucket, fate.info, download.value))
  {
  }

  /** `feed` is the bucket's listing by the fates of its objects. */
  ghost predicate Mirrors(feed: Feed, bucket: Bucket, filter: Option<Status>) {
    && |feed.fates| == |bucket.keys| && feed.chunk == bucket.chunk && feed.failure == bucket.failure
    && forall i | 0 <= i < |bucket.keys| :: feed.fates[i] == FateOf(bucket, filter, bucket.keys[i])
  }

  function FeedOf(bucket: Bucket, filter: Option<Status>): (feed: Feed)
    ensures Mirrors(feed, bucket, filter)
  {
    Feed(seq(|bucket.keys|, i requires 0 <= i < |bucket.keys| => FateOf(bucket, filter, bucket.keys[i])),
         bucket.chunk, bucket.failure)
  }

  datatype Listing = Listing(contents: seq<string>, isTruncated: bool, nextToken: nat)

  /** A listing call. A token beyond the listing finds nothing. */
  function ListObjects(bucket: Bucket, maxKeys: int, token: Option<nat>): (r: Result<Listing, ListError>)
    requires maxKeys >= 1
  {
    var from := Position(bucket, token);
    match bucket.failure(from)
    case Some(error) => Failure(error)
    case None =>
      var end := BatchEnd(|bucket.keys|, bucket.chunk, from, maxKeys);
      Success(Listing(bucket.keys[from..end], end < |bucket.keys|, end))
  }

  function Position(bucket: Bucket, token: Option<nat>): (p: nat)
    ensures p <= |bucket.keys|
  {
    if token.None? then 0 else if token.value <= |bucket.keys| then token.value else |bucket.keys|
  }

  /** Conversion to a 32-bit integer keeps the low 32 bits. */
  function Int32(x: int): int {
    (x + 0x8000_0000) % 0x1_0000_0000 - 0x8000_0000
  }

  /** Listing batches are scaled from the page size, in 32-bit arithmetic, and never smaller than 50. */
  function BatchSize(pageSize: int, filtered: bool): (size: int)
    ensures size >= 50
  {
    var size := Int32(if filtered then pageSize * 5 else pageSize * 2);
    if size < 50 then 50 else size
  }

  /** Twice the page size, five times with a filter, and at least 50, as long as that fits 32 bits. */
  lemma BatchSizeExactly(pageSize: int, filtered: bool)
    requires pageSize >= 0
    ensures var wanted := if filtered then 5 * pageSize else 2 * pageSize;
            && (wanted < 50 ==> BatchSize(pageSize, filtered) == 50)
            && (50 <= wanted < 0x8000_0000 ==> BatchSize(pageSize, filtered) == wanted)
            && (BatchSize(pageSize, filtered) == 50
                || (BatchSize(pageSize, filtered) < 0x8000_0000
                    && (wanted - BatchSize(pageSize, filtered)) % 0x1_0000_0000 == 0))
  {
    var wanted := if filtered then 5 * pageSize else 2 * pageSize;
    assert wanted == if filtered then pageSize * 5 else pageSize * 2;
    assert (wanted - Int32(wanted)) % 0x1_0000_0000 == 0;
  }

  /** The status clause of a query: the name between the quotes, if the query has such a clause. */
  function ParseStatusFilter(clause: Option<string>): Result<Option<Status>, string> {
    match clause
    case None => Success(None)
    case Some(name) =>
      match StatusByName(name)
      case None => Failure(name)
      case Some(status) => Success(Some(status))
  }

  /** A clause is accepted exactly when it names a status as an allowlist does: unlike the rest of
      the clause, the name is case-sensitive. */
  lemma FilterNames(name: string)
    ensures forall status :: ParseStatusFilter(Some(name)) == Success(Some(status)) <==> StatusText(name, status)
    ensures ParseStatusFilter(Some(name)).Success? <==> exists status :: StatusText(name, status)
    ensures ParseStatusFilter(Some(name)).Failure? ==> ParseStatusFilter(Some(name)).error == name
    ensures ParseStatusFilter(Some("failed")) == Failure("failed")
  {
    assert "failed"[0] == 'f';
    if status :| StatusByName(name) == Some(status) {
      assert StatusText(name, status);
    }
  }

  datatype QueryResponse = QueryResponse(executions: seq<ExecutionInfo>, nextPageToken: Option<nat>)

  datatype QueryError =
    InvalidUriArgument | InvalidQuery | UnknownStatusName(name: string) | ListFailed(error: ListError)

  /** `r` is the answer of the call at `position`: its page with its token, or its listing error. */
  ghost predicate Answers(feed: Feed, pageSize: nat, maxKeys: int, position: nat, r: Result<QueryResponse, QueryError>)
    requires position <= |feed.fates| && maxKeys >= 1 && pageSize >= 1
  {
    match CallFrom(feed, pageSize, maxKeys, position, position)
    case Failure(error) => r == Failure(ListFailed(error))
    case Success(call) =>
      call.fill <= |feed.fates| && r == Success(QueryResponse(PageOf(feed, call), NextToken(feed, call)))
  }

  /** The query has no status clause, or one that names a status. */
  ghost predicate GoodClause(clause: Option<string>) {
    clause.Some? ==> exists status :: StatusText(clause.value, status)
  }

  /** An object listed from `from` on holds a record that the info shows, with the status that the
      query asks for. */
  ghost predicate Wanted(bucket: Bucket, clause: Option<string>, from: nat, info: ExecutionInfo) {
    && (clause.Some? ==> StatusText(clause.value, info.status))
    && exists i | from <= i < |bucket.keys| ::
         bucket.download(bucket.keys[i]).Some? && Shows(bucket, info, bucket.download(bucket.keys[i]).value)
  }

  ghost predicate AllWanted(bucket: Bucket, clause: Option<string>, from: nat, infos: seq<ExecutionInfo>) {
    forall info | info in infos :: Wanted(bucket, clause, from, info)
  }

  lemma {:induction false} FoundAreWanted(bucket: Bucket, filter: Option<Status>, clause: Option<string>,
                                          fates: seq<Fate>, low: nat, high: nat)
    requires ParseStatusFilter(clause) == Success(filter) && high <= |fates| == |bucket.keys|
    requires forall i | 0 <= i < |fates| :: fates[i] == FateOf(bucket, filter, bucket.keys[i])
    ensures AllWanted(bucket, clause, low, Found(fates, low, high))
    decreases high
  {
    if low < high {
      FoundAreWanted(bucket, filter, clause, fates, low, high - 1);
      FateExactly(bucket, filter, bucket.keys[high - 1]);
      if clause.Some? && filter.Some? {
        FilterNames(clause.value);
      }
    }
  }

  lemma AnswersAreWanted(bucket: Bucket, clause: Option<string>, filter: Option<Status>, pageSize: nat, maxKeys: int,
                         token: Option<nat>)
    requires ParseStatusFilter(clause) == Success(filter) && pageSize >= 1 && maxKeys >= 1
    ensures forall r | Answers(FeedOf(bucket, filter), pageSize, maxKeys, Position(bucket, token), r) && r.Success? ::
              AllWanted(bucket, clause, if token.Some? then token.value else 0, r.value.executions)
  {
    var feed := FeedOf(bucket, filter);
    var from := Position(bucket, token);
    var call := CallFrom(feed, pageSize, maxKeys, from, from);
    if call.Success? && call.value.fill <= |feed.fates| {
      CallFromFits(feed, pageSize, maxKeys, from, from);
      FoundAreWanted(bucket, filter, clause, feed.fates, from, call.value.fill);
    }
  }

  /** Listing fails exactly at the position that a call reaches where the server fails. */
  lemma {:induction false} FailureExactly(feed: Feed, pageSize: nat, maxKeys: int, start: nat, from: nat)
    requires start <= from <= |feed.fates| && maxKeys >= 1
    requires |Found(feed.fates, start, from)| < pageSize
    ensures feed.failure(from).Some? ==>
              CallFrom(feed, pageSize, maxKeys, start, from) == Failure(feed.failure(from).value)
    ensures CallFrom(feed, pageSize, maxKeys, start, from).Failure? ==>
              exists p | from <= p <= |feed.fates| ::
                feed.failure(p) == Some(CallFrom(feed, pageSize, maxKeys, start, from).error)
    decreases |feed.fates| - from
  {
    if feed.failure(from).None? {
      var call := Round(feed, pageSize, maxKeys, start, from);
      if !Complete(feed, pageSize, call) {
        FailureExactly(feed, pageSize, maxKeys, start, call.end);
      }
    }
  }

  class VisibilityArchiver {
    const config: Config
    const codec: Codec<Record>
    const store: ObjectStore

    constructor (config: Config, codec: Codec<Record>, store: ObjectStore)
      ensures this.config == config && this.codec == codec && this.store == store
    {
      this.config := config;
      this.codec := codec;
      this.store := store;
    }

    method Archive(uri: Uri, record: Record, env: ArchivalEnvironment) returns (outcome: ArchivalOutcome)
      modifies store
      ensures outcome == ArchiveOutcome(config, codec, uri, record, env)
      ensures store.objects == Archived(config, codec, uri, record, env, old(store.objects))
      ensures ArchivalEnds(config, codec, uri, record, env, outcome, old(store.objects), store.objects)
    {
      ArchivalEndsExactly(config, codec, uri, record, env, store.objects);
      var uriError := ValidateUri(uri);
      if uriError.Some? {
        return BadUri(uriError.value);
      }
      if !env.accepted {
        return BadRequest;
      }
      if !StatusAllowed(config, record.status) {
        return SkippedStatus(record.status);
      }
      var packed := Pack(codec, record);
      if packed.Failure? {
        return PackFailed(packed.error, env.nonRetryable);
      }
      var key := Keys.VisibilityKey(uri.path, record.namespaceId, record.runId, record.closeTime);
      store.PutObject(ObjectId(uri.hostname, key), packed.value, env.put);
      outcome := if env.put then Uploaded else PutFailed;
    }

    /** One query call. It answers with the page and the token of `CallFrom` at its position; a
        page size below one gives an empty page. Whatever it answers with is wanted. */
    method Query(bucket: Bucket, uri: Uri, accepted: bool, clause: Option<string>, pageSize: int, token: Option<nat>)
      returns (r: Result<QueryResponse, QueryError>)
      ensures uri.scheme != "minio" || uri.hostname == "" <==> r == Failure(InvalidUriArgument)
      ensures uri.scheme == "minio" && uri.hostname != "" && !accepted <==> r == Failure(InvalidQuery)
      ensures uri.scheme == "minio" && uri.hostname != "" && accepted ==>
                if !GoodClause(clause) then r == Failure(UnknownStatusName(clause.value))
                else if pageSize < 1 then r == Success(QueryResponse([], None))
                else
                  ParseStatusFilter(clause).Success? &&
                  var filter := ParseStatusFilter(clause).value;
                  Answers(FeedOf(bucket, filter), pageSize, BatchSize(pageSize, filter.Some?),
                          Position(bucket, token), r)
      ensures r.Success? ==>
                AllWanted(bucket, clause, if token.Some? then token.value else 0, r.value.executions)
    {
      if ValidateUri(uri).Some? {
        return Failure(InvalidUriArgument);
      }
      if !accepted {
        return Failure(InvalidQuery);
      }
      var parsed := ParseStatusFilter(clause);
      if parsed.Failure? {
        return Failure(UnknownStatusName(parsed.error));
      }
      if pageSize < 1 {
        return Success(QueryResponse([], None));
      }
      ghost var feed := FeedOf(bucket, parsed.value);
      AnswersAreWanted(bucket, clause, parsed.value, pageSize, BatchSize(pageSize, parsed.value.Some?), token);
      r := ReadBatches(bucket, parsed.value, pageSize, BatchSize(pageSize, parsed.value.Some?), token, feed);
    }

    /** The loop over listing batches. */
    method ReadBatches(bucket: Bucket, filter: Option<Status>, pageSize: nat, batchSize: int, token: Option<nat>,
                       ghost feed: Feed)
      returns (r: Result<QueryResponse, QueryError>)
      requires pageSize >= 1 && batchSize >= 1 && Mirrors(feed, bucket, filter)
      ensures Answers(feed, pageSize, batchSize, Position(bucket, token), r)
    {
      var continuation := token;
      var executions: seq<ExecutionInfo> := [];
      var lastListing := Listing([], false, 0);

      ghost var start := Position(bucket, token);
      ghost var goal := CallFrom(feed, pageSize, batchSize, start, start);
      ghost var call := QueryCall(start, start, start);

      while |executions| < pageSize
        invariant call.start == start <= call.fill <= call.end <= |feed.fates| && |executions| <= pageSize
        invariant executions == PageOf(feed, call)
        invariant |executions| < pageSize ==>
                    call.fill == call.end == Position(bucket, continuation)
                    && goal == CallFrom(feed, pageSize, batchSize, start, call.end)
        invariant |executions| == pageSize ==>
                    goal == Success(call) && call.end < |feed.fates|
                    && lastListing.isTruncated && lastListing.nextToken == call.end
        decreases |feed.fates| - call.end, pageSize - |executions|
      {
        var listed := ListObjects(bucket, batchSize, continuation);
        if listed.Failure? {
          return Failure(ListFailed(listed.error));
        }
        lastListing := listed.value;
        executions :=
          ReadBatch(bucket, filter, pageSize, batchSize, lastListing.contents, executions, feed, start, call.end);
        call := Round(feed, pageSize, batchSize, start, call.end);
        if !lastListing.isTruncated {
          break;
        }
        continuation := Some(lastListing.nextToken);
      }
      r := Success(QueryResponse(executions, if lastListing.isTruncated then Some(lastListing.nextToken) else None));
    }

    /** One round: what the batch listed at `from` adds to the page. */
    method ReadBatch(bucket: Bucket, filter: Option<Status>, pageSize: nat, ghost batchSize: int, contents: seq<string>,
                     executions: seq<ExecutionInfo>, ghost feed: Feed, ghost start: nat, ghost from: nat)
      returns (filled: seq<ExecutionInfo>)
      requires start <= from <= |bucket.keys| && batchSize >= 1 && Mirrors(feed, bucket, filter)
      requires contents == bucket.keys[from..BatchEnd(|bucket.keys|, bucket.chunk, from, batchSize)]
      requires executions == Found(feed.fates, start, from) && |executions| < pageSize
      ensures filled == PageOf(feed, Round(feed, pageSize, batchSize, start, from))
    {
      filled := FillPage(bucket, filter, pageSize, contents, executions, feed.fates, start, from);
    }

    /** The inner loop over one listing batch, which stands at `from` in the listing. */
    method FillPage(bucket: Bucket, filter: Option<Status>, pageSize: nat, contents: seq<string>,
                    executions: seq<ExecutionInfo>, ghost fates: seq<Fate>, ghost start: nat, ghost from: nat)
      returns (filled: seq<ExecutionInfo>)
      requires start <= from && from + |contents| <= |fates| && |executions| <= pageSize
      requires forall i | 0 <= i < |contents| :: fates[from + i] == FateOf(bucket, filter, contents[i])
      requires executions == Found(fates, start, from)
      ensures filled == Found(fates, start, FillPoint(fates, from, from + |contents|, pageSize - |executions|))
    {
      ghost var fill := FillPoint(fates, from, from + |contents|, pageSize - |executions|);
      filled := executions;
      for i := 0 to |contents|
        invariant |filled| <= pageSize && filled == Found(fates, start, from + i)
        invariant fill == FillPoint(fates, from + i, from + |contents|, pageSize - |filled|)
      {
        if |filled| >= pageSize {
          break;
        }
        var info := ReadRecord(bucket, filter, contents[i]);
        assert fates[from + i] == FateOf(bucket, filter, contents[i]);
        if info.Some? {
          filled := filled + [info.value];
        }
      }
    }

    /** Downloads, converts and filters one object; anything but a match is skipped. */
    method ReadRecord(bucket: Bucket, filter: Option<Status>, key: string) returns (info: Option<ExecutionInfo>)
      ensures FateOf(bucket, filter, key).Matching? <==> info.Some?
      ensures info.Some? ==> FateOf(bucket, filter, key) == Matching(info.value)
      ensures info.Some? <==>
                var download := bucket.download(key);
                && download.Some? && bucket.parse(download.value.searchAttributes).Some?
                && (filter.None? || filter.value == download.value.status)
      ensures info.Some? ==> Shows(bucket, info.value, bucket.download(key).value)
    {
      var record := bucket.download(key);
      if record.None? {
        return None;
      }
      info := ConvertToExecutionInfo(bucket, record.value);
      if info.Some? && filter.Some? && info.value.status != filter.value {
        info := None;
      }
    }
  }
}
