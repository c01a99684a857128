/** A reader of archived visibility: the loop that repeats a query with the token of the answer
    before, and what it gets of an unfiltered listing. */
module VisibilityClient {
  import opened Wrappers
  import opened Configuration
  import opened Storage
  import opened Packing
  import opened VisibilityWalk
  import opened VisibilityBatches
  import opened VisibilityArchiving
  import opened VisibilityOrder
  import Keys
  import Text

  /** What a walk from a position comes to: its listing error, or its pages one after the other. */
  ghost function WalkAnswer(feed: Feed, pageSize: nat, maxKeys: int, from: nat): Result<seq<ExecutionInfo>, QueryError>
    requires from <= |feed.fates| && maxKeys >= 1 && pageSize >= 1
  {
    match Walk(feed, pageSize, maxKeys, from)
    case Failure(error) => Failure(ListFailed(error))
    case Success(calls) =>
      WalkChained(feed, pageSize, maxKeys, from);
      Success(Collected(feed.fates, pageSize, calls, from))
  }

  function Prepend(executions: seq<ExecutionInfo>, rest: Result<seq<ExecutionInfo>, QueryError>)
    : Result<seq<ExecutionInfo>, QueryError>
  {
    match rest
    case Failure(error) => Failure(error)
    case Success(more) => Success(executions + more)
  }

  lemma PrependNothing(rest: Result<seq<ExecutionInfo>, QueryError>)
    ensures Prepend([], rest) == rest
  {
    if rest.Success? {
      assert [] + rest.value == rest.value;
    }
  }

  lemma PrependTwice(a: seq<ExecutionInfo>, b: seq<ExecutionInfo>, rest: Result<seq<ExecutionInfo>, QueryError>)
    ensures Prepend(a, Prepend(b, rest)) == Prepend(a + b, rest)
  {
    if rest.Success? {
      assert a + (b + rest.value) == (a + b) + rest.value;
    }
  }

  lemma CollectedStep(fates: seq<Fate>, pageSize: nat, call: QueryCall, rest: seq<QueryCall>, from: nat)
    requires Chained(fates, pageSize, [call] + rest, from) && Chained(fates, pageSize, rest, call.end)
    ensures Collected(fates, pageSize, [call] + rest, from)
            == Found(fates, from, call.fill) + Collected(fates, pageSize, rest, call.end)
  {
    assert ([call] + rest)[1..] == rest;
  }

  /** A walk is its first call and then the walk from the token of that call. */
  lemma WalkStep(feed: Feed, pageSize: nat, maxKeys: int, from: nat, call: QueryCall)
    requires from <= |feed.fates| && maxKeys >= 1 && pageSize >= 1
    requires CallFrom(feed, pageSize, maxKeys, from, from) == Success(call)
    ensures call.start == from && from <= call.end && call.fill <= call.end <= |feed.fates|
    ensures from < |feed.fates| ==> from < call.end
    ensures WalkAnswer(feed, pageSize, maxKeys, from) ==
            if call.end < |feed.fates| then Prepend(PageOf(feed, call), WalkAnswer(feed, pageSize, maxKeys, call.end))
            else Success(PageOf(feed, call))
  {
    CallFromFits(feed, pageSize, maxKeys, from, from);
    if call.end < |feed.fates| {
      var rest := Walk(feed, pageSize, maxKeys, call.end);
      if rest.Success? {
        WalkChained(feed, pageSize, maxKeys, from);
        WalkChained(feed, pageSize, maxKeys, call.end);
        CollectedStep(feed.fates, pageSize, call, rest.value, from);
        assert Walk(feed, pageSize, maxKeys, from) == Success([call] + rest.value);
      }
    } else {
      WalkChained(feed, pageSize, maxKeys, from);
      assert PageOf(feed, call) + [] == PageOf(feed, call);
    }
  }

  /** Reads everything a query yields, following its tokens to the end. */
  method QueryAll(archiver: VisibilityArchiver, bucket: Bucket, uri: Uri, accepted: bool, clause: Option<string>,
                  pageSize: int)
    returns (r: Result<seq<ExecutionInfo>, QueryError>)
    ensures uri.scheme != "minio" || uri.hostname == "" <==> r == Failure(InvalidUriArgument)
    ensures uri.scheme == "minio" && uri.hostname != "" && !accepted <==> r == Failure(InvalidQuery)
    ensures uri.scheme == "minio" && uri.hostname != "" && accepted ==>
              if !GoodClause(clause) then r == Failure(UnknownStatusName(clause.value))
              else if pageSize < 1 then r == Success([])
              else
                ParseStatusFilter(clause).Success? &&
                var filter := ParseStatusFilter(clause).value;
                r == WalkAnswer(FeedOf(bucket, filter), pageSize, BatchSize(pageSize, filter.Some?), 0)
    ensures r.Success? ==> AllWanted(bucket, clause, 0, r.value)
  {
    var collected: seq<ExecutionInfo> := [];
    var token: Option<nat> := None;
    if clause.Some? {
      FilterNames(clause.value);
    }
    ghost var valid := ValidateUri(uri).None? && accepted && ParseStatusFilter(clause).Success? && pageSize >= 1;
    ghost var filter := if valid then ParseStatusFilter(clause).value else None;
    ghost var feed, maxKeys := FeedOf(bucket, filter), BatchSize(pageSize, filter.Some?);
    if valid {
      PrependNothing(WalkAnswer(feed, pageSize, maxKeys, 0));
    }
    while true
      invariant !valid ==> collected == []
      invariant AllWanted(bucket, clause, 0, collected)
      invariant valid ==>
                  WalkAnswer(feed, pageSize, maxKeys, 0)
                  == Prepend(collected, WalkAnswer(feed, pageSize, maxKeys, Position(bucket, token)))
      invariant token.Some? ==> token.value < |bucket.keys|
      decreases |bucket.keys| - Position(bucket, token), token.None?
    {
      ghost var position := Position(bucket, token);
      var answer := archiver.Query(bucket, uri, accepted, clause, pageSize, token);
      if answer.Failure? {
        return Failure(answer.error);
      }
      if valid {
        ghost var call := CallFrom(feed, pageSize, maxKeys, position, position).value;
        WalkStep(feed, pageSize, maxKeys, position, call);
        PrependTwice(collected, PageOf(feed, call), WalkAnswer(feed, pageSize, maxKeys, call.end));
      }
      collected := collected + answer.value.executions;
      assert !valid ==> collected == [];
      if answer.value.nextPageToken.None? {
        return Success(collected);
      }
      token := answer.value.nextPageToken;
    }
  }

  // ---- Unfiltered listings ----

  /** Every listed object can be downloaded and converted. */
  ghost predicate AllReadable(bucket: Bucket) {
    forall key | key in bucket.keys ::
      bucket.download(key).Some? && bucket.parse(bucket.download(key).value.searchAttributes).Some?
  }

  lemma ReadableAllMatch(bucket: Bucket)
    requires AllReadable(bucket)
    ensures AllMatching(FeedOf(bucket, None).fates)
  {
    forall i | 0 <= i < |bucket.keys|
      ensures FeedOf(bucket, None).fates[i].Matching?
    {
      assert bucket.keys[i] in bucket.keys;
    }
  }

  /** The batches of an unfiltered query are larger than its page, for pages below 2^30. */
  lemma BatchExceedsPage(pageSize: int)
    requires 1 <= pageSize < 0x4000_0000
    ensures pageSize < BatchSize(pageSize, false)
  {
  }

  /** How many keys a server lists that is asked for `maxKeys` and never lists more than `cap`. */
  function Capped(maxKeys: int, cap: int): int {
    if cap < maxKeys then cap else maxKeys
  }

  /** What a walk over readable objects returns without a filter, when the server fills its
      batches up to a cap: of the batches that one page consumes, the first `pageSize` objects. */
  lemma ReadablePositions(bucket: Bucket, pageSize: nat, cap: int, p: nat)
    requires AllReadable(bucket) && pageSize >= 1
    requires var maxKeys := BatchSize(pageSize, false);
             FillsBatches(FeedOf(bucket, None), maxKeys, Capped(maxKeys, cap))
    requires Walk(FeedOf(bucket, None), pageSize, BatchSize(pageSize, false), 0).Success?
    ensures var feed, maxKeys := FeedOf(bucket, None), BatchSize(pageSize, false);
            var calls := Walk(feed, pageSize, maxKeys, 0).value;
            && Chained(feed.fates, pageSize, calls, 0)
            && (p in CollectedPositions(feed.fates, pageSize, calls, 0)
                <==> p < |bucket.keys| && p % Span(Capped(maxKeys, cap), pageSize, 0) < pageSize)
  {
    var feed, maxKeys := FeedOf(bucket, None), BatchSize(pageSize, false);
    ReadableAllMatch(bucket);
    WalkOfFullBatches(feed, pageSize, maxKeys, Capped(maxKeys, cap), p);
  }

  /** Exactly when such a walk is complete: when there is no more than one page to return, or the
      page size is a multiple of the number of keys listed at once. */
  lemma ReadableCompleteExactly(bucket: Bucket, pageSize: nat, cap: int)
    requires AllReadable(bucket) && pageSize >= 1
    requires var maxKeys := BatchSize(pageSize, false);
             FillsBatches(FeedOf(bucket, None), maxKeys, Capped(maxKeys, cap))
    requires Walk(FeedOf(bucket, None), pageSize, BatchSize(pageSize, false), 0).Success?
    ensures var feed, maxKeys := FeedOf(bucket, None), BatchSize(pageSize, false);
            var calls := Walk(feed, pageSize, maxKeys, 0).value;
            && Chained(feed.fates, pageSize, calls, 0)
            && (Collected(feed.fates, pageSize, calls, 0) == Found(feed.fates, 0, |feed.fates|)
                <==> |bucket.keys| <= pageSize || pageSize % Capped(maxKeys, cap) == 0)
  {
    var feed, maxKeys := FeedOf(bucket, None), BatchSize(pageSize, false);
    var size := Capped(maxKeys, cap);
    ReadableAllMatch(bucket);
    WalkCompleteExactly(feed, pageSize, maxKeys);
    FullBatchesStraddle(feed, pageSize, maxKeys, size, 0, 0, Span(size, pageSize, 0));
    SpanExactly(size, pageSize);
  }

  lemma MultipleOfCapped(pageSize: nat, cap: int)
    requires 1 <= pageSize < 0x4000_0000 && cap >= 1
    ensures pageSize % Capped(BatchSize(pageSize, false), cap) == 0 <==> pageSize % cap == 0
  {
    var maxKeys := BatchSize(pageSize, false);
    BatchExceedsPage(pageSize);
    SmallRemainder(pageSize, maxKeys);
    SmallRemainder(pageSize, cap);
  }

  lemma SmallRemainder(n: nat, m: int)
    requires m >= 1
    ensures n < m ==> n % m == n
  {
  }

  /** Below 2^30 only multiples of the server's cap, 1000 for S3, give complete walks over more
      than a page. */
  lemma ReadableCompleteByCap(bucket: Bucket, pageSize: nat, cap: int)
    requires AllReadable(bucket) && 1 <= pageSize < 0x4000_0000 && cap >= 1
    requires var maxKeys := BatchSize(pageSize, false);
             FillsBatches(FeedOf(bucket, None), maxKeys, Capped(maxKeys, cap))
    requires Walk(FeedOf(bucket, None), pageSize, BatchSize(pageSize, false), 0).Success?
    ensures var feed := FeedOf(bucket, None);
            var calls := Walk(feed, pageSize, BatchSize(pageSize, false), 0).value;
            && Chained(feed.fates, pageSize, calls, 0)
            && (Collected(feed.fates, pageSize, calls, 0) == Found(feed.fates, 0, |feed.fates|)
                <==> |bucket.keys| <= pageSize || pageSize % cap == 0)
  {
    ReadableCompleteExactly(bucket, pageSize, cap);
    MultipleOfCapped(pageSize, cap);
  }

  // ---- From archivals to query results ----

  /** A findable record is in what a reader gets exactly when its listing position is served. */
  lemma FindableIsReturned(bucket: Bucket, codec: Codec<Record>, uri: Uri, objects: Objects, record: Record,
                           filter: Option<Status>, pageSize: nat, maxKeys: int)
    returns (position: nat)
    requires '/' !in record.namespaceId && KeyedUnder(codec, uri, record.namespaceId, objects)
    requires Lists(bucket, codec, uri, record.namespaceId, objects)
    requires Findable(bucket, codec, uri, objects, record, filter) && maxKeys >= 1 && pageSize >= 1
    ensures position < |bucket.keys| && bucket.keys[position] == RecordId(uri, record).key
    ensures var feed := FeedOf(bucket, filter);
            var answer := WalkAnswer(feed, pageSize, maxKeys, 0);
            answer.Success? ==>
              (Returned(answer.value, record) <==> position in Served(feed, pageSize, maxKeys, 0, 0))
  {
    position := FindableIsListed(bucket, codec, uri, objects, record, filter);
    if Walk(FeedOf(bucket, filter), pageSize, maxKeys, 0).Success? {
      position := FindableIsFound(bucket, codec, uri, objects, record, filter, pageSize, maxKeys);
    }
  }

  /** End to end: of the archived records that were not overwritten and can be read, a reader who
      follows the tokens gets exactly those whose listing position is served. */
  lemma ArchivedIsReturnedExactly(config: Config, codec: Codec<Record>, uri: Uri, items: seq<Archival>,
                                  objects: Objects, k: nat, bucket: Bucket, filter: Option<Status>, pageSize: nat)
    returns (position: nat)
    requires k < |items| && Invertible(codec) && pageSize >= 1
    requires Survives(config, codec, uri, items, k, RecordId(uri, items[k].record))
    requires forall i | 0 <= i < |items| :: SlashFreeArchival(config, codec, uri, items[i])
    requires KeyedUnder(codec, uri, items[k].record.namespaceId, objects)
    requires Lists(bucket, codec, uri, items[k].record.namespaceId, ArchiveAll(config, codec, uri, items, objects))
    requires Readable(bucket, uri, items[k].record, filter)
    ensures position < |bucket.keys| && bucket.keys[position] == RecordId(uri, items[k].record).key
    ensures var feed, maxKeys := FeedOf(bucket, filter), BatchSize(pageSize, filter.Some?);
            var answer := WalkAnswer(feed, pageSize, maxKeys, 0);
            answer.Success? ==>
              (Returned(answer.value, items[k].record) <==> position in Served(feed, pageSize, maxKeys, 0, 0))
  {
    var record := items[k].record;
    assert SlashFreeArchival(config, codec, uri, items[k]);
    ArchivedIsFindable(config, codec, uri, items, objects, k, bucket, filter);
    ArchivalsKeepRegular(config, codec, uri, record.namespaceId, items, objects);
    position := FindableIsReturned(bucket, codec, uri, ArchiveAll(config, codec, uri, items, objects), record, filter,
                                   pageSize, BatchSize(pageSize, filter.Some?));
  }

  // ---- A record that is archived and never returned ----

  /** The listing of two readable records, from a server that fills its batches and never fails. */
  function TwoRecords(uri: Uri, a: Record, b: Record): Bucket {
    var first, second := RecordId(uri, a).key, RecordId(uri, b).key;
    Bucket([first, second],
           key => if key == first then Some(a) else if key == second then Some(b) else None,
           attributes => Some(attributes), (from, wanted) => if wanted < 0 then 0 else wanted, from => None)
  }

  /** Two records of one namespace, the second of which closed later, in the span of ordered keys. */
  predicate EarlierAndLater(a: Record, b: Record) {
    && a.namespaceId == b.namespaceId && '/' !in a.namespaceId
    && ClosedInSpan(a) && ClosedInSpan(b) && a.closeTime < b.closeTime
  }

  ghost predicate BothUploaded(config: Config, codec: Codec<Record>, uri: Uri, a: Record, b: Record,
                               env: ArchivalEnvironment)
  {
    && ArchiveOutcome(config, codec, uri, a, env).Uploaded?
    && ArchiveOutcome(config, codec, uri, b, env).Uploaded?
  }

  lemma EarlierKeyFirst(uri: Uri, a: Record, b: Record)
    requires EarlierAndLater(a, b)
    ensures Text.Less(RecordId(uri, a).key, RecordId(uri, b).key) && RecordId(uri, a) != RecordId(uri, b)
  {
    Keys.TimeOrderedSince2001(uri.path, a.namespaceId);
    if RecordId(uri, a) == RecordId(uri, b) {
      Text.LessAsymmetric(RecordId(uri, a).key, RecordId(uri, b).key);
    }
  }

  lemma TwoSurvive(config: Config, codec: Codec<Record>, uri: Uri, a: Record, b: Record, env: ArchivalEnvironment)
    requires RecordId(uri, a) != RecordId(uri, b) && BothUploaded(config, codec, uri, a, b, env)
    ensures var items := [Archival(a, env), Archival(b, env)];
            && Survives(config, codec, uri, items, 0, RecordId(uri, a))
            && Survives(config, codec, uri, items, 1, RecordId(uri, b))
  {
  }

  lemma UploadAdds(config: Config, codec: Codec<Record>, uri: Uri, record: Record, env: ArchivalEnvironment,
                   objects: Objects)
    requires ArchiveOutcome(config, codec, uri, record, env).Uploaded?
    ensures Archived(config, codec, uri, record, env, objects).Keys == objects.Keys + {RecordId(uri, record)}
  {
  }

  /** Nothing but the two records is stored. */
  lemma TwoStored(config: Config, codec: Codec<Record>, uri: Uri, a: Record, b: Record, env: ArchivalEnvironment)
    requires BothUploaded(config, codec, uri, a, b, env)
    ensures ArchiveAll(config, codec, uri, [Archival(a, env), Archival(b, env)], map[]).Keys
            == {RecordId(uri, a), RecordId(uri, b)}
  {
    var items := [Archival(a, env), Archival(b, env)];
    assert items[..1] == [Archival(a, env)] && items[..1][..0] == [];
    var empty: Objects := map[];
    var first := Archived(config, codec, uri, a, env, empty);
    assert ArchiveAll(config, codec, uri, items[..1], empty) == first;
    UploadAdds(config, codec, uri, a, env, empty);
    UploadAdds(config, codec, uri, b, env, first);
  }

  /** `TwoRecords` lists a store that holds just the two records. */
  lemma TwoListed(codec: Codec<Record>, uri: Uri, a: Record, b: Record, objects: Objects)
    requires EarlierAndLater(a, b) && objects.Keys == {RecordId(uri, a), RecordId(uri, b)}
    requires Unpack(codec, objects[RecordId(uri, a)]) == Success(a)
    requires Unpack(codec, objects[RecordId(uri, b)]) == Success(b)
    ensures Lists(TwoRecords(uri, a, b), codec, uri, a.namespaceId, objects)
  {
    EarlierKeyFirst(uri, a, b);
    Keys.PrefixSelectsNamespace(uri.path, a.namespaceId, a.namespaceId, a.runId, a.closeTime);
    Keys.PrefixSelectsNamespace(uri.path, a.namespaceId, a.namespaceId, b.runId, b.closeTime);
    assert RecordId(uri, a) in objects.Keys && RecordId(uri, b) in objects.Keys;
  }

  /** Both archived records are stored, listed and readable. */
  lemma TwoArchived(config: Config, codec: Codec<Record>, uri: Uri, a: Record, b: Record, env: ArchivalEnvironment)
    requires Invertible(codec) && EarlierAndLater(a, b) && BothUploaded(config, codec, uri, a, b, env)
    ensures var objects := ArchiveAll(config, codec, uri, [Archival(a, env), Archival(b, env)], map[]);
            var bucket := TwoRecords(uri, a, b);
            && Lists(bucket, codec, uri, a.namespaceId, objects) && KeyedUnder(codec, uri, a.namespaceId, objects)
            && Findable(bucket, codec, uri, objects, a, None) && Findable(bucket, codec, uri, objects, b, None)
  {
    var items := [Archival(a, env), Archival(b, env)];
    EarlierKeyFirst(uri, a, b);
    TwoSurvive(config, codec, uri, a, b, env);
    TwoStored(config, codec, uri, a, b, env);
    ArchivedIsFindable(config, codec, uri, items, map[], 0, TwoRecords(uri, a, b), None);
    ArchivedIsFindable(config, codec, uri, items, map[], 1, TwoRecords(uri, a, b), None);
    ArchivalsKeepRegular(config, codec, uri, a.namespaceId, items, map[]);
    TwoListed(codec, uri, a, b, ArchiveAll(config, codec, uri, items, map[]));
  }

  /** With pages of one, only the first of two listed objects is served. */
  lemma FirstOfTwoServed(feed: Feed)
    requires |feed.fates| == 2 && AllMatching(feed.fates) && feed.failure(0).None?
    requires FillsBatches(feed, 50, 50)
    ensures Walk(feed, 1, 50, 0).Success? && 0 in Served(feed, 1, 50, 0, 0) && 1 !in Served(feed, 1, 50, 0, 0)
  {
    OneBatchListing(feed, 1, 50);
    WalkServes(feed, 1, 50, 0);
    WalkOfFullBatches(feed, 1, 50, 50, 0);
    WalkOfFullBatches(feed, 1, 50, 50, 1);
  }

  lemma TwoMatch(uri: Uri, a: Record, b: Record)
    ensures var feed := FeedOf(TwoRecords(uri, a, b), None);
            |feed.fates| == 2 && AllMatching(feed.fates) && feed.failure(0).None? && FillsBatches(feed, 50, 50)
  {
    ReadableAllMatch(TwoRecords(uri, a, b));
  }

  lemma FirstOfTwoReturned(codec: Codec<Record>, uri: Uri, a: Record, b: Record, objects: Objects)
    requires EarlierAndLater(a, b) && KeyedUnder(codec, uri, a.namespaceId, objects)
    requires Lists(TwoRecords(uri, a, b), codec, uri, a.namespaceId, objects)
    requires Findable(TwoRecords(uri, a, b), codec, uri, objects, a, None)
    requires Findable(TwoRecords(uri, a, b), codec, uri, objects, b, None)
    ensures var answer := WalkAnswer(FeedOf(TwoRecords(uri, a, b), None), 1, 50, 0);
            answer.Success? && Returned(answer.value, a) && !Returned(answer.value, b)
  {
    var bucket := TwoRecords(uri, a, b);
    TwoMatch(uri, a, b);
    FirstOfTwoServed(FeedOf(bucket, None));
    var i := FindableIsReturned(bucket, codec, uri, objects, a, None, 1, 50);
    var j := FindableIsReturned(bucket, codec, uri, objects, b, None, 1, 50);
    TwoPositions(uri, a, b, i, j);
  }

  lemma TwoPositions(uri: Uri, a: Record, b: Record, i: nat, j: nat)
    requires EarlierAndLater(a, b) && i < 2 && j < 2
    requires TwoRecords(uri, a, b).keys[i] == RecordId(uri, a).key
    requires TwoRecords(uri, a, b).keys[j] == RecordId(uri, b).key
    ensures i == 0 && j == 1
  {
    EarlierKeyFirst(uri, a, b);
  }

  /** Two archived records, read with pages of one: the reader gets the earlier one and never the
      later one, without any error. */
  lemma ArchivedButLost(config: Config, codec: Codec<Record>, uri: Uri, a: Record, b: Record, env: ArchivalEnvironment)
    requires Invertible(codec) && EarlierAndLater(a, b) && BothUploaded(config, codec, uri, a, b, env)
    ensures var objects := ArchiveAll(config, codec, uri, [Archival(a, env), Archival(b, env)], map[]);
            var bucket := TwoRecords(uri, a, b);
            var answer := WalkAnswer(FeedOf(bucket, None), 1, BatchSize(1, false), 0);
            && Lists(bucket, codec, uri, a.namespaceId, objects) && KeyedUnder(codec, uri, a.namespaceId, objects)
            && Findable(bucket, codec, uri, objects, a, None) && Findable(bucket, codec, uri, objects, b, None)
            && answer.Success? && Returned(answer.value, a) && !Returned(answer.value, b)
  {
    var items := [Archival(a, env), Archival(b, env)];
    TwoArchived(config, codec, uri, a, b, env);
    assert BatchSize(1, false) == 50;
    FirstOfTwoReturned(codec, uri, a, b, ArchiveAll(config, codec, uri, items, map[]));
  }
}
