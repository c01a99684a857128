/** From archived records to query results: which records the listing shows, that results come
    in close-time order, and that both archivers apply the same status allowlist. */
module VisibilityOrder {
  import opened Wrappers
  import opened Configuration
  import opened Storage
  import opened Packing
  import opened VisibilityWalk
  import opened VisibilityBatches
  import opened VisibilityArchiving
  import Histories
  import History = ArchiveAttempt
  import Outcomes = ArchiveOutcomes
  import Keys
  import Text

  // ---- Runs of archivals ----

  /** One record to archive, and what happens while it is archived. */
  datatype Archival = Archival(record: Record, env: ArchivalEnvironment)

  /** The store after archiving a sequence of records. */
  function ArchiveAll(config: Config, codec: Codec<Record>, uri: Uri, items: seq<Archival>, objects: Objects): Objects {
    if |items| == 0 then objects
    else
      var n := |items| - 1;
      Archived(config, codec, uri, items[n].record, items[n].env, ArchiveAll(config, codec, uri, items[..n], objects))
  }

  /** Every object of the bucket holds a record whose key it is stored under. */
  ghost predicate WellKeyed(codec: Codec<Record>, uri: Uri, objects: Objects) {
    forall id | id in objects && id.bucket == uri.hostname ::
      && Unpack(codec, objects[id]).Success?
      && RecordId(uri, Unpack(codec, objects[id]).value) == id
  }

  /** Archivals keep that, whatever else the store holds. */
  lemma {:induction false} ArchivalsAreWellKeyed(config: Config, codec: Codec<Record>, uri: Uri, items: seq<Archival>,
                                                 objects: Objects)
    requires Invertible(codec) && WellKeyed(codec, uri, objects)
    ensures WellKeyed(codec, uri, ArchiveAll(config, codec, uri, items, objects))
  {
    if |items| > 0 {
      var n := |items| - 1;
      ArchivalsAreWellKeyed(config, codec, uri, items[..n], objects);
      ArchivalIsWellKeyed(config, codec, uri, items[n], ArchiveAll(config, codec, uri, items[..n], objects));
    }
  }

  lemma ArchivalIsWellKeyed(config: Config, codec: Codec<Record>, uri: Uri, item: Archival, objects: Objects)
    requires Invertible(codec) && WellKeyed(codec, uri, objects)
    ensures WellKeyed(codec, uri, Archived(config, codec, uri, item.record, item.env, objects))
  {
    PackRoundTrip(codec, item.record);
  }

  ghost predicate WritesTo(config: Config, codec: Codec<Record>, uri: Uri, item: Archival, id: ObjectId) {
    ArchiveOutcome(config, codec, uri, item.record, item.env).Uploaded? && RecordId(uri, item.record) == id
  }

  /** Archival `k` uploads to `id`, and no later one does. */
  ghost predicate Survives(config: Config, codec: Codec<Record>, uri: Uri, items: seq<Archival>, k: nat, id: ObjectId) {
    && k < |items| && WritesTo(config, codec, uri, items[k], id)
    && forall j | k < j < |items| :: !WritesTo(config, codec, uri, items[j], id)
  }

  lemma FinalArchival(config: Config, codec: Codec<Record>, uri: Uri, items: seq<Archival>,
                      objects: Objects, id: ObjectId)
    requires |items| > 0
    ensures var n := |items| - 1;
            var before := ArchiveAll(config, codec, uri, items[..n], objects);
            var after := ArchiveAll(config, codec, uri, items, objects);
            if WritesTo(config, codec, uri, items[n], id)
            then id in after && Success(after[id]) == Pack(codec, items[n].record)
            else id in before ==> id in after && after[id] == before[id]
  {
  }

  lemma SurvivesInPrefix(config: Config, codec: Codec<Record>, uri: Uri, items: seq<Archival>, k: nat, id: ObjectId)
    requires Survives(config, codec, uri, items, k, id) && k < |items| - 1
    ensures Survives(config, codec, uri, items[..|items| - 1], k, id)
    ensures !WritesTo(config, codec, uri, items[|items| - 1], id)
  {
    assert forall j | k <= j < |items| - 1 :: items[..|items| - 1][j] == items[j];
  }

  /** A surviving record is what its object holds. */
  lemma {:induction false} SurvivorIsStored(config: Config, codec: Codec<Record>, uri: Uri, items: seq<Archival>,
                                            objects: Objects, k: nat, id: ObjectId)
    requires Invertible(codec) && Survives(config, codec, uri, items, k, id)
    ensures var after := ArchiveAll(config, codec, uri, items, objects);
            id in after && Unpack(codec, after[id]) == Success(items[k].record)
    decreases |items|
  {
    var n := |items| - 1;
    FinalArchival(config, codec, uri, items, objects, id);
    if k == n {
      PackRoundTrip(codec, items[n].record);
    } else {
      SurvivesInPrefix(config, codec, uri, items, k, id);
      SurvivorIsStored(config, codec, uri, items[..n], objects, k, id);
    }
  }

  /** Only a record of the same namespace, close time and short run ID can overwrite one. */
  lemma OverwrittenOnlyByTwin(uri: Uri, a: Record, b: Record)
    requires '/' !in a.namespaceId && '/' !in b.namespaceId
    ensures RecordId(uri, a) == RecordId(uri, b) <==>
              && a.namespaceId == b.namespaceId && a.closeTime == b.closeTime
              && Keys.SameFirstEight(a.runId, b.runId)
  {
    Keys.VisibilityKeyCollision(uri.path, a.namespaceId, a.runId, a.closeTime, b.namespaceId, b.runId, b.closeTime);
  }

  // ---- Listing a namespace ----

  /** The bucket lists, in byte order, exactly the stored keys under the namespace prefix, and a
      download that succeeds yields the stored record. */
  ghost predicate Lists(bucket: Bucket, codec: Codec<Record>, uri: Uri, namespaceId: string, objects: Objects) {
    && (forall i, j | 0 <= i < j < |bucket.keys| :: Text.Less(bucket.keys[i], bucket.keys[j]))
    && (forall key :: key in bucket.keys <==>
          ObjectId(uri.hostname, key) in objects && Keys.VisibilityPrefix(uri.path, namespaceId) <= key)
    && (forall key | key in bucket.keys && bucket.download(key).Some? ::
          Unpack(codec, objects[ObjectId(uri.hostname, key)]) == Success(bucket.download(key).value))
  }

  /** What can be read under the prefix of a namespace are its records, each under its own key. */
  ghost predicate KeyedUnder(codec: Codec<Record>, uri: Uri, namespaceId: string, objects: Objects) {
    forall id | id in objects && id.bucket == uri.hostname && Keys.VisibilityPrefix(uri.path, namespaceId) <= id.key
                && Unpack(codec, objects[id]).Success? ::
      var record := Unpack(codec, objects[id]).value;
      record.namespaceId == namespaceId && RecordId(uri, record) == id
  }

  /** The record closed between 2001 and 2262. */
  predicate ClosedInSpan(record: Record) {
    1_000_000_000_000_000_000 <= record.closeTime <= 0x7fff_ffff_ffff_ffff
  }

  ghost predicate ClosedInSpanUnder(codec: Codec<Record>, uri: Uri, namespaceId: string, objects: Objects) {
    forall id | id in objects && id.bucket == uri.hostname && Keys.VisibilityPrefix(uri.path, namespaceId) <= id.key
                && Unpack(codec, objects[id]).Success? ::
      ClosedInSpan(Unpack(codec, objects[id]).value)
  }

  /** If the record is stored, its namespace ID has no slash. */
  predicate SlashFreeArchival(config: Config, codec: Codec<Record>, uri: Uri, item: Archival) {
    ArchiveOutcome(config, codec, uri, item.record, item.env).Uploaded? ==> '/' !in item.record.namespaceId
  }

  /** If the record is stored in the namespace, it closed in the span. */
  predicate InSpanArchival(config: Config, codec: Codec<Record>, uri: Uri, namespaceId: string, item: Archival) {
    ArchiveOutcome(config, codec, uri, item.record, item.env).Uploaded? && item.record.namespaceId == namespaceId ==>
      ClosedInSpan(item.record)
  }

  /** One archival keeps the namespace regular. */
  lemma ArchivalKeepsRegular(config: Config, codec: Codec<Record>, uri: Uri, namespaceId: string, item: Archival,
                             objects: Objects)
    requires Invertible(codec) && '/' !in namespaceId && SlashFreeArchival(config, codec, uri, item)
    requires KeyedUnder(codec, uri, namespaceId, objects)
    ensures var after := Archived(config, codec, uri, item.record, item.env, objects);
            && KeyedUnder(codec, uri, namespaceId, after)
            && (ClosedInSpanUnder(codec, uri, namespaceId, objects)
                && InSpanArchival(config, codec, uri, namespaceId, item) ==>
                  ClosedInSpanUnder(codec, uri, namespaceId, after))
  {
    var record := item.record;
    PackRoundTrip(codec, record);
    if '/' !in record.namespaceId {
      Keys.PrefixSelectsNamespace(uri.path, namespaceId, record.namespaceId, record.runId, record.closeTime);
    }
  }

  /** Archivals for any namespaces keep one of them regular, whatever else the store holds. */
  lemma {:induction false} ArchivalsKeepRegular(config: Config, codec: Codec<Record>, uri: Uri, namespaceId: string,
                                                items: seq<Archival>, objects: Objects)
    requires Invertible(codec) && '/' !in namespaceId && KeyedUnder(codec, uri, namespaceId, objects)
    requires forall i | 0 <= i < |items| :: SlashFreeArchival(config, codec, uri, items[i])
    ensures var after := ArchiveAll(config, codec, uri, items, objects);
            && KeyedUnder(codec, uri, namespaceId, after)
            && (ClosedInSpanUnder(codec, uri, namespaceId, objects)
                && (forall i | 0 <= i < |items| :: InSpanArchival(config, codec, uri, namespaceId, items[i])) ==>
                  ClosedInSpanUnder(codec, uri, namespaceId, after))
  {
    if |items| > 0 {
      var n := |items| - 1;
      ArchivalsKeepRegular(config, codec, uri, namespaceId, items[..n], objects);
      ArchivalKeepsRegular(config, codec, uri, namespaceId, items[n],
                           ArchiveAll(config, codec, uri, items[..n], objects));
    }
  }

  ghost predicate RegularListing(bucket: Bucket, codec: Codec<Record>, uri: Uri, namespaceId: string,
                                 objects: Objects)
  {
    && KeyedUnder(codec, uri, namespaceId, objects) && ClosedInSpanUnder(codec, uri, namespaceId, objects)
    && Lists(bucket, codec, uri, namespaceId, objects)
  }

  /** A listed record belongs to the namespace and is listed under its own key. */
  lemma ListedRecord(bucket: Bucket, codec: Codec<Record>, uri: Uri, namespaceId: string, objects: Objects, i: nat)
    requires KeyedUnder(codec, uri, namespaceId, objects) && Lists(bucket, codec, uri, namespaceId, objects)
    requires i < |bucket.keys| && bucket.download(bucket.keys[i]).Some?
    ensures var record := bucket.download(bucket.keys[i]).value;
            && record.namespaceId == namespaceId
            && bucket.keys[i] == Keys.VisibilityKey(uri.path, namespaceId, record.runId, record.closeTime)
            && (ClosedInSpanUnder(codec, uri, namespaceId, objects) ==> ClosedInSpan(record))
  {
    var key := bucket.keys[i];
    assert key in bucket.keys;
    assert ObjectId(uri.hostname, key) in objects;
  }

  /** Of two listed records the first closed no later. */
  lemma EarlierListedFirst(bucket: Bucket, codec: Codec<Record>, uri: Uri, namespaceId: string, objects: Objects,
                           i: nat, j: nat)
    requires RegularListing(bucket, codec, uri, namespaceId, objects) && i < j < |bucket.keys|
    requires bucket.download(bucket.keys[i]).Some? && bucket.download(bucket.keys[j]).Some?
    ensures bucket.download(bucket.keys[i]).value.closeTime <= bucket.download(bucket.keys[j]).value.closeTime
  {
    var a, b := bucket.download(bucket.keys[i]).value, bucket.download(bucket.keys[j]).value;
    ListedRecord(bucket, codec, uri, namespaceId, objects, i);
    ListedRecord(bucket, codec, uri, namespaceId, objects, j);
    if b.closeTime < a.closeTime {
      Keys.TimeOrderedSince2001(uri.path, namespaceId);
      Text.LessAsymmetric(bucket.keys[i], bucket.keys[j]);
    }
  }

  ghost predicate DownloadsInTimeOrder(bucket: Bucket) {
    forall i, j | 0 <= i < j < |bucket.keys|
                  && bucket.download(bucket.keys[i]).Some? && bucket.download(bucket.keys[j]).Some? ::
      bucket.download(bucket.keys[i]).value.closeTime <= bucket.download(bucket.keys[j]).value.closeTime
  }

  lemma ListingInTimeOrder(bucket: Bucket, codec: Codec<Record>, uri: Uri, namespaceId: string, objects: Objects)
    requires RegularListing(bucket, codec, uri, namespaceId, objects)
    ensures DownloadsInTimeOrder(bucket)
  {
    forall i, j | 0 <= i < j < |bucket.keys|
                  && bucket.download(bucket.keys[i]).Some? && bucket.download(bucket.keys[j]).Some?
      ensures bucket.download(bucket.keys[i]).value.closeTime <= bucket.download(bucket.keys[j]).value.closeTime
    {
      EarlierListedFirst(bucket, codec, uri, namespaceId, objects, i, j);
    }
  }

  lemma FeedInTimeOrder(bucket: Bucket, filter: Option<Status>)
    requires DownloadsInTimeOrder(bucket)
    ensures ListedInTimeOrder(FeedOf(bucket, filter).fates)
  {
    var fates := FeedOf(bucket, filter).fates;
    forall p, q | 0 <= p < q < |fates| && fates[p].Matching? && fates[q].Matching?
      ensures fates[p].info.closeTime <= fates[q].info.closeTime
    {
      assert FateOf(bucket, filter, bucket.keys[p]).Matching? && FateOf(bucket, filter, bucket.keys[q]).Matching?;
    }
  }

  /** The results of a token walk over a namespace are in close-time order, whatever the page
      size, the filter, the batches the server chooses and the objects that cannot be read. */
  lemma WalkInTimeOrder(bucket: Bucket, codec: Codec<Record>, uri: Uri, namespaceId: string, objects: Objects,
                        filter: Option<Status>, pageSize: nat, maxKeys: int)
    requires RegularListing(bucket, codec, uri, namespaceId, objects) && maxKeys >= 1 && pageSize >= 1
    requires Walk(FeedOf(bucket, filter), pageSize, maxKeys, 0).Success?
    ensures var feed := FeedOf(bucket, filter);
            var calls := Walk(feed, pageSize, maxKeys, 0).value;
            Chained(feed.fates, pageSize, calls, 0) && InTimeOrder(Collected(feed.fates, pageSize, calls, 0))
  {
    var feed := FeedOf(bucket, filter);
    ListingInTimeOrder(bucket, codec, uri, namespaceId, objects);
    FeedInTimeOrder(bucket, filter);
    WalkChained(feed, pageSize, maxKeys, 0);
    WalkKeepsTimeOrder(feed.fates, pageSize, Walk(feed, pageSize, maxKeys, 0).value, 0);
  }

  /** What stands under the record's key can be downloaded, and the record converts and has the
      wanted status. */
  predicate Readable(bucket: Bucket, uri: Uri, record: Record, filter: Option<Status>) {
    && bucket.download(RecordId(uri, record).key).Some?
    && bucket.parse(record.searchAttributes).Some?
    && (filter.None? || filter.value == record.status)
  }

  /** The record is stored under its key, and can be read, converted and passed by the filter. */
  ghost predicate Findable(bucket: Bucket, codec: Codec<Record>, uri: Uri, objects: Objects, record: Record,
                           filter: Option<Status>)
  {
    && RecordId(uri, record) in objects && Unpack(codec, objects[RecordId(uri, record)]) == Success(record)
    && Readable(bucket, uri, record, filter)
  }

  /** A findable record is in the listing of its namespace. */
  lemma FindableIsListed(bucket: Bucket, codec: Codec<Record>, uri: Uri, objects: Objects, record: Record,
                         filter: Option<Status>)
    returns (position: nat)
    requires '/' !in record.namespaceId && Lists(bucket, codec, uri, record.namespaceId, objects)
    requires Findable(bucket, codec, uri, objects, record, filter)
    ensures position < |bucket.keys| && bucket.keys[position] == RecordId(uri, record).key
    ensures bucket.download(bucket.keys[position]) == Some(record)
  {
    var key := RecordId(uri, record).key;
    Keys.PrefixSelectsNamespace(uri.path, record.namespaceId, record.namespaceId, record.runId, record.closeTime);
    assert key in bucket.keys;
    position :| 0 <= position < |bucket.keys| && bucket.keys[position] == key;
  }

  lemma ReadableMatches(bucket: Bucket, filter: Option<Status>, key: string, record: Record)
    requires bucket.download(key) == Some(record) && bucket.parse(record.searchAttributes).Some?
    requires filter.None? || filter.value == record.status
    ensures var fate := FateOf(bucket, filter, key);
            fate.Matching? && RecordBehind(fate.info, record.namespaceId, record.searchAttributes) == record
  {
  }

  /** A result from which a record can be rebuilt stands for the object of that record. */
  lemma ResultStandsFor(bucket: Bucket, codec: Codec<Record>, uri: Uri, objects: Objects, record: Record,
                        filter: Option<Status>, i: nat, info: ExecutionInfo)
    requires KeyedUnder(codec, uri, record.namespaceId, objects)
    requires Lists(bucket, codec, uri, record.namespaceId, objects) && i < |bucket.keys|
    requires FateOf(bucket, filter, bucket.keys[i]) == Matching(info)
    requires RecordBehind(info, record.namespaceId, record.searchAttributes) == record
    ensures bucket.keys[i] == RecordId(uri, record).key
  {
    ListedRecord(bucket, codec, uri, record.namespaceId, objects, i);
  }

  lemma ListedOnce(bucket: Bucket, codec: Codec<Record>, uri: Uri, namespaceId: string, objects: Objects,
                   i: nat, j: nat)
    requires Lists(bucket, codec, uri, namespaceId, objects) && i < |bucket.keys| && j < |bucket.keys|
    requires bucket.keys[i] == bucket.keys[j]
    ensures i == j
  {
    if i < j {
      Text.LessAsymmetric(bucket.keys[i], bucket.keys[j]);
    } else if j < i {
      Text.LessAsymmetric(bucket.keys[j], bucket.keys[i]);
    }
  }

  /** Some result of the walk is the record, as far as a result can tell. */
  ghost predicate Returned(infos: seq<ExecutionInfo>, record: Record) {
    exists info | info in infos :: RecordBehind(info, record.namespaceId, record.searchAttributes) == record
  }

  /** A record is returned exactly when its position is. */
  lemma ReturnedAtPosition(bucket: Bucket, codec: Codec<Record>, uri: Uri, objects: Objects, record: Record,
                           filter: Option<Status>, positions: seq<nat>, infos: seq<ExecutionInfo>, position: nat)
    requires KeyedUnder(codec, uri, record.namespaceId, objects)
    requires Lists(bucket, codec, uri, record.namespaceId, objects)
    requires Findable(bucket, codec, uri, objects, record, filter)
    requires position < |bucket.keys| && bucket.keys[position] == RecordId(uri, record).key
    requires bucket.download(bucket.keys[position]) == Some(record)
    requires Names(FeedOf(bucket, filter).fates, positions, infos, 0, |bucket.keys|)
    ensures Returned(infos, record) <==> position in positions
  {
    var fates := FeedOf(bucket, filter).fates;
    ReadableMatches(bucket, filter, bucket.keys[position], record);
    if position in positions {
      var i :| 0 <= i < |positions| && positions[i] == position;
      assert infos[i] in infos;
    }
    if Returned(infos, record) {
      var info :| info in infos && RecordBehind(info, record.namespaceId, record.searchAttributes) == record;
      var i :| 0 <= i < |infos| && infos[i] == info;
      ResultStandsFor(bucket, codec, uri, objects, record, filter, positions[i], info);
      ListedOnce(bucket, codec, uri, record.namespaceId, objects, positions[i], position);
    }
  }

  /** Exactly which findable records a walk returns: those whose listing position is served, which
      are those that lie in no call's gap. */
  lemma FindableIsFound(bucket: Bucket, codec: Codec<Record>, uri: Uri, objects: Objects, record: Record,
                        filter: Option<Status>, pageSize: nat, maxKeys: int)
    returns (position: nat)
    requires '/' !in record.namespaceId && KeyedUnder(codec, uri, record.namespaceId, objects)
    requires Lists(bucket, codec, uri, record.namespaceId, objects)
    requires Findable(bucket, codec, uri, objects, record, filter) && maxKeys >= 1 && pageSize >= 1
    requires Walk(FeedOf(bucket, filter), pageSize, maxKeys, 0).Success?
    ensures position < |bucket.keys| && bucket.keys[position] == RecordId(uri, record).key
    ensures var feed := FeedOf(bucket, filter);
            var calls := Walk(feed, pageSize, maxKeys, 0).value;
            && Chained(feed.fates, pageSize, calls, 0)
            && (Returned(Collected(feed.fates, pageSize, calls, 0), record)
                <==> position in Served(feed, pageSize, maxKeys, 0, 0))
            && (position in Served(feed, pageSize, maxKeys, 0, 0) <==> !InGap(calls, position))
  {
    var feed := FeedOf(bucket, filter);
    var calls := Walk(feed, pageSize, maxKeys, 0).value;
    position := FindableIsListed(bucket, codec, uri, objects, record, filter);
    ReadableMatches(bucket, filter, bucket.keys[position], record);
    WalkServes(feed, pageSize, maxKeys, 0);
    WalkKeepsOrder(feed.fates, pageSize, calls, 0);
    ReturnedAtPosition(bucket, codec, uri, objects, record, filter,
                       CollectedPositions(feed.fates, pageSize, calls, 0),
                       Collected(feed.fates, pageSize, calls, 0), position);
    CollectedExactly(feed.fates, pageSize, calls, 0, position);
  }

  /** A record that was archived and not overwritten is findable when it can be read and converted
      and has the wanted status. */
  lemma ArchivedIsFindable(config: Config, codec: Codec<Record>, uri: Uri, items: seq<Archival>, objects: Objects,
                           k: nat, bucket: Bucket, filter: Option<Status>)
    requires k < |items| && Invertible(codec)
    requires Survives(config, codec, uri, items, k, RecordId(uri, items[k].record))
    requires Readable(bucket, uri, items[k].record, filter)
    ensures Findable(bucket, codec, uri, ArchiveAll(config, codec, uri, items, objects), items[k].record, filter)
  {
    SurvivorIsStored(config, codec, uri, items, objects, k, RecordId(uri, items[k].record));
  }

  // ---- Both archivers agree ----

  /** Under one allowlist, a fresh history that fits and whose last event closes with status `s`
      gets to its upload exactly when a visibility record of status `s` does; a history whose last
      event closes with no status always gets there. */
  lemma ArchiversAgree(call: History.Call, env: History.Environment, world: History.World,
                       codec: Codec<Record>, record: Record, venv: ArchivalEnvironment, last: Histories.Event)
    requires History.ValidWorld(call, world) && History.WellMarked(call.source) && call.source != []
    requires Outcomes.Valid(call, env) && venv.accepted && Outcomes.StartsAt(env, world) == 0
    requires Outcomes.FitUpTo(call, env, 0, |call.source|)
    requires Histories.EndsWith(call.source[|call.source| - 1].body, last)
    ensures var outcome := History.Attempt(call, env, world).0;
            var outcome' := ArchiveOutcome(call.config, codec, call.uri, record, venv);
            var uploads := outcome.Uploaded? || outcome.PackFailed? || outcome.PutFailed?;
            var uploads' := outcome'.Uploaded? || outcome'.PackFailed? || outcome'.PutFailed?;
            && ((forall status :: !Histories.ClosesWith(last.eventType, status)) ==> uploads)
            && (Histories.ClosesWith(last.eventType, record.status) ==> (uploads <==> uploads'))
  {
    Outcomes.UploadExactly(call, env, world);
    var body := call.source[|call.source| - 1].body;
    forall event | Histories.EndsWith(body, event)
      ensures event == last
    {
      Histories.LastEventExactly(body, event);
      Histories.LastEventExactly(body, last);
    }
  }
}
