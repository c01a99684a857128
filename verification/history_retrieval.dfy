/** Reading archived histories back: one `Get` call, and the walk that follows its tokens. */
module HistoryRetrieval {
  import opened Wrappers
  import opened Storage
  import opened Packing
  import opened Histories
  import opened ArchiveAttempt
  import opened ArchiveRuns
  import opened Paging
  import Keys

  datatype GetRequest = GetRequest(
    namespaceId: string, workflowId: string, runId: string, closeFailoverVersion: Option<int64>,
    pageSize: int, nextPageToken: Bytes)

  datatype GetError =
    | InvalidUriArgument
    | InvalidGetRequest
    | HistoryNotExist
    | Unavailable
    | CannotDecompress
    | CannotDecode

  /** Whether the store answers, and whether the object's body can be read. */
  datatype Access = Readable | Unreachable | BodyUnreadable

  /** A request without a failover version looks for version 0. */
  function RequestedId(uri: Uri, request: GetRequest): ObjectId {
    var version: int := if request.closeFailoverVersion.Some? then request.closeFailoverVersion.value else 0;
    ObjectId(uri.hostname,
             Keys.HistoryKey(uri.path, request.namespaceId, request.workflowId, request.runId, version))
  }

  function Get(codec: Codec<seq<Batch>>, objects: Objects, access: Access, uri: Uri, request: GetRequest)
    : Result<Page<Batch>, GetError>
  {
    var id := RequestedId(uri, request);
    if ValidateUri(uri).Some? then Failure(InvalidUriArgument)
    else if request.pageSize < 1 then Failure(InvalidGetRequest)
    else if access.Unreachable? then Failure(Unavailable)
    else if id !in objects then Failure(HistoryNotExist)
    else if access.BodyUnreadable? then Failure(Unavailable)
    else match Unpack(codec, objects[id])
      case Failure(error) => Failure(if error.DecompressError? then CannotDecompress else CannotDecode)
      case Success(histories) => Success(Paginate(histories, request.pageSize, request.nextPageToken))
  }

  /** Exactly what `Get` answers: the checks in their order, then the access to the object stored
      under the key of the requested version, then the parts of the codec, then the page. */
  ghost predicate GetEnds(codec: Codec<seq<Batch>>, objects: Objects, access: Access, uri: Uri, request: GetRequest,
                          r: Result<Page<Batch>, GetError>)
  {
    var version: int := match request.closeFailoverVersion case None => 0 case Some(v) => v;
    var key := Keys.HistoryKey(uri.path, request.namespaceId, request.workflowId, request.runId, version);
    var id := ObjectId(uri.hostname, key);
    if uri.scheme != "minio" || uri.hostname == "" then r == Failure(InvalidUriArgument)
    else if request.pageSize < 1 then r == Failure(InvalidGetRequest)
    else if access.Unreachable? then r == Failure(Unavailable)
    else if id !in objects then r == Failure(HistoryNotExist)
    else if access.BodyUnreadable? then r == Failure(Unavailable)
    else
      var json := codec.decompress(objects[id]);
      if json.None? then r == Failure(CannotDecompress)
      else
        var histories := codec.decode(json.value);
        if histories.None? then r == Failure(CannotDecode)
        else r == Success(Paginate(histories.value, request.pageSize, request.nextPageToken))
  }

  lemma GetExactly(codec: Codec<seq<Batch>>, objects: Objects, access: Access, uri: Uri, request: GetRequest)
    ensures GetEnds(codec, objects, access, uri, request, Get(codec, objects, access, uri, request))
  {
  }

  /** What a reader collects who repeats `Get` with the token of the answer before; None if a
      call fails or the walk takes more than `calls` calls. */
  function ReadPages(codec: Codec<seq<Batch>>, objects: Objects, uri: Uri, request: GetRequest, calls: nat)
    : Option<seq<Batch>>
    decreases calls
  {
    if calls == 0 then None
    else match Get(codec, objects, Readable, uri, request)
      case Failure(_) => None
      case Success(page) =>
        if page.nextToken == [] then Some(page.batches)
        else match ReadPages(codec, objects, uri, request.(nextPageToken := page.nextToken), calls - 1)
          case None => None
          case Some(rest) => Some(page.batches + rest)
  }

  /** A walk over a readable object is a walk over the histories it holds. */
  lemma {:induction false} ReadsFollow(codec: Codec<seq<Batch>>, objects: Objects, uri: Uri, request: GetRequest,
                                       histories: seq<Batch>, calls: nat)
    requires ValidateUri(uri).None? && request.pageSize >= 1 && RequestedId(uri, request) in objects
    requires Unpack(codec, objects[RequestedId(uri, request)]) == Success(histories)
    ensures ReadPages(codec, objects, uri, request, calls)
            == Follow(histories, request.pageSize, request.nextPageToken, calls)
    decreases calls
  {
    var page := Paginate(histories, request.pageSize, request.nextPageToken);
    if calls > 0 && page.nextToken != [] {
      ReadsFollow(codec, objects, uri, request.(nextPageToken := page.nextToken), histories, calls - 1);
    }
  }

  lemma ReadsExactly(codec: Codec<seq<Batch>>, objects: Objects, uri: Uri, request: GetRequest, histories: seq<Batch>)
    requires ValidateUri(uri).None? && request.pageSize >= 1 && RequestedId(uri, request) in objects
    requires Unpack(codec, objects[RequestedId(uri, request)]) == Success(histories) && request.nextPageToken == []
    ensures (exists calls :: ReadPages(codec, objects, uri, request, calls) == Some(histories))
            <==> |histories| <= WrapPoint(request.pageSize)
  {
    ReadsFollow(codec, objects, uri, request, histories, |histories| + 1);
    FollowWithin(histories, request.pageSize, |histories| + 1);
    if calls :| ReadPages(codec, objects, uri, request, calls) == Some(histories) {
      ReadsFollow(codec, objects, uri, request, histories, calls);
      FollowWithin(histories, request.pageSize, calls);
    }
  }

  /** The request for the history that `call` archives, from the first page. */
  function ReadRequest(call: Call, version: Option<int64>, pageSize: int): GetRequest {
    GetRequest(call.request.namespaceId, call.request.workflowId, call.request.runId, version, pageSize, [])
  }

  /** What can be read back after any run of attempts: exactly the batches from the start cursor
      of the last upload, if and only if they fit the wrap point of the page size. */
  lemma ReadBackExactly(call: Call, envs: seq<Environment>, world: World, k: nat, pageSize: int)
    requires ValidWorld(call, world) && WellMarked(call.source) && LastUpload(call, envs, world, k)
    requires Invertible(call.codec) && pageSize >= 1
    ensures var objects := Run(call, envs, world).objects;
            var request := ReadRequest(call, Some(call.request.closeFailoverVersion), pageSize);
            var stored := Batches(call.source[StartOf(call, envs, world, k)..]);
            (exists calls :: ReadPages(call.codec, objects, call.uri, request, calls) == Some(stored))
            <==> |stored| <= WrapPoint(pageSize)
  {
    StoredExactly(call, envs, world, k);
    UploadHasValidUri(call, envs, world, k);
    ReadsExactly(call.codec, Run(call, envs, world).objects, call.uri,
                ReadRequest(call, Some(call.request.closeFailoverVersion), pageSize),
                Batches(call.source[StartOf(call, envs, world, k)..]));
  }

  lemma UploadHasValidUri(call: Call, envs: seq<Environment>, world: World, k: nat)
    requires ValidWorld(call, world) && LastUpload(call, envs, world, k)
    ensures ValidateUri(call.uri).None?
  {
  }

  /** End to end, when no attempt restored progress: archive, read back, get exactly the history,
      provided it fits the wrap point; up to 256 batches it does for every page size. */
  lemma RoundTrip(call: Call, envs: seq<Environment>, world: World, k: nat, pageSize: int, calls: nat)
    requires ValidWorld(call, world) && WellMarked(call.source) && LastUpload(call, envs, world, k)
    requires Invertible(call.codec) && pageSize >= 1
    requires forall j | 0 <= j < |envs| :: !Restores(envs[j])
    requires |Batches(call.source)| <= WrapPoint(pageSize) && calls > |Batches(call.source)|
    ensures var request := ReadRequest(call, Some(call.request.closeFailoverVersion), pageSize);
            ReadPages(call.codec, Run(call, envs, world).objects, call.uri, request, calls)
            == Some(Batches(call.source))
  {
    var request := ReadRequest(call, Some(call.request.closeFailoverVersion), pageSize);
    WithoutRestoreComplete(call, envs, world, k);
    UploadHasValidUri(call, envs, world, k);
    ReadsFollow(call.codec, Run(call, envs, world).objects, call.uri, request, Batches(call.source), calls);
    FollowWithin(Batches(call.source), pageSize, calls);
  }

  /** For a contiguous history the batches read back hold exactly the events 1 to
      `nextEventId` - 1. */
  lemma RoundTripEvents(call: Call, envs: seq<Environment>, world: World, k: nat, pageSize: int, calls: nat)
    requires ValidWorld(call, world) && WellMarked(call.source) && LastUpload(call, envs, world, k)
    requires Invertible(call.codec) && pageSize >= 1
    requires forall j | 0 <= j < |envs| :: !Restores(envs[j])
    requires |Batches(call.source)| <= WrapPoint(pageSize) && calls > |Batches(call.source)|
    requires NothingEmpty(call.source) && Contiguous(Events(Batches(call.source)))
    ensures var request := ReadRequest(call, Some(call.request.closeFailoverVersion), pageSize);
            var read := ReadPages(call.codec, Run(call, envs, world).objects, call.uri, request, calls);
            read.Some? && StoresEvents(call.request, 0, Events(read.value))
  {
    RoundTrip(call, envs, world, k, pageSize, calls);
    assert !Restores(envs[k]);
    FreshUploadIsComplete(call, envs[k], WorldBefore(call, envs, world, k));
  }

  /** A request without a failover version finds nothing unless the history was archived under
      version 0, and then it is answered with the first page of the stored batches. */
  lemma DefaultVersionFinds(call: Call, envs: seq<Environment>, world: World, k: nat, pageSize: int)
    requires ValidWorld(call, world) && WellMarked(call.source) && LastUpload(call, envs, world, k) && pageSize >= 1
    requires call.request.closeFailoverVersion != 0 ==>
               RequestedId(call.uri, ReadRequest(call, None, pageSize)) !in world.objects
    ensures var objects := Run(call, envs, world).objects;
            Get(call.codec, objects, Readable, call.uri, ReadRequest(call, None, pageSize)) == Failure(HistoryNotExist)
            <==> call.request.closeFailoverVersion != 0
    ensures var stored := Batches(call.source[StartOf(call, envs, world, k)..]);
            Invertible(call.codec) && call.request.closeFailoverVersion == 0 ==>
              Get(call.codec, Run(call, envs, world).objects, Readable, call.uri, ReadRequest(call, None, pageSize))
              == Success(Paginate(stored, pageSize, []))
  {
    var objects := Run(call, envs, world).objects;
    var r := call.request;
    var id := RequestedId(call.uri, ReadRequest(call, None, pageSize));
    UploadHasValidUri(call, envs, world, k);
    RunStores(call, envs, world, k);
    RunKeepsOthers(call, envs, world);
    Keys.HistoryKeyCollision(call.uri.path, r.namespaceId, r.workflowId, r.runId, r.closeFailoverVersion,
                             r.namespaceId, r.workflowId, r.runId, 0);
    assert id != HistoryId(call) && id in objects ==> id in objects - {HistoryId(call)};
    if Invertible(call.codec) {
      StoredExactly(call, envs, world, k);
    }
  }
}
