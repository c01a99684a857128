/** Reading a paged listing with over-fetching, filtering and a continuation token: one call,
    and the walk that follows the tokens, compared with simply filtering the listing. */
module VisibilityWalk {
  import opened Wrappers
  import opened Configuration

  datatype ExecutionInfo = ExecutionInfo(
    workflowId: string, runId: string, workflowTypeName: string,
    startTime: int, executionTime: int, closeTime: int, executionDuration: int,
    status: Status, historyLength: int, memo: string, searchAttributes: string)

  /** What becomes of a listed object when a call reads it. */
  datatype Fate = DownloadFailed | ConversionFailed | WrongStatus | Matching(info: ExecutionInfo)

  datatype ListError = NoSuchBucket | ListUnavailable

  /** The listing under the namespace prefix, by the fate of each object in listing order; how
      many keys the server would put in a batch at a position; whether listing fails there. */
  datatype Feed = Feed(fates: seq<Fate>, chunk: (nat, int) -> nat, failure: nat -> Option<ListError>)

  /** The server chooses where a batch ends, within its bounds: something while any of the
      `total` keys remain, and at most what was asked for. */
  function BatchEnd(total: nat, chunk: (nat, int) -> nat, from: nat, maxKeys: int): (end: nat)
    requires from <= total && maxKeys >= 1
    ensures from <= end <= total && end - from <= maxKeys
    ensures from < total ==> from < end
  {
    var left := total - from;
    var most := if maxKeys < left then maxKeys else left;
    var wanted := chunk(from, maxKeys);
    if left == 0 then from
    else if wanted < 1 then from + 1
    else if wanted > most then from + most
    else from + wanted
  }

  /** The simple specification: the listing from `low` up to `high`, filtered. */
  function Found(fates: seq<Fate>, low: nat, high: nat): seq<ExecutionInfo>
    requires high <= |fates|
    decreases high
  {
    if high <= low then []
    else Found(fates, low, high - 1) + (if fates[high - 1].Matching? then [fates[high - 1].info] else [])
  }

  lemma {:induction false} FoundSplit(fates: seq<Fate>, low: nat, mid: nat, high: nat)
    requires low <= mid <= high <= |fates|
    ensures Found(fates, low, high) == Found(fates, low, mid) + Found(fates, mid, high)
    decreases high
  {
    if mid < high {
      FoundSplit(fates, low, mid, high - 1);
    }
  }

  // ---- One call ----

  /** One call: it reads the listing from `start`, its last batch ends at `end`, and it stops
      taking records at `fill`. */
  datatype QueryCall = QueryCall(start: nat, fill: nat, end: nat)

  function PageOf(feed: Feed, call: QueryCall): seq<ExecutionInfo>
    requires call.fill <= |feed.fates|
  {
    Found(feed.fates, call.start, call.fill)
  }

  /** The token a call answers with: the end of its last batch, unless that ends the listing. */
  function NextToken(feed: Feed, call: QueryCall): Option<nat> {
    if call.end < |feed.fates| then Some(call.end) else None
  }

  /** Where `need` records have been taken from `from` on, or the end of the batch. */
  function FillPoint(fates: seq<Fate>, from: nat, end: nat, need: nat): (fill: nat)
    requires from <= end <= |fates|
    ensures from <= fill <= end
    decreases end - from
  {
    if need == 0 || from == end then from
    else FillPoint(fates, from + 1, end, if fates[from].Matching? then need - 1 else need)
  }

  /** Filling takes the first records of the batch, up to the page size; a batch that does not
      fill the page is taken whole, and a page that is filled ends with its last record. */
  lemma {:induction false} FillPointMeaning(fates: seq<Fate>, start: nat, from: nat, end: nat, need: nat)
    requires start <= from <= end <= |fates|
    ensures var fill := FillPoint(fates, from, end, need);
            var taken := |Found(fates, start, fill)| - |Found(fates, start, from)|;
            && 0 <= taken <= need
            && (taken < need ==> fill == end)
            && (need > 0 && taken == need ==> from < fill && fates[fill - 1].Matching?)
    decreases end - from
  {
    if need > 0 && from < end {
      FillPointMeaning(fates, start, from + 1, end, if fates[from].Matching? then need - 1 else need);
    }
  }

  /** One round of the loop over listing batches, at position `from` after a start at `start`:
      the batch there is listed and the page filled from it. */
  function Round(feed: Feed, pageSize: nat, maxKeys: int, start: nat, from: nat): (call: QueryCall)
    requires start <= from <= |feed.fates| && maxKeys >= 1
    requires |Found(feed.fates, start, from)| < pageSize
    ensures call.start == start && from <= call.fill <= call.end <= |feed.fates|
    ensures call.end == BatchEnd(|feed.fates|, feed.chunk, from, maxKeys)
    ensures |PageOf(feed, call)| <= pageSize
    ensures |PageOf(feed, call)| < pageSize ==> call.fill == call.end
    ensures |PageOf(feed, call)| == pageSize ==> from < call.fill && feed.fates[call.fill - 1].Matching?
  {
    var need := pageSize - |Found(feed.fates, start, from)|;
    var end := BatchEnd(|feed.fates|, feed.chunk, from, maxKeys);
    FillPointMeaning(feed.fates, start, from, end, need);
    QueryCall(start, FillPoint(feed.fates, from, end, need), end)
  }

  /** The loop ends when the page is full or the listing is exhausted. */
  predicate Complete(feed: Feed, pageSize: nat, call: QueryCall)
    requires call.fill <= |feed.fates|
  {
    call.end == |feed.fates| || |PageOf(feed, call)| == pageSize
  }

  /** The loop from its round at `from` on. */
  function CallFrom(feed: Feed, pageSize: nat, maxKeys: int, start: nat, from: nat): Result<QueryCall, ListError>
    requires start <= from <= |feed.fates| && maxKeys >= 1
    requires |Found(feed.fates, start, from)| < pageSize
    decreases |feed.fates| - from
  {
    match feed.failure(from)
    case Some(error) => Failure(error)
    case None =>
      var call := Round(feed, pageSize, maxKeys, start, from);
      if Complete(feed, pageSize, call) then Success(call)
      else CallFrom(feed, pageSize, maxKeys, start, call.end)
  }

  /** What a completed call has done with the listing: its page holds the first matching records
      of its stretch, up to the page size; a page that is not full has seen the rest of the
      listing; a full page ends with its last record; something is read while anything is left. */
  ghost predicate CallFits(fates: seq<Fate>, pageSize: nat, call: QueryCall) {
    && call.start <= call.fill <= call.end <= |fates|
    && (call.start < |fates| ==> call.start < call.end)
    && var taken := |Found(fates, call.start, call.fill)|;
       && taken <= pageSize
       && (taken < pageSize ==> call.fill == call.end == |fates|)
       && (taken == pageSize ==> call.start < call.fill && fates[call.fill - 1].Matching?)
  }

  lemma {:induction false} CallFromFits(feed: Feed, pageSize: nat, maxKeys: int, start: nat, from: nat)
    requires start <= from <= |feed.fates| && maxKeys >= 1
    requires |Found(feed.fates, start, from)| < pageSize
    ensures var r := CallFrom(feed, pageSize, maxKeys, start, from);
            r.Success? ==> r.value.start == start && from <= r.value.end && CallFits(feed.fates, pageSize, r.value)
    decreases |feed.fates| - from
  {
    if feed.failure(from).None? {
      var call := Round(feed, pageSize, maxKeys, start, from);
      if !Complete(feed, pageSize, call) {
        CallFromFits(feed, pageSize, maxKeys, start, call.end);
      }
    }
  }

  /** The token of a call points to the end of the very batch in which its page was filled: no
      batch is read beyond that one, and fewer than a batch of objects lie after the fill point. */
  lemma {:induction false} FillInLastBatch(feed: Feed, pageSize: nat, maxKeys: int, start: nat, from: nat)
    returns (last: nat)
    requires start <= from <= |feed.fates| && maxKeys >= 1
    requires |Found(feed.fates, start, from)| < pageSize && CallFrom(feed, pageSize, maxKeys, start, from).Success?
    ensures var call := CallFrom(feed, pageSize, maxKeys, start, from).value;
            && from <= last <= call.fill && last <= |feed.fates|
            && call.end == BatchEnd(|feed.fates|, feed.chunk, last, maxKeys)
            && (last < |feed.fates| ==> last < call.fill && call.end - call.fill < maxKeys)
    decreases |feed.fates| - from
  {
    var call := Round(feed, pageSize, maxKeys, start, from);
    if Complete(feed, pageSize, call) {
      last := from;
    } else {
      last := FillInLastBatch(feed, pageSize, maxKeys, start, call.end);
    }
  }

  // ---- Every object's fate ----

  function CountFate(fates: seq<Fate>, low: nat, high: nat, kind: Fate -> bool): nat
    requires high <= |fates|
    decreases high
  {
    if high <= low then 0
    else CountFate(fates, low, high - 1, kind) + if kind(fates[high - 1]) then 1 else 0
  }

  lemma {:induction false} FatesAddUp(fates: seq<Fate>, low: nat, high: nat)
    requires low <= high <= |fates|
    ensures |Found(fates, low, high)|
            + CountFate(fates, low, high, (f: Fate) => f.DownloadFailed?)
            + CountFate(fates, low, high, (f: Fate) => f.ConversionFailed?)
            + CountFate(fates, low, high, (f: Fate) => f.WrongStatus?) == high - low
    decreases high
  {
    if low < high {
      FatesAddUp(fates, low, high - 1);
    }
  }

  /** Every object a call has listed was returned, failed to download, failed to convert, had the
      wrong status, or lies after the fill point; and the numbers add up. */
  lemma CallAddsUp(feed: Feed, pageSize: nat, call: QueryCall)
    requires CallFits(feed.fates, pageSize, call)
    ensures |PageOf(feed, call)|
            + CountFate(feed.fates, call.start, call.fill, (f: Fate) => f.DownloadFailed?)
            + CountFate(feed.fates, call.start, call.fill, (f: Fate) => f.ConversionFailed?)
            + CountFate(feed.fates, call.start, call.fill, (f: Fate) => f.WrongStatus?)
            + (call.end - call.fill) == call.end - call.start
  {
    FatesAddUp(feed.fates, call.start, call.fill);
  }

  // ---- The walk ----

  /** The calls of a reader who repeats the query with the token of the answer before. */
  function Walk(feed: Feed, pageSize: nat, maxKeys: int, from: nat): Result<seq<QueryCall>, ListError>
    requires from <= |feed.fates| && maxKeys >= 1 && pageSize >= 1
    decreases |feed.fates| - from
  {
    match CallFrom(feed, pageSize, maxKeys, from, from)
    case Failure(error) => Failure(error)
    case Success(call) =>
      CallFromFits(feed, pageSize, maxKeys, from, from);
      match NextToken(feed, call)
      case None => Success([call])
      case Some(token) =>
        match Walk(feed, pageSize, maxKeys, token)
        case Failure(error) => Failure(error)
        case Success(rest) => Success([call] + rest)
  }

  /** The calls partition the listing from `from` on: each starts where the one before ended,
      the position strictly grows, and the last reaches the end. */
  ghost predicate Chained(fates: seq<Fate>, pageSize: nat, calls: seq<QueryCall>, from: nat) {
    && calls != [] && calls[0].start == from && CallFits(fates, pageSize, calls[0])
    && if |calls| == 1 then calls[0].end == |fates|
       else from < calls[0].end < |fates| && Chained(fates, pageSize, calls[1..], calls[0].end)
  }

  lemma {:induction false} WalkChained(feed: Feed, pageSize: nat, maxKeys: int, from: nat)
    requires from <= |feed.fates| && maxKeys >= 1 && pageSize >= 1
    ensures var calls := Walk(feed, pageSize, maxKeys, from);
            calls.Success? ==> Chained(feed.fates, pageSize, calls.value, from)
    decreases |feed.fates| - from
  {
    CallFromFits(feed, pageSize, maxKeys, from, from);
    var first := CallFrom(feed, pageSize, maxKeys, from, from);
    if first.Success? && first.value.end < |feed.fates| {
      WalkChained(feed, pageSize, maxKeys, first.value.end);
      var rest := Walk(feed, pageSize, maxKeys, first.value.end);
      if rest.Success? {
        assert ([first.value] + rest.value)[1..] == rest.value;
      }
    }
  }

  /** Everything a chain of calls returns, page after page. */
  ghost function Collected(fates: seq<Fate>, pageSize: nat, calls: seq<QueryCall>, from: nat): seq<ExecutionInfo>
    requires Chained(fates, pageSize, calls, from)
  {
    Found(fates, from, calls[0].fill)
    + if |calls| == 1 then [] else Collected(fates, pageSize, calls[1..], calls[0].end)
  }

  /** The matching records behind the fill points of a chain of calls. */
  ghost function LeftBehind(fates: seq<Fate>, pageSize: nat, calls: seq<QueryCall>, from: nat): nat
    requires Chained(fates, pageSize, calls, from)
  {
    |Found(fates, calls[0].fill, calls[0].end)|
    + if |calls| == 1 then 0 else LeftBehind(fates, pageSize, calls[1..], calls[0].end)
  }

  /** Conservation: what a walk returns and what it leaves behind are together all matching
      records. */
  lemma {:induction false} WalkConserves(fates: seq<Fate>, pageSize: nat, calls: seq<QueryCall>, from: nat)
    requires Chained(fates, pageSize, calls, from)
    ensures |Collected(fates, pageSize, calls, from)| + LeftBehind(fates, pageSize, calls, from)
            == |Found(fates, from, |fates|)|
    decreases |calls|
  {
    var call := calls[0];
    FoundSplit(fates, from, call.fill, |fates|);
    FoundSplit(fates, call.fill, call.end, |fates|);
    if |calls| > 1 {
      WalkConserves(fates, pageSize, calls[1..], call.end);
    }
  }

  /** The listing from a call on, when the call leaves nothing behind. */
  lemma SkipsNothing(fates: seq<Fate>, from: nat, fill: nat, end: nat)
    requires from <= fill <= end <= |fates| && |Found(fates, fill, end)| == 0
    ensures Found(fates, from, |fates|) == Found(fates, from, fill) + Found(fates, end, |fates|)
  {
    FoundSplit(fates, from, fill, |fates|);
    FoundSplit(fates, fill, end, |fates|);
    assert Found(fates, fill, end) == [];
  }

  /** A walk that leaves nothing behind returns the filtered listing. */
  lemma {:induction false} NothingLeftIsAll(fates: seq<Fate>, pageSize: nat, calls: seq<QueryCall>, from: nat)
    requires Chained(fates, pageSize, calls, from) && LeftBehind(fates, pageSize, calls, from) == 0
    ensures Collected(fates, pageSize, calls, from) == Found(fates, from, |fates|)
    decreases |calls|
  {
    SkipsNothing(fates, from, calls[0].fill, calls[0].end);
    if |calls| > 1 {
      NothingLeftIsAll(fates, pageSize, calls[1..], calls[0].end);
    }
  }

  /** The stretch of the listing that a call consumes holds no more matching records than a page. */
  predicate FitsPage(fates: seq<Fate>, pageSize: nat, call: QueryCall) {
    call.end <= |fates| && |Found(fates, call.start, call.end)| <= pageSize
  }

  ghost predicate AllFitPage(fates: seq<Fate>, pageSize: nat, calls: seq<QueryCall>) {
    forall call | call in calls :: FitsPage(fates, pageSize, call)
  }

  /** A call leaves nothing behind exactly when its stretch fits a page. */
  lemma CallLeavesNothing(fates: seq<Fate>, pageSize: nat, call: QueryCall)
    requires CallFits(fates, pageSize, call)
    ensures |Found(fates, call.fill, call.end)| == 0 <==> FitsPage(fates, pageSize, call)
  {
    FoundSplit(fates, call.start, call.fill, call.end);
  }

  lemma {:induction false} LeftBehindExactly(fates: seq<Fate>, pageSize: nat, calls: seq<QueryCall>, from: nat)
    requires Chained(fates, pageSize, calls, from)
    ensures LeftBehind(fates, pageSize, calls, from) == 0 <==> AllFitPage(fates, pageSize, calls)
    decreases |calls|
  {
    CallLeavesNothing(fates, pageSize, calls[0]);
    assert calls == [calls[0]] + calls[1..];
    if |calls| > 1 {
      LeftBehindExactly(fates, pageSize, calls[1..], calls[0].end);
    }
  }

  /** A walk returns the filtered listing exactly when every stretch of the listing that one of
      its calls consumes holds at most a page of matching records. */
  lemma WalkExactly(feed: Feed, pageSize: nat, maxKeys: int)
    requires maxKeys >= 1 && pageSize >= 1 && Walk(feed, pageSize, maxKeys, 0).Success?
    ensures var calls := Walk(feed, pageSize, maxKeys, 0).value;
            && Chained(feed.fates, pageSize, calls, 0)
            && (Collected(feed.fates, pageSize, calls, 0) == Found(feed.fates, 0, |feed.fates|)
                <==> AllFitPage(feed.fates, pageSize, calls))
  {
    WalkChained(feed, pageSize, maxKeys, 0);
    var calls := Walk(feed, pageSize, maxKeys, 0).value;
    LeftBehindExactly(feed.fates, pageSize, calls, 0);
    WalkConserves(feed.fates, pageSize, calls, 0);
    if LeftBehind(feed.fates, pageSize, calls, 0) == 0 {
      NothingLeftIsAll(feed.fates, pageSize, calls, 0);
    }
  }

  /** No more matching records than a page anywhere: the walk is complete. */
  lemma {:induction false} SmallListingFits(fates: seq<Fate>, pageSize: nat, calls: seq<QueryCall>, from: nat)
    requires Chained(fates, pageSize, calls, from) && |Found(fates, from, |fates|)| <= pageSize
    ensures AllFitPage(fates, pageSize, calls)
    decreases |calls|
  {
    FoundSplit(fates, from, calls[0].end, |fates|);
    assert calls == [calls[0]] + calls[1..];
    if |calls| > 1 {
      SmallListingFits(fates, pageSize, calls[1..], calls[0].end);
    }
  }

  /** A listing that arrives in one batch gives one page with the first matching records, and no
      token: whatever exceeds the page size is never returned. */
  lemma OneBatchListing(feed: Feed, pageSize: nat, maxKeys: int)
    requires maxKeys >= 1 && pageSize >= 1 && feed.failure(0).None?
    requires BatchEnd(|feed.fates|, feed.chunk, 0, maxKeys) == |feed.fates|
    ensures var calls := Walk(feed, pageSize, maxKeys, 0);
            && calls.Success? && |calls.value| == 1
            && var call := calls.value[0];
               && call.start == 0 && call.fill <= |feed.fates| && NextToken(feed, call) == None
               && var all := Found(feed.fates, 0, |feed.fates|);
                  PageOf(feed, call) == if |all| <= pageSize then all else all[..pageSize]
  {
    var first := CallFrom(feed, pageSize, maxKeys, 0, 0);
    CallFromFits(feed, pageSize, maxKeys, 0, 0);
    FoundSplit(feed.fates, 0, first.value.fill, |feed.fates|);
    CallLeavesNothing(feed.fates, pageSize, first.value);
  }

  // ---- Positions: no object twice, and listing order ----

  /** The listing positions of the matching records. */
  function MatchPositions(fates: seq<Fate>, low: nat, high: nat): seq<nat>
    requires high <= |fates|
    decreases high
  {
    if high <= low then []
    else MatchPositions(fates, low, high - 1) + (if fates[high - 1].Matching? then [high - 1] else [])
  }

  /** `positions` names, in strictly growing order, the objects between `low` and `high` whose
      records are `infos`. */
  ghost predicate Names(fates: seq<Fate>, positions: seq<nat>, infos: seq<ExecutionInfo>, low: nat, high: nat)
    requires high <= |fates|
  {
    && |positions| == |infos|
    && (forall i | 0 <= i < |positions| :: low <= positions[i] < high && fates[positions[i]] == Matching(infos[i]))
    && (forall i, j | 0 <= i < j < |positions| :: positions[i] < positions[j])
  }

  lemma {:induction false} PositionsName(fates: seq<Fate>, low: nat, high: nat)
    requires high <= |fates|
    ensures Names(fates, MatchPositions(fates, low, high), Found(fates, low, high), low, high)
    decreases high
  {
    if low < high {
      PositionsName(fates, low, high - 1);
    }
  }

  /** The listing positions of everything a chain of calls returns. */
  ghost function CollectedPositions(fates: seq<Fate>, pageSize: nat, calls: seq<QueryCall>, from: nat): seq<nat>
    requires Chained(fates, pageSize, calls, from)
  {
    MatchPositions(fates, from, calls[0].fill)
    + if |calls| == 1 then [] else CollectedPositions(fates, pageSize, calls[1..], calls[0].end)
  }

  lemma NamesConcat(fates: seq<Fate>, p: seq<nat>, a: seq<ExecutionInfo>, low: nat, mid: nat,
                    q: seq<nat>, b: seq<ExecutionInfo>, mid': nat, high: nat)
    requires low <= mid <= mid' <= high <= |fates|
    requires Names(fates, p, a, low, mid) && Names(fates, q, b, mid', high)
    ensures Names(fates, p + q, a + b, low, high)
  {
  }

  /** A walk returns no object twice and keeps listing order: its results stand at strictly
      growing positions of the listing. */
  lemma {:induction false} WalkKeepsOrder(fates: seq<Fate>, pageSize: nat, calls: seq<QueryCall>, from: nat)
    requires Chained(fates, pageSize, calls, from)
    ensures Names(fates, CollectedPositions(fates, pageSize, calls, from), Collected(fates, pageSize, calls, from),
                  from, |fates|)
    decreases |calls|
  {
    var call := calls[0];
    PositionsName(fates, from, call.fill);
    if |calls| > 1 {
      WalkKeepsOrder(fates, pageSize, calls[1..], call.end);
      NamesConcat(fates, MatchPositions(fates, from, call.fill), Found(fates, from, call.fill), from, call.fill,
                  CollectedPositions(fates, pageSize, calls[1..], call.end),
                  Collected(fates, pageSize, calls[1..], call.end), call.end, |fates|);
    }
  }

  // ---- Time order ----

  ghost predicate InTimeOrder(infos: seq<ExecutionInfo>) {
    forall i, j | 0 <= i < j < |infos| :: infos[i].closeTime <= infos[j].closeTime
  }

  ghost predicate ListedInTimeOrder(fates: seq<Fate>) {
    forall p, q | 0 <= p < q < |fates| && fates[p].Matching? && fates[q].Matching? ::
      fates[p].info.closeTime <= fates[q].info.closeTime
  }

  /** Results keep the time order of the listing across pages. */
  lemma WalkKeepsTimeOrder(fates: seq<Fate>, pageSize: nat, calls: seq<QueryCall>, from: nat)
    requires Chained(fates, pageSize, calls, from) && ListedInTimeOrder(fates)
    ensures InTimeOrder(Collected(fates, pageSize, calls, from))
  {
    WalkKeepsOrder(fates, pageSize, calls, from);
    NamedInTimeOrder(fates, CollectedPositions(fates, pageSize, calls, from),
                     Collected(fates, pageSize, calls, from), from, |fates|);
  }

  lemma NamedInTimeOrder(fates: seq<Fate>, positions: seq<nat>, infos: seq<ExecutionInfo>, low: nat, high: nat)
    requires high <= |fates| && Names(fates, positions, infos, low, high) && ListedInTimeOrder(fates)
    ensures InTimeOrder(infos)
  {
    forall i, j | 0 <= i < j < |infos|
      ensures infos[i].closeTime <= infos[j].closeTime
    {
      assert fates[positions[i]] == Matching(infos[i]) && fates[positions[j]] == Matching(infos[j]);
    }
  }
}
