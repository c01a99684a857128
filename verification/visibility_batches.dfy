/** Which records a token walk returns, told from the listing alone: its matching records, the
    batches the server cuts it into, and the page size. */
module VisibilityBatches {
  import opened VisibilityWalk

  // ---- The gaps of a walk ----

  /** The matching positions of a stretch of the listing. */
  lemma {:induction false} MatchPositionsExactly(fates: seq<Fate>, low: nat, high: nat, p: nat)
    requires high <= |fates|
    ensures p in MatchPositions(fates, low, high) <==> low <= p < high && fates[p].Matching?
    decreases high
  {
    if low < high {
      MatchPositionsExactly(fates, low, high - 1, p);
      var last := if fates[high - 1].Matching? then [high - 1] else [];
      assert p in last <==> p == high - 1 && fates[p].Matching?;
    }
  }

  lemma {:induction false} ChainStartsLater(fates: seq<Fate>, pageSize: nat, calls: seq<QueryCall>, from: nat)
    requires Chained(fates, pageSize, calls, from)
    ensures forall call | call in calls :: from <= call.start <= call.fill <= call.end <= |fates|
    decreases |calls|
  {
    assert calls == [calls[0]] + calls[1..];
    if |calls| > 1 {
      ChainStartsLater(fates, pageSize, calls[1..], calls[0].end);
    }
  }

  /** The position lies behind the fill point of some call, in what that call has listed. */
  ghost predicate InGap(calls: seq<QueryCall>, p: nat) {
    exists call | call in calls :: call.fill <= p < call.end
  }

  /** The exact set of records a walk yields: the matching ones that lie in no call's gap. */
  lemma {:induction false} CollectedExactly(fates: seq<Fate>, pageSize: nat, calls: seq<QueryCall>, from: nat, p: nat)
    requires Chained(fates, pageSize, calls, from)
    ensures p in CollectedPositions(fates, pageSize, calls, from)
            <==> from <= p < |fates| && fates[p].Matching? && !InGap(calls, p)
    decreases |calls|
  {
    var call := calls[0];
    var rest := calls[1..];
    assert calls == [call] + rest;
    MatchPositionsExactly(fates, from, call.fill, p);
    if |calls| > 1 {
      CollectedExactly(fates, pageSize, rest, call.end, p);
      ChainStartsLater(fates, pageSize, rest, call.end);
    }
  }

  /** The gap of a call lies inside one batch of the listing, the one that ends where the call does. */
  ghost predicate GapInLastBatch(feed: Feed, maxKeys: int, call: QueryCall)
    requires maxKeys >= 1
  {
    exists last | call.start <= last <= call.fill && last <= |feed.fates| ::
      && call.end == BatchEnd(|feed.fates|, feed.chunk, last, maxKeys)
      && (last < |feed.fates| ==> last < call.fill)
  }

  lemma {:induction false} GapsInLastBatch(feed: Feed, pageSize: nat, maxKeys: int, from: nat)
    requires from <= |feed.fates| && maxKeys >= 1 && pageSize >= 1 && Walk(feed, pageSize, maxKeys, from).Success?
    ensures forall call | call in Walk(feed, pageSize, maxKeys, from).value :: GapInLastBatch(feed, maxKeys, call)
    decreases |feed.fates| - from
  {
    CallFromFits(feed, pageSize, maxKeys, from, from);
    var first := CallFrom(feed, pageSize, maxKeys, from, from).value;
    var last := FillInLastBatch(feed, pageSize, maxKeys, from, from);
    assert GapInLastBatch(feed, maxKeys, first);
    if first.end < |feed.fates| {
      GapsInLastBatch(feed, pageSize, maxKeys, first.end);
    }
  }

  // ---- Batch by batch ----

  /** The first elements, up to `room`. */
  function FirstOf(s: seq<nat>, room: nat): seq<nat> {
    if |s| <= room then s else s[..room]
  }

  /** The positions that are served from `from` on when `taken` records are already on the page:
      of each batch the first matching ones that the page has room for. A page that a batch has
      filled is finished with that batch, and the next batch starts an empty one. */
  function Served(feed: Feed, pageSize: nat, maxKeys: int, from: nat, taken: nat): seq<nat>
    requires from <= |feed.fates| && maxKeys >= 1 && taken < pageSize
    decreases |feed.fates| - from
  {
    if from == |feed.fates| then []
    else
      var end := BatchEnd(|feed.fates|, feed.chunk, from, maxKeys);
      var matching := MatchPositions(feed.fates, from, end);
      var sum := taken + |matching|;
      FirstOf(matching, pageSize - taken)
      + Served(feed, pageSize, maxKeys, end, if sum >= pageSize then 0 else sum)
  }

  lemma {:induction false} MatchPositionsSplit(fates: seq<Fate>, low: nat, mid: nat, high: nat)
    requires low <= mid <= high <= |fates|
    ensures MatchPositions(fates, low, high) == MatchPositions(fates, low, mid) + MatchPositions(fates, mid, high)
    decreases high
  {
    if mid < high {
      MatchPositionsSplit(fates, low, mid, high - 1);
    }
  }

  lemma AsManyPositions(fates: seq<Fate>, low: nat, high: nat)
    requires high <= |fates|
    ensures |MatchPositions(fates, low, high)| == |Found(fates, low, high)|
  {
    PositionsName(fates, low, high);
  }

  /** A round takes the first matching positions of its batch that the page has room for. */
  lemma RoundTakes(feed: Feed, pageSize: nat, maxKeys: int, start: nat, from: nat)
    requires start <= from <= |feed.fates| && maxKeys >= 1
    requires |Found(feed.fates, start, from)| < pageSize
    ensures var call := Round(feed, pageSize, maxKeys, start, from);
            var matching := MatchPositions(feed.fates, from, call.end);
            var room := pageSize - |Found(feed.fates, start, from)|;
            MatchPositions(feed.fates, from, call.fill) == FirstOf(matching, room)
  {
    var call := Round(feed, pageSize, maxKeys, start, from);
    FoundSplit(feed.fates, start, from, call.fill);
    AsManyPositions(feed.fates, from, call.fill);
    MatchPositionsSplit(feed.fates, from, call.fill, call.end);
    assert |MatchPositions(feed.fates, from, call.fill)| == |PageOf(feed, call)| - |Found(feed.fates, start, from)|;
    assert call.fill == call.end ==> MatchPositions(feed.fates, call.fill, call.end) == [];
    FirstOfConcat(MatchPositions(feed.fates, from, call.fill), MatchPositions(feed.fates, call.fill, call.end),
                  pageSize - |Found(feed.fates, start, from)|);
  }

  lemma FirstOfConcat(a: seq<nat>, b: seq<nat>, room: nat)
    requires |a| == room || (|a| < room && b == [])
    ensures FirstOf(a + b, room) == a
  {
    assert (a + b)[..|a|] == a;
  }

  /** A round fills the page exactly when its batch holds enough matching records. */
  lemma RoundCounts(feed: Feed, pageSize: nat, maxKeys: int, start: nat, from: nat)
    requires start <= from <= |feed.fates| && maxKeys >= 1
    requires |Found(feed.fates, start, from)| < pageSize
    ensures var call := Round(feed, pageSize, maxKeys, start, from);
            var sum := |Found(feed.fates, start, from)| + |MatchPositions(feed.fates, from, call.end)|;
            |PageOf(feed, call)| == if sum >= pageSize then pageSize else sum
  {
    var call := Round(feed, pageSize, maxKeys, start, from);
    AsManyPositions(feed.fates, from, call.end);
    FoundSplit(feed.fates, start, from, call.end);
    FoundSplit(feed.fates, start, call.fill, call.end);
  }

  lemma ServedStep(feed: Feed, pageSize: nat, maxKeys: int, from: nat, taken: nat, end: nat)
    requires from <= |feed.fates| && maxKeys >= 1 && taken < pageSize
    requires end == BatchEnd(|feed.fates|, feed.chunk, from, maxKeys)
    ensures var matching := MatchPositions(feed.fates, from, end);
            var sum := taken + |matching|;
            Served(feed, pageSize, maxKeys, from, taken)
            == FirstOf(matching, pageSize - taken)
               + Served(feed, pageSize, maxKeys, end, if sum >= pageSize then 0 else sum)
  {
  }

  /** What a round serves is what is served of its batch. */
  lemma RoundServes(feed: Feed, pageSize: nat, maxKeys: int, start: nat, from: nat)
    requires start <= from <= |feed.fates| && maxKeys >= 1
    requires |Found(feed.fates, start, from)| < pageSize
    ensures var call := Round(feed, pageSize, maxKeys, start, from);
            var taken := |PageOf(feed, call)|;
            MatchPositions(feed.fates, from, call.fill)
            + Served(feed, pageSize, maxKeys, call.end, if taken == pageSize then 0 else taken)
            == Served(feed, pageSize, maxKeys, from, |Found(feed.fates, start, from)|)
  {
    var call := Round(feed, pageSize, maxKeys, start, from);
    RoundTakes(feed, pageSize, maxKeys, start, from);
    RoundCounts(feed, pageSize, maxKeys, start, from);
    ServedStep(feed, pageSize, maxKeys, from, |Found(feed.fates, start, from)|, call.end);
  }

  /** What a call and the calls after it serve is what is served batch by batch from its start. */
  lemma {:induction false} CallServes(feed: Feed, pageSize: nat, maxKeys: int, start: nat, from: nat)
    requires start <= from <= |feed.fates| && maxKeys >= 1
    requires |Found(feed.fates, start, from)| < pageSize && CallFrom(feed, pageSize, maxKeys, start, from).Success?
    ensures var call := CallFrom(feed, pageSize, maxKeys, start, from).value;
            && from <= call.fill <= call.end <= |feed.fates|
            && MatchPositions(feed.fates, from, call.fill) + Served(feed, pageSize, maxKeys, call.end, 0)
               == Served(feed, pageSize, maxKeys, from, |Found(feed.fates, start, from)|)
    decreases |feed.fates| - from
  {
    var round := Round(feed, pageSize, maxKeys, start, from);
    RoundServes(feed, pageSize, maxKeys, start, from);
    if !Complete(feed, pageSize, round) {
      CallServes(feed, pageSize, maxKeys, start, round.end);
      var call := CallFrom(feed, pageSize, maxKeys, start, round.end).value;
      MatchPositionsSplit(feed.fates, from, round.end, call.fill);
      Reassociate(MatchPositions(feed.fates, from, round.end), MatchPositions(feed.fates, round.end, call.fill),
                  Served(feed, pageSize, maxKeys, call.end, 0));
    }
  }

  lemma Reassociate<T>(a: seq<T>, b: seq<T>, c: seq<T>)
    ensures (a + b) + c == a + (b + c)
  {
  }

  /** The positions a walk returns are exactly those served batch by batch. */
  lemma {:induction false} WalkServes(feed: Feed, pageSize: nat, maxKeys: int, from: nat)
    requires from <= |feed.fates| && maxKeys >= 1 && pageSize >= 1 && Walk(feed, pageSize, maxKeys, from).Success?
    ensures var calls := Walk(feed, pageSize, maxKeys, from).value;
            && Chained(feed.fates, pageSize, calls, from)
            && CollectedPositions(feed.fates, pageSize, calls, from) == Served(feed, pageSize, maxKeys, from, 0)
    decreases |feed.fates| - from
  {
    WalkChained(feed, pageSize, maxKeys, from);
    CallServes(feed, pageSize, maxKeys, from, from);
    var calls := Walk(feed, pageSize, maxKeys, from).value;
    assert MatchPositions(feed.fates, from, from) == [];
    if |calls| > 1 {
      WalkServes(feed, pageSize, maxKeys, calls[0].end);
      assert calls[1..] == Walk(feed, pageSize, maxKeys, calls[0].end).value;
    }
  }

  // ---- When nothing is lost ----

  /** No batch straddles a multiple of the page size of matching records: with `taken` records on
      the page, every batch ends before the page overflows. */
  predicate NoStraddle(feed: Feed, pageSize: nat, maxKeys: int, from: nat, taken: nat)
    requires from <= |feed.fates| && maxKeys >= 1
    decreases |feed.fates| - from
  {
    from == |feed.fates|
    || var end := BatchEnd(|feed.fates|, feed.chunk, from, maxKeys);
       var sum := taken + |Found(feed.fates, from, end)|;
       sum <= pageSize && NoStraddle(feed, pageSize, maxKeys, end, if sum == pageSize then 0 else sum)
  }

  lemma {:induction false} CallStraddles(feed: Feed, pageSize: nat, maxKeys: int, start: nat, from: nat)
    requires start <= from <= |feed.fates| && maxKeys >= 1
    requires |Found(feed.fates, start, from)| < pageSize && CallFrom(feed, pageSize, maxKeys, start, from).Success?
    ensures var call := CallFrom(feed, pageSize, maxKeys, start, from).value;
            call.end <= |feed.fates|
            && (NoStraddle(feed, pageSize, maxKeys, from, |Found(feed.fates, start, from)|)
                <==> FitsPage(feed.fates, pageSize, call) && NoStraddle(feed, pageSize, maxKeys, call.end, 0))
    decreases |feed.fates| - from
  {
    var round := Round(feed, pageSize, maxKeys, start, from);
    FoundSplit(feed.fates, start, from, round.end);
    FoundSplit(feed.fates, start, round.fill, round.end);
    if !Complete(feed, pageSize, round) {
      CallStraddles(feed, pageSize, maxKeys, start, round.end);
    }
  }

  lemma {:induction false} WalkStraddles(feed: Feed, pageSize: nat, maxKeys: int, from: nat)
    requires from <= |feed.fates| && maxKeys >= 1 && pageSize >= 1 && Walk(feed, pageSize, maxKeys, from).Success?
    ensures AllFitPage(feed.fates, pageSize, Walk(feed, pageSize, maxKeys, from).value)
            <==> NoStraddle(feed, pageSize, maxKeys, from, 0)
    decreases |feed.fates| - from
  {
    WalkChained(feed, pageSize, maxKeys, from);
    CallStraddles(feed, pageSize, maxKeys, from, from);
    var calls := Walk(feed, pageSize, maxKeys, from).value;
    assert calls == [calls[0]] + calls[1..];
    if |calls| > 1 {
      WalkStraddles(feed, pageSize, maxKeys, calls[0].end);
      assert calls[1..] == Walk(feed, pageSize, maxKeys, calls[0].end).value;
    }
  }

  /** Exactly when a token walk returns the filtered listing, told before any call is made: when no
      batch the server cuts straddles a multiple of the page size of matching records. */
  lemma WalkCompleteExactly(feed: Feed, pageSize: nat, maxKeys: int)
    requires maxKeys >= 1 && pageSize >= 1 && Walk(feed, pageSize, maxKeys, 0).Success?
    ensures var calls := Walk(feed, pageSize, maxKeys, 0).value;
            && Chained(feed.fates, pageSize, calls, 0)
            && (Collected(feed.fates, pageSize, calls, 0) == Found(feed.fates, 0, |feed.fates|)
                <==> NoStraddle(feed, pageSize, maxKeys, 0, 0))
  {
    WalkExactly(feed, pageSize, maxKeys);
    WalkStraddles(feed, pageSize, maxKeys, 0);
  }

  // ---- Servers that fill their batches ----

  /** Every batch holds `size` objects, or what is left. */
  ghost predicate FillsBatches(feed: Feed, maxKeys: int, size: int)
    requires maxKeys >= 1
  {
    && size >= 1
    && forall from | 0 <= from <= |feed.fates| ::
         BatchEnd(|feed.fates|, feed.chunk, from, maxKeys)
         == if from + size <= |feed.fates| then from + size else |feed.fates|
  }

  /** How many objects are consumed for one page, which holds `taken` already, in whole batches. */
  function Span(size: int, pageSize: nat, taken: nat): (span: int)
    requires size >= 1
    ensures taken + size <= span && pageSize <= span
    ensures taken < pageSize ==> span < pageSize + size
    decreases pageSize - taken
  {
    if taken + size >= pageSize then taken + size else Span(size, pageSize, taken + size)
  }

  lemma {:induction false} SpanIsMultiple(size: int, pageSize: nat, taken: nat, batches: nat) returns (total: nat)
    requires size >= 1 && taken == size * batches
    ensures Span(size, pageSize, taken) == size * total
    decreases pageSize - taken
  {
    assert size * (batches + 1) == taken + size;
    if taken + size >= pageSize {
      total := batches + 1;
    } else {
      total := SpanIsMultiple(size, pageSize, taken + size, batches + 1);
    }
  }

  /** The next batch stands in the same span, unless it starts the next one. */
  lemma SpanStep(size: int, pageSize: nat, taken: nat, span: int)
    requires size >= 1 && taken < pageSize && Span(size, pageSize, taken) == span == Span(size, pageSize, 0)
    ensures var sum := taken + size;
            && (sum < pageSize || sum == span)
            && Span(size, pageSize, if sum >= pageSize then 0 else sum) == span
  {
  }

  /** A page ends with a batch exactly when its size is a multiple of the batch size. */
  lemma SpanExactly(size: int, pageSize: nat)
    requires size >= 1 && pageSize >= 1
    ensures Span(size, pageSize, 0) == pageSize <==> pageSize % size == 0
  {
    var span := Span(size, pageSize, 0);
    var total := SpanIsMultiple(size, pageSize, 0, 0);
    var q, r := pageSize / size, pageSize % size;
    assert size * (total - q) == (span - pageSize) + r;
    Multiple(size, total - q);
    Multiple(size, total - q - 1);
  }

  /** Where a position stands, when the positions are counted anew after every `span`. */
  function Offset(p: nat, from: nat, span: int): int
    requires span >= 1 && from <= p
    decreases p - from
  {
    if p < from + span then p - from else Offset(p, from + span, span)
  }

  lemma {:induction false} OffsetIsRemainder(p: nat, from: nat, span: int)
    requires span >= 1 && from <= p
    ensures Offset(p, from, span) == (p - from) % span
    decreases p - from
  {
    if p >= from + span {
      OffsetIsRemainder(p, from + span, span);
      var offset := p - from;
      var q, r := offset / span, offset % span;
      var q', r' := (offset - span) / span, (offset - span) % span;
      assert span * (q - 1 - q') == r' - r;
      Multiple(span, q - 1 - q');
    }
  }

  /** The position lies from `from` on and is among the first `pageSize` of its span, where the
      current span started `taken` positions ago. */
  predicate InSpan(p: nat, from: nat, taken: nat, total: nat, pageSize: nat, span: int)
    requires span >= 1 && taken <= from
  {
    from <= p < total && Offset(p, from - taken, span) < pageSize
  }

  lemma InSpanExactly(p: nat, total: nat, pageSize: nat, span: int)
    requires span >= 1
    ensures InSpan(p, 0, 0, total, pageSize, span) <==> p < total && p % span < pageSize
  {
    OffsetIsRemainder(p, 0, span);
  }

  lemma InSpanStep(p: nat, from: nat, taken: nat, end: nat, total: nat, pageSize: nat, span: int)
    requires span >= 1 && taken <= from < end <= total && taken + (end - from) <= span
    requires end < total ==> taken + (end - from) < pageSize || taken + (end - from) == span
    ensures var sum := taken + (end - from);
            InSpan(p, from, taken, total, pageSize, span)
            <==> (from <= p < end && taken + (p - from) < pageSize)
                 || (end < total && InSpan(p, end, if sum >= pageSize then 0 else sum, total, pageSize, span))
  {
  }

  ghost predicate AllMatching(fates: seq<Fate>) {
    forall i | 0 <= i < |fates| :: fates[i].Matching?
  }

  /** One batch, on a page that holds the last `taken` objects before it. */
  lemma FullBatchServes(feed: Feed, pageSize: nat, maxKeys: int, from: nat, taken: nat, end: nat, p: nat)
    requires from < |feed.fates| && maxKeys >= 1 && taken < pageSize && AllMatching(feed.fates)
    requires end == BatchEnd(|feed.fates|, feed.chunk, from, maxKeys)
    ensures var sum := taken + (end - from);
            p in Served(feed, pageSize, maxKeys, from, taken)
            <==> (from <= p < end && taken + (p - from) < pageSize)
                 || (end < |feed.fates|
                     && p in Served(feed, pageSize, maxKeys, end, if sum >= pageSize then 0 else sum))
  {
    var matching := MatchPositions(feed.fates, from, end);
    AllMatch(feed.fates, from, end);
    FirstOfBatch(matching, from, end, pageSize - taken, p);
    var sum := taken + |matching|;
    var rest := Served(feed, pageSize, maxKeys, end, if sum >= pageSize then 0 else sum);
    assert Served(feed, pageSize, maxKeys, from, taken) == FirstOf(matching, pageSize - taken) + rest;
  }

  /** From a batch on, exactly the first `pageSize` objects of every span are served. */
  ghost predicate ServesSpans(feed: Feed, pageSize: nat, maxKeys: int, from: nat, taken: nat, span: int, p: nat)
    requires from <= |feed.fates| && maxKeys >= 1 && taken < pageSize && taken <= from && span >= 1
  {
    p in Served(feed, pageSize, maxKeys, from, taken) <==> InSpan(p, from, taken, |feed.fates|, pageSize, span)
  }

  lemma ServesSpansStep(feed: Feed, pageSize: nat, maxKeys: int, from: nat, taken: nat, end: nat, span: int, p: nat)
    requires from < |feed.fates| && maxKeys >= 1 && taken < pageSize && taken <= from && AllMatching(feed.fates)
    requires end == BatchEnd(|feed.fates|, feed.chunk, from, maxKeys)
    requires span >= 1 && taken + (end - from) <= span
    requires end < |feed.fates| ==> taken + (end - from) < pageSize || taken + (end - from) == span
    requires var sum := taken + (end - from);
             end < |feed.fates| ==>
               ServesSpans(feed, pageSize, maxKeys, end, if sum >= pageSize then 0 else sum, span, p)
    ensures ServesSpans(feed, pageSize, maxKeys, from, taken, span, p)
  {
    FullBatchServes(feed, pageSize, maxKeys, from, taken, end, p);
    InSpanStep(p, from, taken, end, |feed.fates|, pageSize, span);
  }

  /** When every object matches and the server fills its batches, a walk returns the first
      `pageSize` objects of every span of batches that one page consumes, and nothing else. */
  lemma {:induction false} FullBatchesServe(feed: Feed, pageSize: nat, maxKeys: int, size: int, from: nat, taken: nat,
                                            span: int, p: nat)
    requires from <= |feed.fates| && maxKeys >= 1 && taken < pageSize && taken <= from
    requires FillsBatches(feed, maxKeys, size) && AllMatching(feed.fates)
    requires span == Span(size, pageSize, taken) == Span(size, pageSize, 0)
    ensures ServesSpans(feed, pageSize, maxKeys, from, taken, span, p)
    decreases |feed.fates| - from
  {
    if from < |feed.fates| {
      var end, next := NextBatch(feed, pageSize, maxKeys, size, from, taken, span);
      if end < |feed.fates| {
        FullBatchesServe(feed, pageSize, maxKeys, size, end, next, span, p);
      }
      ServesSpansStep(feed, pageSize, maxKeys, from, taken, end, span, p);
    }
  }

  /** Where the next batch starts, and how many positions of its span lie before it. */
  lemma NextBatch(feed: Feed, pageSize: nat, maxKeys: int, size: int, from: nat, taken: nat, span: int)
    returns (end: nat, next: nat)
    requires from < |feed.fates| && maxKeys >= 1 && taken < pageSize && taken <= from
    requires FillsBatches(feed, maxKeys, size) && span == Span(size, pageSize, taken) == Span(size, pageSize, 0)
    ensures from < end <= |feed.fates| && end == BatchEnd(|feed.fates|, feed.chunk, from, maxKeys)
    ensures var sum := taken + (end - from);
            && next == (if sum >= pageSize then 0 else sum) && next < pageSize && next <= end && sum <= span
            && (end < |feed.fates| ==> (sum < pageSize || sum == span) && Span(size, pageSize, next) == span)
  {
    end := BatchEnd(|feed.fates|, feed.chunk, from, maxKeys);
    var sum := taken + (end - from);
    next := if sum >= pageSize then 0 else sum;
    SpanStep(size, pageSize, taken, span);
  }

  /** The same, for the whole walk and told by remainders. */
  lemma WalkOfFullBatches(feed: Feed, pageSize: nat, maxKeys: int, size: int, p: nat)
    requires pageSize >= 1 && maxKeys >= 1 && Walk(feed, pageSize, maxKeys, 0).Success?
    requires FillsBatches(feed, maxKeys, size) && AllMatching(feed.fates)
    ensures var calls := Walk(feed, pageSize, maxKeys, 0).value;
            && Chained(feed.fates, pageSize, calls, 0)
            && (p in CollectedPositions(feed.fates, pageSize, calls, 0)
                <==> p < |feed.fates| && p % Span(size, pageSize, 0) < pageSize)
  {
    WalkServes(feed, pageSize, maxKeys, 0);
    FullBatchesServe(feed, pageSize, maxKeys, size, 0, 0, Span(size, pageSize, 0), p);
    InSpanExactly(p, |feed.fates|, pageSize, Span(size, pageSize, 0));
  }

  lemma {:induction false} AllMatchingFound(fates: seq<Fate>, low: nat, high: nat)
    requires low <= high <= |fates| && AllMatching(fates)
    ensures |Found(fates, low, high)| == high - low
    decreases high
  {
    if low < high {
      AllMatchingFound(fates, low, high - 1);
    }
  }

  /** Full batches straddle no page when the rest fits one, or when pages end with batches. */
  lemma {:induction false} FullBatchesStraddle(feed: Feed, pageSize: nat, maxKeys: int, size: int, from: nat,
                                               taken: nat, span: int)
    requires from <= |feed.fates| && maxKeys >= 1 && taken < pageSize && taken <= from
    requires FillsBatches(feed, maxKeys, size) && AllMatching(feed.fates)
    requires span == Span(size, pageSize, taken) == Span(size, pageSize, 0)
    ensures NoStraddle(feed, pageSize, maxKeys, from, taken)
            <==> taken + (|feed.fates| - from) <= pageSize || span == pageSize
    decreases |feed.fates| - from
  {
    if from < |feed.fates| {
      var end := BatchEnd(|feed.fates|, feed.chunk, from, maxKeys);
      var sum := taken + (end - from);
      AllMatchingFound(feed.fates, from, end);
      SpanStep(size, pageSize, taken, span);
      if end < |feed.fates| && sum <= pageSize {
        FullBatchesStraddle(feed, pageSize, maxKeys, size, end, if sum == pageSize then 0 else sum, span);
      }
    }
  }

  lemma {:induction false} AllMatch(fates: seq<Fate>, low: nat, high: nat)
    requires low <= high <= |fates| && AllMatching(fates)
    ensures Consecutive(MatchPositions(fates, low, high), low, high)
    decreases high
  {
    if low < high {
      AllMatch(fates, low, high - 1);
    }
  }

  ghost predicate Consecutive(positions: seq<nat>, low: nat, high: nat) {
    |positions| == high - low && forall i | 0 <= i < |positions| :: positions[i] == low + i
  }

  lemma FirstOfBatch(positions: seq<nat>, low: nat, high: nat, room: nat, p: nat)
    requires Consecutive(positions, low, high)
    ensures p in FirstOf(positions, room) <==> low <= p < high && p - low < room
  {
    if low <= p < high && p - low < room {
      assert FirstOf(positions, room)[p - low] == p;
    }
  }

  lemma Multiple(n: int, d: int)
    requires n >= 1
    ensures d >= 1 ==> n * d >= n
    ensures d <= -1 ==> n * d <= -n
    ensures d == 0 ==> n * d == 0
  {
  }
}
