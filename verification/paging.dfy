/** Paging over decoded history batches with a one-byte token, and what a reader gets who
    follows the tokens. */
module Paging {
  import opened Wrappers
  import opened Storage

  datatype Page<T> = Page(batches: seq<T>, nextToken: Bytes)

  /** Any token that is not a single byte starts over at the first batch. */
  function StartIndex(token: Bytes): nat {
    if |token| == 1 then token[0] as int else 0
  }

  function Token(index: nat): Bytes {
    [(index % 256) as byte]
  }

  function Paginate<T>(histories: seq<T>, pageSize: int, token: Bytes): Page<T>
    requires pageSize >= 1
  {
    var start := StartIndex(token);
    var end := start + pageSize;
    if start >= |histories| then Page([], [])
    else if end < |histories| then Page(histories[start..end], Token(end))
    else Page(histories[start..], [])
  }

  /** The page holds the batches from the token's index on, as many as fit it, and its token is the low
      byte of the index after them, if there are more; a token that is not one byte means index 0. */
  lemma PageExactly<T>(histories: seq<T>, pageSize: int, token: Bytes)
    requires pageSize >= 1
    ensures var page := Paginate(histories, pageSize, token);
            var start := if |token| == 1 then token[0] as int else 0;
            && |page.batches| == (if start >= |histories| then 0
                                  else if start + pageSize < |histories| then pageSize
                                  else |histories| - start)
            && (forall i | 0 <= i < |page.batches| :: page.batches[i] == histories[start + i])
            && (start + pageSize < |histories| <==> page.nextToken != [])
            && (page.nextToken != [] ==>
                  |page.nextToken| == 1 && (start + pageSize - page.nextToken[0] as int) % 256 == 0)
  {
  }

  /** What a reader has collected who follows tokens until none is returned; None if that
      takes more than `calls` calls. */
  function Follow<T>(histories: seq<T>, pageSize: int, token: Bytes, calls: nat): Option<seq<T>>
    requires pageSize >= 1
    decreases calls
  {
    if calls == 0 then None
    else
      var page := Paginate(histories, pageSize, token);
      if page.nextToken == [] then Some(page.batches)
      else match Follow(histories, pageSize, page.nextToken, calls - 1)
        case None => None
        case Some(rest) => Some(page.batches + rest)
  }

  // ---- Where tokens wrap ----

  /** The first of `index`, `index + pageSize`, ... that no longer fits a byte. */
  function WrapFrom(index: nat, pageSize: int): (w: nat)
    requires pageSize >= 1
    ensures index <= w && 256 <= w && (index < 256 ==> w < 256 + pageSize)
    decreases 256 - index
  {
    if index >= 256 then index else WrapFrom(index + pageSize, pageSize)
  }

  /** The least multiple of the page size that is at least 256. */
  function WrapPoint(pageSize: int): (w: nat)
    requires pageSize >= 1
    ensures 256 <= w < 256 + pageSize
  {
    WrapFrom(0, pageSize)
  }

  lemma {:induction false} WrapFromMultiple(multiple: nat, pageSize: int) returns (pages: nat)
    requires pageSize >= 1 && (multiple == 0 || (multiple - 1) * pageSize < 256)
    ensures WrapFrom(multiple * pageSize, pageSize) == pages * pageSize
    ensures pages > 0 && (pages - 1) * pageSize < 256
    decreases 256 - multiple * pageSize
  {
    if multiple * pageSize >= 256 {
      pages := multiple;
    } else {
      assert (multiple + 1) * pageSize == multiple * pageSize + pageSize;
      pages := WrapFromMultiple(multiple + 1, pageSize);
    }
  }

  /** The wrap point is a multiple of the page size, and the multiple before it is below 256. */
  lemma WrapPointIsLeastMultiple(pageSize: int) returns (pages: nat)
    requires pageSize >= 1
    ensures WrapPoint(pageSize) == pages * pageSize && pages > 0 && (pages - 1) * pageSize < 256
  {
    assert 0 * pageSize == 0;
    pages := WrapFromMultiple(0, pageSize);
  }

  // ---- When the history is rebuilt ----

  /** The same walk by start indices: the index after a page is kept modulo 256. */
  function FollowFrom<T>(histories: seq<T>, pageSize: int, start: nat, calls: nat): Option<seq<T>>
    requires pageSize >= 1
    decreases calls
  {
    if calls == 0 then None
    else if start >= |histories| then Some([])
    else if start + pageSize >= |histories| then Some(histories[start..])
    else match FollowFrom(histories, pageSize, (start + pageSize) % 256, calls - 1)
      case None => None
      case Some(rest) => Some(histories[start..start + pageSize] + rest)
  }

  lemma {:induction false} FollowByIndex<T>(histories: seq<T>, pageSize: int, token: Bytes, calls: nat)
    requires pageSize >= 1
    ensures Follow(histories, pageSize, token, calls) == FollowFrom(histories, pageSize, StartIndex(token), calls)
    decreases calls
  {
    var page := Paginate(histories, pageSize, token);
    if calls > 0 && page.nextToken != [] {
      FollowByIndex(histories, pageSize, page.nextToken, calls - 1);
      assert StartIndex(page.nextToken) == (StartIndex(token) + pageSize) % 256;
    }
  }

  lemma Resume<T>(s: seq<T>, i: nat, j: nat)
    requires i <= j <= |s|
    ensures s[i..j] + s[j..] == s[i..]
  {
  }

  /** As long as no token wraps, following tokens from `start` yields exactly the rest. */
  lemma {:induction false} FollowRebuilds<T>(histories: seq<T>, pageSize: int, start: nat, calls: nat)
    requires pageSize >= 1 && start < 256 && start <= |histories| <= WrapFrom(start, pageSize)
    requires calls > |histories| - start
    ensures FollowFrom(histories, pageSize, start, calls) == Some(histories[start..])
    decreases calls
  {
    var end := start + pageSize;
    if start == |histories| {
      assert histories[start..] == [];
    } else if end < |histories| {
      assert WrapFrom(start, pageSize) == WrapFrom(end, pageSize);
      assert end < 256;
      FollowRebuilds(histories, pageSize, end, calls - 1);
      Resume(histories, start, end);
    }
  }

  /** A walk that ends has read at least everything from its start to the end. */
  lemma {:induction false} FollowCovers<T>(histories: seq<T>, pageSize: int, start: nat, calls: nat)
    requires pageSize >= 1
    ensures var read := FollowFrom(histories, pageSize, start, calls);
            read.Some? ==> |read.value| >= |histories| - start
    decreases calls
  {
    if calls > 0 && start + pageSize < |histories| {
      FollowCovers(histories, pageSize, (start + pageSize) % 256, calls - 1);
    }
  }

  /** The length of what is read: a page, and what is read from the next index. */
  lemma FollowStep<T>(histories: seq<T>, pageSize: int, start: nat, calls: nat)
    requires pageSize >= 1 && calls > 0 && start + pageSize < |histories|
    ensures var read := FollowFrom(histories, pageSize, start, calls);
            var rest := FollowFrom(histories, pageSize, (start + pageSize) % 256, calls - 1);
            && (read.Some? <==> rest.Some?)
            && (read.Some? ==> |read.value| == pageSize + |rest.value|)
  {
  }

  /** Once a token has to wrap, a walk that ends has read at least 256 batches again. */
  lemma {:induction false} FollowRepeats<T>(histories: seq<T>, pageSize: int, start: nat, calls: nat)
    requires pageSize >= 1 && start < 256 && WrapFrom(start, pageSize) < |histories|
    ensures var read := FollowFrom(histories, pageSize, start, calls);
            read.Some? ==> |read.value| >= |histories| - start + 256
    decreases calls
  {
    var end := start + pageSize;
    assert WrapFrom(start, pageSize) == WrapFrom(end, pageSize);
    if calls > 0 {
      FollowStep(histories, pageSize, start, calls);
      if end < 256 {
        FollowRepeats(histories, pageSize, end, calls - 1);
      } else {
        WrapsBack(end);
        FollowCovers(histories, pageSize, end % 256, calls - 1);
      }
    }
  }

  lemma WrapsBack(end: nat)
    requires end >= 256
    ensures end % 256 <= end - 256
  {
  }

  /** One number of calls: the walk is exact up to the wrap point and reads too much beyond it. */
  lemma FollowWithin<T>(histories: seq<T>, pageSize: int, calls: nat)
    requires pageSize >= 1
    ensures |histories| <= WrapPoint(pageSize) && calls > |histories| ==>
              Follow(histories, pageSize, [], calls) == Some(histories)
    ensures |histories| > WrapPoint(pageSize) && Follow(histories, pageSize, [], calls).Some? ==>
              |Follow(histories, pageSize, [], calls).value| >= |histories| + 256
  {
    FollowByIndex(histories, pageSize, [], calls);
    if |histories| > WrapPoint(pageSize) {
      FollowRepeats(histories, pageSize, 0, calls);
    } else if calls > |histories| {
      FollowRebuilds(histories, pageSize, 0, calls);
      assert histories[0..] == histories;
    }
  }

  /** Following tokens from the start ends with the whole history, each batch once, exactly when
      the history is no longer than the least multiple of the page size that is at least 256. */
  lemma FollowExactly<T(!new)>(histories: seq<T>, pageSize: int)
    requires pageSize >= 1
    ensures (exists calls :: Follow(histories, pageSize, [], calls) == Some(histories))
            <==> |histories| <= WrapPoint(pageSize)
  {
    FollowWithin(histories, pageSize, |histories| + 1);
    if calls :| Follow(histories, pageSize, [], calls) == Some(histories) {
      FollowWithin(histories, pageSize, calls);
    }
  }

  /** Far beyond the wrap point every walk goes on for ever, whatever token it starts with. */
  lemma {:induction false} FollowDiverges<T>(histories: seq<T>, pageSize: int, token: Bytes, calls: nat)
    requires pageSize >= 1 && |histories| > 255 + pageSize
    ensures Follow(histories, pageSize, token, calls).None?
    decreases calls
  {
    if calls > 0 {
      FollowDiverges(histories, pageSize, Paginate(histories, pageSize, token).nextToken, calls - 1);
    }
  }

  // ---- Page sizes that divide 256 ----

  /** The token that call number `k` (from 0) of a walk sends, while the walk goes on. */
  function TokenOfCall<T>(histories: seq<T>, pageSize: int, k: nat): Option<Bytes>
    requires pageSize >= 1
  {
    if k == 0 then Some([])
    else match TokenOfCall(histories, pageSize, k - 1)
      case None => None
      case Some(token) =>
        var next := Paginate(histories, pageSize, token).nextToken;
        if next == [] then None else Some(next)
  }

  /** Where call `k` of a walk starts that never gets near the end of the history. */
  function StartOfCall(pageSize: int, k: nat): nat
    requires pageSize >= 1
  {
    if k == 0 then 0 else (StartOfCall(pageSize, k - 1) + pageSize) % 256
  }

  lemma {:induction false} CallInCycle<T>(histories: seq<T>, pageSize: int, k: nat)
    requires pageSize >= 1 && |histories| > 256
    requires forall j | 0 <= j <= k :: StartOfCall(pageSize, j) + pageSize <= 256
    ensures var start := StartOfCall(pageSize, k);
            && TokenOfCall(histories, pageSize, k).Some?
            && StartIndex(TokenOfCall(histories, pageSize, k).value) == start
            && Paginate(histories, pageSize, TokenOfCall(histories, pageSize, k).value).batches
               == histories[start..start + pageSize]
  {
    assert StartOfCall(pageSize, k) + pageSize <= 256;
    if k > 0 {
      assert StartOfCall(pageSize, k - 1) + pageSize <= 256;
      CallInCycle(histories, pageSize, k - 1);
    }
  }

  /** With `cycle` pages to 256 and more than 256 batches the walk never ends: call `k` starts at
      index `pageSize * k` modulo 256, which is 0 again after `cycle` calls, and its page lies
      below 256, so no batch from 256 on is ever returned. */
  lemma WalkCycles<T>(histories: seq<T>, pageSize: int, cycle: nat, k: nat)
    requires pageSize >= 1 && pageSize * cycle == 256 && |histories| > 256
    ensures var start := (pageSize * k) % 256;
            && start + pageSize <= 256
            && TokenOfCall(histories, pageSize, k).Some?
            && StartIndex(TokenOfCall(histories, pageSize, k).value) == start
            && Paginate(histories, pageSize, TokenOfCall(histories, pageSize, k).value).batches
               == histories[start..start + pageSize]
  {
    forall j | 0 <= j <= k
      ensures StartOfCall(pageSize, j) == (pageSize * j) % 256 && StartOfCall(pageSize, j) + pageSize <= 256
    {
      StartIsProduct(pageSize, j);
      var _ := StartInCycle(pageSize, cycle, j);
    }
    CallInCycle(histories, pageSize, k);
  }

  lemma {:induction false} StartIsProduct(pageSize: int, k: nat)
    requires pageSize >= 1
    ensures StartOfCall(pageSize, k) == (pageSize * k) % 256
  {
    if k > 0 {
      StartIsProduct(pageSize, k - 1);
      NextStart(pageSize, k);
    }
  }

  lemma NextStart(pageSize: int, k: nat)
    requires k > 0
    ensures (pageSize * k) % 256 == ((pageSize * (k - 1)) % 256 + pageSize) % 256
  {
    assert pageSize * k == pageSize * (k - 1) + pageSize;
    WrappedSum(pageSize * (k - 1), pageSize);
  }

  lemma WrappedSum(a: int, b: int)
    ensures (a + b) % 256 == (a % 256 + b) % 256
  {
  }

  /** Every start index is that of one of the `cycle` pages. */
  lemma {:induction false} StartInCycle(pageSize: int, cycle: nat, k: nat) returns (page: nat)
    requires pageSize >= 1 && pageSize * cycle == 256
    ensures page < cycle && pageSize * page == (pageSize * k) % 256 && (pageSize * k) % 256 + pageSize <= 256
  {
    if k == 0 {
      page := 0;
    } else {
      page := StartInCycle(pageSize, cycle, k - 1);
      NextStart(pageSize, k);
      NextPage(pageSize, cycle, page);
      page := if page + 1 == cycle then 0 else page + 1;
    }
    WithinCycle(pageSize, cycle, page);
  }

  lemma NextPage(pageSize: int, cycle: nat, page: nat)
    requires pageSize >= 1 && pageSize * cycle == 256 && page < cycle
    ensures (pageSize * page + pageSize) % 256 == pageSize * if page + 1 == cycle then 0 else page + 1
  {
    assert pageSize * (page + 1) == pageSize * page + pageSize;
    if page + 1 < cycle {
      WithinCycle(pageSize, cycle, page + 1);
    }
  }

  lemma WithinCycle(pageSize: int, cycle: nat, page: nat)
    requires pageSize >= 1 && pageSize * cycle == 256
    ensures page < cycle ==> pageSize * page + pageSize <= 256
    ensures cycle > 0 && pageSize * 0 == 0
  {
    var left := cycle - page - 1;
    assert pageSize * cycle == pageSize * page + pageSize + pageSize * left;
    assert left >= 0 ==> pageSize * left >= 0;
  }
}
