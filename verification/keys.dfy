/** The object keys of archived histories and visibility records.
    `Joined(a, '/', b)` is `a`, a slash, `b`. */
module Keys {
  import opened Wrappers
  import opened Text
  import Calendar

  /** The URI path without one leading slash. */
  function TrimSlash(path: string): string {
    if path != [] && path[0] == '/' then path[1..] else path
  }

  // ---- History keys ----

  const HISTORY_SUFFIX := ".history.gz"

  function HistoryKey(uriPath: string, namespaceId: string, workflowId: string, runId: string,
                      closeFailoverVersion: int): string
  {
    Joined(TrimSlash(uriPath), '/',
           Joined(namespaceId, '/',
                  Joined(workflowId, '/',
                         Joined(runId, '_', SignedDecimal(closeFailoverVersion) + HISTORY_SUFFIX))))
  }

  /** `path` is a URI path for the key prefix `root`, which is written with or without a leading slash. */
  predicate PathOf(path: string, root: string) {
    path == "/" + root || (path == root && (root == "" || root[0] != '/'))
  }

  /** The documented format of a history key. */
  lemma HistoryKeyFormat(path: string, root: string, namespaceId: string, workflowId: string, runId: string,
                         closeFailoverVersion: int)
    requires PathOf(path, root)
    ensures HistoryKey(path, namespaceId, workflowId, runId, closeFailoverVersion)
            == root + "/" + namespaceId + "/" + workflowId + "/" + runId + "_" + SignedDecimal(closeFailoverVersion)
               + ".history.gz"
  {
    assert TrimSlash(path) == root;
  }

  /** The part of a history key that names the execution. */
  function ExecutionText(namespaceId: string, workflowId: string, runId: string): string {
    Joined(namespaceId, '/', Joined(workflowId, '/', runId))
  }

  lemma HistoryKeyParts(uriPath: string, ns: string, wf: string, run: string, version: int)
    ensures HistoryKey(uriPath, ns, wf, run, version)
            == Joined(TrimSlash(uriPath), '/',
                      Joined(ExecutionText(ns, wf, run), '_', SignedDecimal(version) + HISTORY_SUFFIX))
  {
    var tail := SignedDecimal(version) + HISTORY_SUFFIX;
    JoinedAssociative(wf, '/', run, '_', tail);
    JoinedAssociative(ns, '/', Joined(wf, '/', run), '_', tail);
  }

  /** Reads the execution text and the failover version back from a history key. */
  function SplitHistoryKey(uriPath: string, key: string): Option<(string, int)> {
    var start := |TrimSlash(uriPath)| + 1;
    if |key| < start then None
    else match SplitLast(key[start..], '_')
      case None => None
      case Some((execution, tail)) =>
        if |tail| < |HISTORY_SUFFIX| then None
        else
          var version := tail[..|tail| - |HISTORY_SUFFIX|];
          if forall c :: c in version ==> IsDigit(c) || c == '-'
          then Some((execution, SignedNumberOf(version)))
          else None
  }

  /** Reads all four fields back from a history key. */
  function ParseHistoryKey(uriPath: string, key: string): Option<(string, string, string, int)> {
    match SplitHistoryKey(uriPath, key)
    case None => None
    case Some((execution, version)) =>
      match SplitFirst(execution, '/')
      case None => None
      case Some((namespaceId, rest)) =>
        match SplitLast(rest, '/')
        case None => None
        case Some((workflowId, runId)) => Some((namespaceId, workflowId, runId, version))
  }

  lemma SplitHistoryKeyOfKey(uriPath: string, ns: string, wf: string, run: string, version: int)
    ensures SplitHistoryKey(uriPath, HistoryKey(uriPath, ns, wf, run, version))
            == Some((ExecutionText(ns, wf, run), version))
  {
    HistoryKeyParts(uriPath, ns, wf, run, version);
    SplitTail(TrimSlash(uriPath), ExecutionText(ns, wf, run), version);
  }

  lemma SplitTail(root: string, execution: string, version: int)
    ensures var tail := SignedDecimal(version) + HISTORY_SUFFIX;
            var key := Joined(root, '/', Joined(execution, '_', tail));
            && |key| >= |root| + 1
            && SplitLast(key[|root| + 1..], '_') == Some((execution, tail))
            && tail[..|tail| - |HISTORY_SUFFIX|] == SignedDecimal(version)
            && SignedNumberOf(SignedDecimal(version)) == version
  {
    var tail := SignedDecimal(version) + HISTORY_SUFFIX;
    var middle := Joined(execution, '_', tail);
    assert Joined(root, '/', middle)[|root| + 1..] == middle;
    SplitLastAt(execution, '_', tail);
    SignedDecimalRoundTrip(version);
  }

  /** A parser recovers all four fields; the workflow ID may contain slashes. */
  lemma HistoryKeyRoundTrip(uriPath: string, namespaceId: string, workflowId: string, runId: string, version: int)
    requires '/' !in namespaceId && '/' !in runId
    ensures ParseHistoryKey(uriPath, HistoryKey(uriPath, namespaceId, workflowId, runId, version))
            == Some((namespaceId, workflowId, runId, version))
  {
    SplitHistoryKeyOfKey(uriPath, namespaceId, workflowId, runId, version);
    SplitFirstAt(namespaceId, '/', Joined(workflowId, '/', runId));
    SplitLastAt(workflowId, '/', runId);
  }

  /** Exactly when two executions share a key, for any IDs whatever: same version and same
      slash-joined IDs. So slashes in IDs are the only way to collide. */
  lemma HistoryKeyCollision(uriPath: string, ns: string, wf: string, run: string, version: int,
                            ns': string, wf': string, run': string, version': int)
    ensures HistoryKey(uriPath, ns, wf, run, version) == HistoryKey(uriPath, ns', wf', run', version')
            <==> ExecutionText(ns, wf, run) == ExecutionText(ns', wf', run') && version == version'
  {
    SplitHistoryKeyOfKey(uriPath, ns, wf, run, version);
    SplitHistoryKeyOfKey(uriPath, ns', wf', run', version');
    HistoryKeyParts(uriPath, ns, wf, run, version);
    HistoryKeyParts(uriPath, ns', wf', run', version');
  }

  /** Distinct executions never share a key when namespace and run IDs hold no slash. */
  lemma HistoryKeyInjective(uriPath: string, ns: string, wf: string, run: string, version: int,
                            ns': string, wf': string, run': string, version': int)
    requires '/' !in ns && '/' !in run && '/' !in ns' && '/' !in run'
    ensures HistoryKey(uriPath, ns, wf, run, version) == HistoryKey(uriPath, ns', wf', run', version')
            <==> ns == ns' && wf == wf' && run == run' && version == version'
  {
    HistoryKeyRoundTrip(uriPath, ns, wf, run, version);
    HistoryKeyRoundTrip(uriPath, ns', wf', run', version');
  }

  /** A slash in a namespace ID breaks it: namespace `n/x` with workflow `w` collides with
      namespace `n` and workflow `x/w`. */
  lemma SlashInNamespaceCollides(uriPath: string, n: string, x: string, w: string, run: string, version: int)
    ensures HistoryKey(uriPath, Joined(n, '/', x), w, run, version)
            == HistoryKey(uriPath, n, Joined(x, '/', w), run, version)
  {
    JoinedAssociative(n, '/', x, '/', Joined(w, '/', run));
    JoinedAssociative(x, '/', w, '/', run);
    HistoryKeyCollision(uriPath, Joined(n, '/', x), w, run, version, n, Joined(x, '/', w), run, version);
  }

  // ---- Visibility keys ----

  const VISIBILITY_SUFFIX := ".visibility.gz"

  /** The first eight bytes of a run ID. */
  function ShortRunId(runId: string): string {
    if |runId| > 8 then runId[..8] else runId
  }

  function StampText(runId: string, closeTime: int): string {
    Joined(SignedDecimal(closeTime), '_', ShortRunId(runId) + VISIBILITY_SUFFIX)
  }

  function DatedText(date: Calendar.Date, rest: string): string {
    Joined(Padded(date.year, 4), '/', Joined(Padded(date.month, 2), '/', Joined(Padded(date.day, 2), '/', rest)))
  }

  /** What follows the namespace in a visibility key: date partition, time stamp, short run ID. */
  function VisibilityTail(runId: string, closeTime: int): string {
    DatedText(Calendar.DateOfInstant(closeTime), StampText(runId, closeTime))
  }

  /** `closeTime` is in Unix nanoseconds. */
  function VisibilityKey(uriPath: string, namespaceId: string, runId: string, closeTime: int): string {
    Joined(TrimSlash(uriPath), '/', Joined(namespaceId, '/', VisibilityTail(runId, closeTime)))
  }

  function VisibilityPrefix(uriPath: string, namespaceId: string): string {
    Joined(TrimSlash(uriPath), '/', Joined(namespaceId, '/', ""))
  }

  /** The documented format of a visibility key and of its prefix; the date is the UTC date on which
      the close time lies `nanos` after midnight. */
  lemma VisibilityKeyFormat(path: string, root: string, namespaceId: string, runId: string, date: Calendar.Date,
                            nanos: int, closeTime: int)
    requires PathOf(path, root) && Calendar.ValidDate(date) && 0 <= nanos < 86_400_000_000_000
    requires closeTime == Calendar.DayNumber(date) * 86_400_000_000_000 + nanos
    ensures VisibilityPrefix(path, namespaceId) == root + "/" + namespaceId + "/"
    ensures var short := if |runId| > 8 then runId[..8] else runId;
            VisibilityKey(path, namespaceId, runId, closeTime)
            == root + "/" + namespaceId + "/" + Padded(date.year, 4) + "/" + Padded(date.month, 2) + "/"
               + Padded(date.day, 2) + "/" + SignedDecimal(closeTime) + "_" + short + ".visibility.gz"
  {
    Calendar.InstantOnDate(date, nanos);
    KeyText(path, root, namespaceId, runId, closeTime, date);
    assert VisibilityPrefix(path, namespaceId) == root + "/" + namespaceId + "/";
  }

  lemma KeyText(path: string, root: string, ns: string, run: string, time: int, date: Calendar.Date)
    requires PathOf(path, root) && date == Calendar.DateOfInstant(time)
    ensures VisibilityKey(path, ns, run, time)
            == root + "/" + ns + "/" + Padded(date.year, 4) + "/" + Padded(date.month, 2) + "/" + Padded(date.day, 2)
               + "/" + SignedDecimal(time) + "_" + ShortRunId(run) + ".visibility.gz"
  {
    assert TrimSlash(path) == root;
    FormatText(root, ns, Padded(date.year, 4), Padded(date.month, 2), Padded(date.day, 2), SignedDecimal(time),
               ShortRunId(run));
  }

  lemma FormatText(root: string, ns: string, year: string, month: string, day: string, time: string, run: string)
    ensures Joined(root, '/', Joined(ns, '/', Joined(year, '/', Joined(month, '/', Joined(day, '/',
              Joined(time, '_', run + VISIBILITY_SUFFIX))))))
            == root + "/" + ns + "/" + year + "/" + month + "/" + day + "/" + time + "_" + run + ".visibility.gz"
  {
  }

  /** The stamp determines the close time and the short run ID. */
  lemma StampInjective(run: string, time: int, run': string, time': int)
    requires StampText(run, time) == StampText(run', time')
    ensures time == time' && ShortRunId(run) == ShortRunId(run')
  {
    var rest, rest' := ShortRunId(run) + VISIBILITY_SUFFIX, ShortRunId(run') + VISIBILITY_SUFFIX;
    JoinedInjective(SignedDecimal(time), '_', rest, SignedDecimal(time'), rest');
    SignedDecimalRoundTrip(time);
    SignedDecimalRoundTrip(time');
    SameTail(ShortRunId(run), ShortRunId(run'), VISIBILITY_SUFFIX);
  }

  lemma DatedInjective(date: Calendar.Date, rest: string, date': Calendar.Date, rest': string)
    requires DatedText(date, rest) == DatedText(date', rest')
    ensures rest == rest'
  {
    var year, month, day := Padded(date.year, 4), Padded(date.month, 2), Padded(date.day, 2);
    var year', month', day' := Padded(date'.year, 4), Padded(date'.month, 2), Padded(date'.day, 2);
    var afterMonth, afterMonth' := Joined(day, '/', rest), Joined(day', '/', rest');
    JoinedInjective(year, '/', Joined(month, '/', afterMonth), year', Joined(month', '/', afterMonth'));
    JoinedInjective(month, '/', afterMonth, month', afterMonth');
    JoinedInjective(day, '/', rest, day', rest');
  }

  /** The run IDs are the same, or both have eight bytes and agree on the first eight. */
  predicate SameFirstEight(run: string, run': string) {
    run == run' || (|run| >= 8 && |run'| >= 8 && run[..8] == run'[..8])
  }

  lemma ShortRunIdExactly(run: string, run': string)
    ensures ShortRunId(run) == ShortRunId(run') <==> SameFirstEight(run, run')
  {
    assert |run| == 8 ==> run[..8] == run;
    assert |run'| == 8 ==> run'[..8] == run';
  }

  /** Two records share a key exactly when namespace, close time and the first eight
      bytes of the run ID agree. */
  lemma VisibilityKeyCollision(uriPath: string, ns: string, run: string, time: int,
                               ns': string, run': string, time': int)
    requires '/' !in ns && '/' !in ns'
    ensures VisibilityKey(uriPath, ns, run, time) == VisibilityKey(uriPath, ns', run', time')
            <==> ns == ns' && time == time' && SameFirstEight(run, run')
  {
    ShortRunIdExactly(run, run');
    var tail, tail' := VisibilityTail(run, time), VisibilityTail(run', time');
    if VisibilityKey(uriPath, ns, run, time) == VisibilityKey(uriPath, ns', run', time') {
      JoinedSameHead(TrimSlash(uriPath), '/', Joined(ns, '/', tail), Joined(ns', '/', tail'));
      JoinedInjective(ns, '/', tail, ns', tail');
      DatedInjective(Calendar.DateOfInstant(time), StampText(run, time),
                     Calendar.DateOfInstant(time'), StampText(run', time'));
      StampInjective(run, time, run', time');
    }
  }

  /** Listing by the prefix of one namespace finds exactly the records of that namespace. */
  lemma PrefixSelectsNamespace(uriPath: string, ns: string, ns': string, run: string, time: int)
    requires '/' !in ns && '/' !in ns'
    ensures VisibilityPrefix(uriPath, ns) <= VisibilityKey(uriPath, ns', run, time) <==> ns == ns'
  {
    var tail := VisibilityTail(run, time);
    PrefixAfterHead(TrimSlash(uriPath), '/', Joined(ns, '/', ""), Joined(ns', '/', tail));
    PrefixOfField(ns, '/', "", ns', tail);
  }

  // ---- Date ranges ----

  /** The prefix of what one namespace closed in a year, in a month, on a day. */
  function YearPrefix(uriPath: string, namespaceId: string, year: int): string {
    Joined(TrimSlash(uriPath), '/', Joined(namespaceId, '/', Joined(Padded(year, 4), '/', "")))
  }

  function MonthPrefix(uriPath: string, namespaceId: string, year: int, month: int): string {
    Joined(TrimSlash(uriPath), '/',
           Joined(namespaceId, '/', Joined(Padded(year, 4), '/', Joined(Padded(month, 2), '/', ""))))
  }

  function DayPrefix(uriPath: string, namespaceId: string, date: Calendar.Date): string {
    Joined(TrimSlash(uriPath), '/', Joined(namespaceId, '/', DatedText(date, "")))
  }

  lemma PrefixOfTail(uriPath: string, ns: string, tail: string, ns': string, run: string, time: int)
    requires '/' !in ns && '/' !in ns'
    ensures Joined(TrimSlash(uriPath), '/', Joined(ns, '/', tail)) <= VisibilityKey(uriPath, ns', run, time)
            <==> ns == ns' && tail <= VisibilityTail(run, time)
  {
    PrefixAfterHead(TrimSlash(uriPath), '/', Joined(ns, '/', tail), Joined(ns', '/', VisibilityTail(run, time)));
    PrefixOfField(ns, '/', tail, ns', VisibilityTail(run, time));
  }

  lemma PrefixOfNumber(m: int, rest: string, n: int, rest': string, width: nat)
    requires width >= 1
    ensures Joined(Padded(m, width), '/', rest) <= Joined(Padded(n, width), '/', rest') <==> m == n && rest <= rest'
  {
    PrefixOfField(Padded(m, width), '/', rest, Padded(n, width), rest');
    PaddedInjective(m, n, width);
  }

  /** A prefix down to a year, a month or a day selects exactly the records of the namespace that
      closed in it: on the UTC date `closed`, `nanos` after its midnight. */
  lemma PrefixSelectsDates(uriPath: string, ns: string, date: Calendar.Date, ns': string, run: string,
                           closed: Calendar.Date, nanos: int, time: int)
    requires '/' !in ns && '/' !in ns' && Calendar.ValidDate(closed) && 0 <= nanos < 86_400_000_000_000
    requires time == Calendar.DayNumber(closed) * 86_400_000_000_000 + nanos
    ensures var key := VisibilityKey(uriPath, ns', run, time);
            && (YearPrefix(uriPath, ns, date.year) <= key <==> ns == ns' && closed.year == date.year)
            && (MonthPrefix(uriPath, ns, date.year, date.month) <= key
                <==> ns == ns' && closed.year == date.year && closed.month == date.month)
            && (DayPrefix(uriPath, ns, date) <= key <==> ns == ns' && closed == date)
  {
    Calendar.InstantOnDate(closed, nanos);
    PrefixMatchesDates(uriPath, ns, date, ns', run, time);
  }

  lemma PrefixMatchesDates(uriPath: string, ns: string, date: Calendar.Date, ns': string, run: string, time: int)
    requires '/' !in ns && '/' !in ns'
    ensures var key := VisibilityKey(uriPath, ns', run, time);
            var closed := Calendar.DateOfInstant(time);
            && (YearPrefix(uriPath, ns, date.year) <= key <==> ns == ns' && closed.year == date.year)
            && (MonthPrefix(uriPath, ns, date.year, date.month) <= key
                <==> ns == ns' && closed.year == date.year && closed.month == date.month)
            && (DayPrefix(uriPath, ns, date) <= key <==> ns == ns' && closed == date)
  {
    var closed, stamp := Calendar.DateOfInstant(time), StampText(run, time);
    var year, month, day := Padded(date.year, 4), Padded(date.month, 2), Padded(date.day, 2);
    var afterMonth := Joined(Padded(closed.day, 2), '/', stamp);
    var afterYear := Joined(Padded(closed.month, 2), '/', afterMonth);
    PrefixOfTail(uriPath, ns, Joined(year, '/', ""), ns', run, time);
    PrefixOfTail(uriPath, ns, Joined(year, '/', Joined(month, '/', "")), ns', run, time);
    PrefixOfTail(uriPath, ns, DatedText(date, ""), ns', run, time);
    PrefixOfNumber(date.year, "", closed.year, afterYear, 4);
    PrefixOfNumber(date.year, Joined(month, '/', ""), closed.year, afterYear, 4);
    PrefixOfNumber(date.year, Joined(month, '/', Joined(day, '/', "")), closed.year, afterYear, 4);
    PrefixOfNumber(date.month, "", closed.month, afterMonth, 2);
    PrefixOfNumber(date.month, Joined(day, '/', ""), closed.month, afterMonth, 2);
    PrefixOfNumber(date.day, "", closed.day, stamp, 2);
  }

  /** The prefix of day `n` after the epoch selects exactly the records of the namespace that closed
      on that day. */
  lemma PrefixSelectsDay(uriPath: string, ns: string, n: int, ns': string, run: string, time: int)
    requires '/' !in ns && '/' !in ns'
    ensures DayPrefix(uriPath, ns, Calendar.DateOfDay(n)) <= VisibilityKey(uriPath, ns', run, time)
            <==> ns == ns' && n * 86_400_000_000_000 <= time < (n + 1) * 86_400_000_000_000
  {
    PrefixMatchesDates(uriPath, ns, Calendar.DateOfDay(n), ns', run, time);
    Calendar.DateOfDayRoundTrip(n);
    Calendar.DateOfDayRoundTrip(Calendar.DayOfInstant(time));
    assert Calendar.DayOfInstant(time) == n <==> n * 86_400_000_000_000 <= time < (n + 1) * 86_400_000_000_000;
  }

  // ---- Time order ----

  lemma DatedOrder(a: Calendar.Date, rest: string, b: Calendar.Date, rest': string)
    requires Calendar.ValidDate(a) && Calendar.ValidDate(b)
    requires 0 <= a.year < 10000 && 0 <= b.year < 10000
    requires Calendar.Before(a, b)
    ensures Less(DatedText(a, rest), DatedText(b, rest'))
  {
    assert Pow10(4) == 10000 && Pow10(2) == 100;
    var year, month, day := Padded(a.year, 4), Padded(a.month, 2), Padded(a.day, 2);
    var year', month', day' := Padded(b.year, 4), Padded(b.month, 2), Padded(b.day, 2);
    var afterMonth, afterMonth' := Joined(day, '/', rest), Joined(day', '/', rest');
    var afterYear, afterYear' := Joined(month, '/', afterMonth), Joined(month', '/', afterMonth');
    if a.year < b.year {
      PaddedField(a.year, b.year, 4, '/', afterYear, afterYear');
    } else {
      LessJoined(year, '/', afterYear, afterYear');
      if a.month < b.month {
        PaddedField(a.month, b.month, 2, '/', afterMonth, afterMonth');
      } else {
        LessJoined(month, '/', afterMonth, afterMonth');
        PaddedField(a.day, b.day, 2, '/', rest, rest');
      }
    }
  }

  lemma PaddedField(m: nat, n: nat, width: nat, c: char, rest: string, rest': string)
    requires width >= 1 && m < n < Pow10(width)
    ensures Less(Joined(Padded(m, width), c, rest), Joined(Padded(n, width), c, rest'))
  {
    PaddedWidth(m, width);
    PaddedWidth(n, width);
    PaddedOrder(m, n, width);
    LessJoinedField(Padded(m, width), Padded(n, width), c, rest, rest');
  }

  /** One past the largest nanosecond count of a 64-bit timestamp, in the year 2262. */
  const NANO_LIMIT: int := 0x8000_0000_0000_0000

  lemma YearFitsFourDigits(closeTime: nat)
    requires closeTime < NANO_LIMIT
    ensures 1970 <= Calendar.DateOfInstant(closeTime).year < 10000
  {
    var day := Calendar.DayOfInstant(closeTime);
    assert 0 <= day < 106_752;
    Calendar.YearBound(day);
  }

  lemma StampOrder(run: string, time: nat, run': string, time': nat)
    requires time < time' && |Decimal(time)| == |Decimal(time')|
    ensures Less(StampText(run, time), StampText(run', time'))
  {
    DecimalOrder(time, time');
    LessJoinedField(Decimal(time), Decimal(time'), '_',
                    ShortRunId(run) + VISIBILITY_SUFFIX, ShortRunId(run') + VISIBILITY_SUFFIX);
  }

  lemma KeyOrderIsTailOrder(uriPath: string, ns: string, run: string, time: int, run': string, time': int)
    ensures Less(VisibilityKey(uriPath, ns, run, time), VisibilityKey(uriPath, ns, run', time'))
            == Less(VisibilityTail(run, time), VisibilityTail(run', time'))
  {
    var tail, tail' := VisibilityTail(run, time), VisibilityTail(run', time');
    LessJoined(ns, '/', tail, tail');
    LessJoined(TrimSlash(uriPath), '/', Joined(ns, '/', tail), Joined(ns, '/', tail'));
  }

  lemma DatedSameDate(date: Calendar.Date, stamp: string, stamp': string)
    ensures Less(DatedText(date, stamp), DatedText(date, stamp')) == Less(stamp, stamp')
  {
    var year, month, day := Padded(date.year, 4), Padded(date.month, 2), Padded(date.day, 2);
    LessJoined(day, '/', stamp, stamp');
    LessJoined(month, '/', Joined(day, '/', stamp), Joined(day, '/', stamp'));
    LessJoined(year, '/', Joined(month, '/', Joined(day, '/', stamp)), Joined(month, '/', Joined(day, '/', stamp')));
  }

  /** Records of one day are listed by their stamps. */
  lemma SameDayOrder(uriPath: string, ns: string, run: string, time: int, run': string, time': int)
    requires Calendar.DayOfInstant(time) == Calendar.DayOfInstant(time')
    ensures Less(VisibilityKey(uriPath, ns, run, time), VisibilityKey(uriPath, ns, run', time'))
            == Less(StampText(run, time), StampText(run', time'))
  {
    KeyOrderIsTailOrder(uriPath, ns, run, time, run', time');
    DatedSameDate(Calendar.DateOfInstant(time), StampText(run, time), StampText(run', time'));
  }

  /** An earlier record has a byte-wise smaller key, whatever the run IDs, when both
      nanosecond counts have the same number of digits. */
  lemma EarlierKeyIsLess(uriPath: string, namespaceId: string, run: string, time: nat, run': string, time': nat)
    requires time < time' < NANO_LIMIT && |Decimal(time)| == |Decimal(time')|
    ensures Less(VisibilityKey(uriPath, namespaceId, run, time), VisibilityKey(uriPath, namespaceId, run', time'))
  {
    if Calendar.DayOfInstant(time) < Calendar.DayOfInstant(time') {
      Calendar.DateMonotone(Calendar.DayOfInstant(time), Calendar.DayOfInstant(time'));
      YearFitsFourDigits(time);
      YearFitsFourDigits(time');
      DatedOrder(Calendar.DateOfInstant(time), StampText(run, time),
                 Calendar.DateOfInstant(time'), StampText(run', time'));
      KeyOrderIsTailOrder(uriPath, namespaceId, run, time, run', time');
    } else {
      SameDayOrder(uriPath, namespaceId, run, time, run', time');
      StampOrder(run, time, run', time');
    }
  }

  /** One below a power of ten starts with a nine, the power itself with a one. */
  lemma {:induction false} LeadingDigits(k: nat)
    requires k >= 1
    ensures Decimal(Pow10(k) - 1)[0] == '9' && Decimal(Pow10(k))[0] == '1'
  {
    assert Pow10(k) == 10 * Pow10(k - 1);
    if k > 1 {
      LeadingDigits(k - 1);
    }
  }

  /** A power of ten is one more than a multiple of nine. */
  lemma {:induction false} PowerModNine(k: nat) returns (nines: nat)
    ensures Pow10(k) == 9 * nines + 1
  {
    if k == 0 {
      nines := 0;
    } else {
      nines := PowerModNine(k - 1);
      nines := 10 * nines + 1;
    }
  }

  lemma NotMidnight(n: nat, nines: nat)
    requires n == 9 * nines + 1
    ensures Calendar.DayOfInstant(n - 1) == Calendar.DayOfInstant(n)
  {
    var days := n / Calendar.NANOS_PER_DAY;
    assert n == 9 * (9_600_000_000_000 * days) + n % Calendar.NANOS_PER_DAY;
  }

  /** Where the digit count grows, the later record gets the smaller key. No power of ten
      nanoseconds falls on midnight, so both records are on the same day. */
  lemma KeyOrderFlipsAtPower(uriPath: string, namespaceId: string, run: string, run': string, k: nat, time: nat)
    requires k >= 1 && time == Pow10(k)
    ensures Less(VisibilityKey(uriPath, namespaceId, run', time), VisibilityKey(uriPath, namespaceId, run, time - 1))
    ensures !Less(VisibilityKey(uriPath, namespaceId, run, time - 1), VisibilityKey(uriPath, namespaceId, run', time))
  {
    var nines := PowerModNine(k);
    NotMidnight(time, nines);
    SameDayOrder(uriPath, namespaceId, run', time, run, time - 1);
    SameDayOrder(uriPath, namespaceId, run, time - 1, run', time);
    StampOrderFlips(run, run', k, time);
  }

  lemma StampOrderFlips(run: string, run': string, k: nat, time: nat)
    requires k >= 1 && time == Pow10(k)
    ensures Less(StampText(run', time), StampText(run, time - 1))
    ensures !Less(StampText(run, time - 1), StampText(run', time))
  {
    LeadingDigits(k);
    assert StampText(run', time)[0] == '1' && StampText(run, time - 1)[0] == '9';
  }

  /** The keys of one namespace are in close-time order throughout an interval of instants. */
  ghost predicate TimeOrdered(uriPath: string, namespaceId: string, low: nat, high: nat) {
    forall run, time, run', time' | low <= time < time' <= high ::
      Less(VisibilityKey(uriPath, namespaceId, run, time), VisibilityKey(uriPath, namespaceId, run', time'))
  }

  lemma SameWidthIsOrdered(uriPath: string, namespaceId: string, low: nat, high: nat)
    requires low <= high < NANO_LIMIT && |Decimal(low)| == |Decimal(high)|
    ensures TimeOrdered(uriPath, namespaceId, low, high)
  {
    forall run, time, run', time' | low <= time < time' <= high
      ensures Less(VisibilityKey(uriPath, namespaceId, run, time), VisibilityKey(uriPath, namespaceId, run', time'))
    {
      WidthMonotone(low, time);
      WidthMonotone(time, time');
      WidthMonotone(time', high);
      EarlierKeyIsLess(uriPath, namespaceId, run, time, run', time');
    }
  }

  lemma WidthChangeIsNotOrdered(uriPath: string, namespaceId: string, low: nat, high: nat)
    requires |Decimal(low)| < |Decimal(high)|
    ensures !TimeOrdered(uriPath, namespaceId, low, high)
  {
    var time := PowerBetween(low, high);
    KeyOrderFlipsAtPower(uriPath, namespaceId, "", "", |Decimal(low)|, time);
  }

  /** Exactly when listing order is close-time order: when the digit count of the timestamp
      does not change within the interval. */
  lemma TimeOrderedExactly(uriPath: string, namespaceId: string, low: nat, high: nat)
    requires low <= high < NANO_LIMIT
    ensures TimeOrdered(uriPath, namespaceId, low, high) <==> |Decimal(low)| == |Decimal(high)|
  {
    WidthMonotone(low, high);
    if |Decimal(low)| == |Decimal(high)| {
      SameWidthIsOrdered(uriPath, namespaceId, low, high);
    } else {
      WidthChangeIsNotOrdered(uriPath, namespaceId, low, high);
    }
  }

  const FIRST_NINETEEN_DIGITS: int := 1_000_000_000_000_000_000

  lemma NineteenDigits(closeTime: nat)
    requires FIRST_NINETEEN_DIGITS <= closeTime < NANO_LIMIT
    ensures |Decimal(closeTime)| == 19
  {
    assert Pow10(9) == 1_000_000_000;
    assert Pow10(14) == 100_000 * Pow10(9);
    assert Pow10(18) == 10_000 * Pow10(14);
    assert Pow10(19) == 10 * Pow10(18);
    DecimalFits(closeTime, 19);
    DecimalWidth(closeTime);
    PowMonotone(|Decimal(closeTime)|, 18);
  }

  /** From 2001-09-09 to the end of 64-bit nanoseconds in 2262 the documented order holds. */
  lemma TimeOrderedSince2001(uriPath: string, namespaceId: string)
    ensures TimeOrdered(uriPath, namespaceId, 1_000_000_000_000_000_000, 0x7fff_ffff_ffff_ffff)
  {
    NineteenDigits(FIRST_NINETEEN_DIGITS);
    NineteenDigits(NANO_LIMIT - 1);
    TimeOrderedExactly(uriPath, namespaceId, FIRST_NINETEEN_DIGITS, NANO_LIMIT - 1);
  }
}
