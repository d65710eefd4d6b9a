/** The error log of the inventory service (`ErrorLogger` in data.py) as an
    in-memory value: an append-only list of entries with a running id
    counter, deduplicated notification, resolve, clear and statistics. The
    JSON file and the notification e-mail are not modelled; whether an
    e-mail would be sent is returned as a flag. */
module ErrorLogs {
  import opened Common

  datatype ErrorEntry = ErrorEntry(
    id: int,
    timestamp: Time,
    errorType: string,
    message: string,
    source: string,
    user: string,
    resolved: bool,
    resolvedAt: Option<Time>,
    resolvedBy: Option<string>)

  datatype ErrorLog = ErrorLog(errors: seq<ErrorEntry>, totalErrors: int, lastError: Option<Time>)

  /** The freshly created (or cleared) error file. */
  const EmptyErrorLog: ErrorLog := ErrorLog([], 0, None)

  /** Ids grow along the list and never exceed the counter. */
  ghost predicate Valid(log: ErrorLog) {
    && log.totalErrors >= 0
    && IdsIncreasing(log.errors)
    && (forall i :: 0 <= i < |log.errors| ==> 1 <= log.errors[i].id <= log.totalErrors)
  }

  /** An unresolved entry reporting the same (type, message, source). */
  predicate SameOpenError(e: ErrorEntry, errorType: string, message: string, source: string) {
    !e.resolved && e.errorType == errorType && e.message == message && e.source == source
  }

  predicate HasOpenDuplicate(errors: seq<ErrorEntry>, errorType: string, message: string, source: string) {
    exists i :: 0 <= i < |errors| && SameOpenError(errors[i], errorType, message, source)
  }

  /** What `log_error` produces: the new log, the entry it returns, and
      whether it sends the notification e-mail. */
  datatype Logged = Logged(log: ErrorLog, entry: ErrorEntry, notified: bool)

  /** `log_error`: always appends a new unresolved entry numbered one past the
      counter; notifies only when no unresolved entry with the same
      (type, message, source) existed before the call. */
  function LogError(log: ErrorLog, errorType: string, message: string, source: string,
                    user: string, now: Time): (r: Logged)
    ensures r.log.errors == log.errors + [r.entry]
    ensures r.entry.id == log.totalErrors + 1 && !r.entry.resolved
    ensures r.entry.errorType == errorType && r.entry.message == message && r.entry.source == source
    ensures r.log.totalErrors == log.totalErrors + 1
    ensures r.notified <==> !HasOpenDuplicate(log.errors, errorType, message, source)
    ensures Valid(log) ==> Valid(r.log)
  {
    var entry := ErrorEntry(log.totalErrors + 1, now, errorType, message, source, user,
                            false, None, None);
    var duplicate := HasOpenDuplicate(log.errors, errorType, message, source);
    Logged(ErrorLog(log.errors + [entry], log.totalErrors + 1, Some(now)), entry, !duplicate)
  }

  /** `after` is `before` with one more entry, of the given type. */
  predicate Appended(before: ErrorLog, after: ErrorLog, errorType: string) {
    && |after.errors| == |before.errors| + 1
    && after.errors[..|before.errors|] == before.errors
    && after.errors[|before.errors|].errorType == errorType
  }

  /** Logging as the service's own components do it (user 'system'). */
  function LogSystemError(log: ErrorLog, errorType: string, message: string, source: string,
                          now: Time): (r: ErrorLog)
    ensures Appended(log, r, errorType)
    ensures r.errors[|log.errors|].source == source
  {
    LogError(log, errorType, message, source, "system", now).log
  }

  /** Logging the same error twice in a row notifies at most once: the
      second call finds the first call's entry still unresolved. */
  lemma RepeatedErrorNotifiesOnce(log: ErrorLog, errorType: string, message: string,
                                  source: string, user: string, t1: Time, t2: Time)
    ensures !LogError(LogError(log, errorType, message, source, user, t1).log,
                      errorType, message, source, user, t2).notified
  {
    var first := LogError(log, errorType, message, source, user, t1);
    assert first.log.errors[|log.errors|] == first.entry;
    assert SameOpenError(first.log.errors[|log.errors|], errorType, message, source);
  }

  /** The entries `get_errors` chooses from: all of them, or only the
      unresolved ones. */
  function Pool(log: ErrorLog, unresolvedOnly: bool): seq<ErrorEntry> {
    if unresolvedOnly then Unresolved(log.errors) else log.errors
  }

  /** `get_errors`: optionally only the unresolved entries, then the last
      `limit` of them (Python's `[-limit:]`), newest first. */
  function GetErrors(log: ErrorLog, limit: int, unresolvedOnly: bool): (r: seq<ErrorEntry>)
    ensures var pool := Pool(log, unresolvedOnly);
            && (limit > 0 ==> |r| == if limit < |pool| then limit else |pool|)
            && (limit == 0 ==> |r| == |pool|)
            && (limit < 0 ==> |r| == if -limit < |pool| then |pool| + limit else 0)
            && |r| <= |pool|
            && forall i :: 0 <= i < |r| ==> r[i] == pool[|pool| - 1 - i]
    ensures |r| <= |log.errors|
    ensures forall i :: 0 <= i < |r| ==> r[i] in log.errors
    ensures unresolvedOnly ==> forall i :: 0 <= i < |r| ==> !r[i].resolved
  {
    var r := NewestFirst(Pool(log, unresolvedOnly), limit);
    ListedFromPool(log, unresolvedOnly, r);
    r
  }

  /** `list(reversed(s[-limit:]))`: as many entries as Python's `s[-limit:]`
      keeps, read from the end of `s`. */
  function NewestFirst<T>(s: seq<T>, limit: int): (r: seq<T>)
    ensures limit > 0 ==> |r| == if limit < |s| then limit else |s|
    ensures limit == 0 ==> |r| == |s|
    ensures limit < 0 ==> |r| == if -limit < |s| then |s| + limit else 0
    ensures |r| <= |s|
    ensures forall i :: 0 <= i < |r| ==> r[i] == s[|s| - 1 - i]
  {
    var tail := PyTail(s, limit);
    var r := Reverse(tail);
    assert forall i :: 0 <= i < |r| ==> r[i] == s[|s| - 1 - i] by {
      forall i | 0 <= i < |r| ensures r[i] == s[|s| - 1 - i] {
        assert r[i] == tail[|tail| - 1 - i];
        assert tail == s[|s| - |tail|..];
      }
    }
    r
  }

  /** Entries read from the pool come from the log, and are unresolved when
      only unresolved ones were asked for. */
  lemma ListedFromPool(log: ErrorLog, unresolvedOnly: bool, r: seq<ErrorEntry>)
    requires var pool := Pool(log, unresolvedOnly);
             |r| <= |pool| && forall i :: 0 <= i < |r| ==> r[i] == pool[|pool| - 1 - i]
    ensures |r| <= |log.errors|
    ensures forall i :: 0 <= i < |r| ==> r[i] in log.errors
    ensures unresolvedOnly ==> forall i :: 0 <= i < |r| ==> !r[i].resolved
  {
    var pool := Pool(log, unresolvedOnly);
    forall i | 0 <= i < |r| ensures r[i] in log.errors && (unresolvedOnly ==> !r[i].resolved) {
      assert r[i] == pool[|pool| - 1 - i];
    }
  }

  /** The listing is newest first: ids fall strictly along it. */
  lemma GetErrorsNewestFirst(log: ErrorLog, limit: int, unresolvedOnly: bool)
    requires Valid(log)
    ensures var r := GetErrors(log, limit, unresolvedOnly);
            forall i, j :: 0 <= i < j < |r| ==> r[i].id > r[j].id
  {
    UnresolvedKeepsOrder(log.errors);
    var pool := Pool(log, unresolvedOnly);
    TailKeepsOrder(pool, limit);
  }

  lemma TailKeepsOrder(s: seq<ErrorEntry>, limit: int)
    requires IdsIncreasing(s)
    ensures IdsIncreasing(PyTail(s, limit))
  {
    var tail := PyTail(s, limit);
    var k := |s| - |tail|;
    assert tail == s[k..];
    SuffixKeepsOrder(s, k);
  }

  lemma SuffixKeepsOrder(s: seq<ErrorEntry>, k: nat)
    requires k <= |s| && IdsIncreasing(s)
    ensures IdsIncreasing(s[k..])
  {
    var t := s[k..];
    forall i, j | 0 <= i < j < |t| ensures t[i].id < t[j].id {
      assert t[i] == s[k + i] && t[j] == s[k + j];
    }
  }

  /** The unresolved entries, in list order. */
  function Unresolved(s: seq<ErrorEntry>): (r: seq<ErrorEntry>)
    ensures |r| <= |s|
    ensures forall i :: 0 <= i < |r| ==> r[i] in s && !r[i].resolved
    ensures forall i :: 0 <= i < |s| && !s[i].resolved ==> s[i] in r
    ensures |r| == CountUnresolved(s)
  {
    if s == [] then []
    else
      var rest := Unresolved(s[..|s| - 1]);
      if s[|s| - 1].resolved then rest else rest + [s[|s| - 1]]
  }

  predicate IdsIncreasing(s: seq<ErrorEntry>) {
    forall i, j :: 0 <= i < j < |s| ==> s[i].id < s[j].id
  }

  /** Filtering keeps the relative order, so ids still grow along it. */
  lemma {:induction false} UnresolvedKeepsOrder(s: seq<ErrorEntry>)
    ensures IdsIncreasing(s) ==> IdsIncreasing(Unresolved(s))
  {
    if s != [] && IdsIncreasing(s) {
      var init := s[..|s| - 1];
      UnresolvedKeepsOrder(init);
      var rest := Unresolved(init);
      var last := s[|s| - 1];
      if !last.resolved {
        forall i | 0 <= i < |rest|
          ensures rest[i].id < last.id
        {
          var k :| 0 <= k < |init| && init[k] == rest[i];
          assert s[k] == rest[i];
        }
        var r := rest + [last];
        forall i, j | 0 <= i < j < |r| ensures r[i].id < r[j].id {
          assert r[i] == rest[i];
        }
      }
    }
  }

  function Reverse<T>(s: seq<T>): (r: seq<T>)
    ensures |r| == |s|
    ensures forall i :: 0 <= i < |s| ==> r[i] == s[|s| - 1 - i]
  {
    if s == [] then [] else Reverse(s[1..]) + [s[0]]
  }

  /** Number of unresolved entries (the `unresolved_errors` statistic). */
  function CountUnresolved(s: seq<ErrorEntry>): (n: nat)
    ensures n <= |s|
  {
    if s == [] then 0
    else CountUnresolved(s[..|s| - 1]) + (if s[|s| - 1].resolved then 0 else 1)
  }

  /** Position of the first entry with the given id (what the resolve and
      lookup loops stop at). */
  function FirstWithId(s: seq<ErrorEntry>, id: int): (k: Option<nat>)
    ensures k.None? <==> forall i :: 0 <= i < |s| ==> s[i].id != id
    ensures k.Some? ==>
              && k.value < |s| && s[k.value].id == id
              && forall i :: 0 <= i < k.value ==> s[i].id != id
  {
    if s == [] then None
    else if s[0].id == id then Some(0)
    else match FirstWithId(s[1..], id)
      case None => None
      case Some(k) => Some(k + 1)
  }

  /** `get_error_by_id`. */
  function GetErrorById(log: ErrorLog, id: int): (r: Option<ErrorEntry>)
    ensures r.Some? ==> r.value in log.errors && r.value.id == id
    ensures r.None? <==> forall i :: 0 <= i < |log.errors| ==> log.errors[i].id != id
  {
    match FirstWithId(log.errors, id)
    case None => None
    case Some(k) => Some(log.errors[k])
  }

  /** The resolved form of an entry: flag set, resolver and time stamped. */
  function Resolve(e: ErrorEntry, resolver: string, now: Time): (e': ErrorEntry)
    ensures e'.resolved && e'.id == e.id
  {
    e.(resolved := true, resolvedAt := Some(now), resolvedBy := Some(resolver))
  }

  /** `mark_resolved`: flags the first entry with that id and reports
      whether there was one; an unknown id changes nothing. */
  function MarkResolved(log: ErrorLog, id: int, resolvedBy: string, now: Time): (r: (ErrorLog, bool))
    ensures r.1 <==> exists i :: 0 <= i < |log.errors| && log.errors[i].id == id
    ensures !r.1 ==> r.0 == log
    ensures |r.0.errors| == |log.errors| && r.0.totalErrors == log.totalErrors
    ensures r.1 ==>
              exists k :: && 0 <= k < |log.errors| && log.errors[k].id == id
                          && (forall i :: 0 <= i < k ==> log.errors[i].id != id)
                          && r.0.errors == log.errors[k := Resolve(log.errors[k], resolvedBy, now)]
    ensures Valid(log) ==> Valid(r.0)
  {
    match FirstWithId(log.errors, id)
    case None => (log, false)
    case Some(k) =>
      (log.(errors := log.errors[k := Resolve(log.errors[k], resolvedBy, now)]), true)
  }

  /** `clear_all_errors`: returns how many entries were dropped and resets
      the counter, so the next id is 1 again. */
  function ClearAllErrors(log: ErrorLog): (r: (ErrorLog, int))
    ensures r.1 == |log.errors|
    ensures r.0.errors == [] && r.0.totalErrors == 0
    ensures LogError(r.0, "", "", "", "", 0).entry.id == 1
  {
    (EmptyErrorLog, |log.errors|)
  }

  datatype ErrorStats = ErrorStats(
    totalErrors: int,
    lastError: Option<Time>,
    currentErrors: int,
    unresolvedErrors: int,
    resolvedErrors: int)

  /** `get_stats`. */
  function GetStats(log: ErrorLog): (r: ErrorStats)
    ensures r.resolvedErrors + r.unresolvedErrors == r.currentErrors == |log.errors|
    ensures 0 <= r.unresolvedErrors && 0 <= r.resolvedErrors
    ensures r.unresolvedErrors == |Unresolved(log.errors)|
    ensures r.totalErrors == log.totalErrors
  {
    var unresolved := CountUnresolved(log.errors);
    ErrorStats(log.totalErrors, log.lastError, |log.errors|, unresolved, |log.errors| - unresolved)
  }

  /** Replacing one entry changes the unresolved count by exactly the change
      in that entry's flag. */
  lemma {:induction false} CountAfterReplace(s: seq<ErrorEntry>, k: nat, e: ErrorEntry)
    requires k < |s|
    ensures CountUnresolved(s[k := e]) ==
      CountUnresolved(s) - (if s[k].resolved then 0 else 1) + (if e.resolved then 0 else 1)
  {
    var s' := s[k := e];
    if k < |s| - 1 {
      CountAfterReplace(s[..|s| - 1], k, e);
      assert s'[..|s'| - 1] == s[..|s| - 1][k := e];
    } else {
      assert s'[..|s'| - 1] == s[..|s| - 1];
    }
  }

  /** A new error raises the unresolved statistic by one. */
  lemma LogErrorRaisesUnresolved(log: ErrorLog, errorType: string, message: string,
                                 source: string, user: string, now: Time)
    ensures GetStats(LogError(log, errorType, message, source, user, now).log).unresolvedErrors
         == GetStats(log).unresolvedErrors + 1
  {
    var r := LogError(log, errorType, message, source, user, now);
    assert r.log.errors[..|r.log.errors| - 1] == log.errors;
  }

  /** Resolving an open error lowers the unresolved statistic by one;
      the current count is unchanged. */
  lemma ResolveLowersUnresolved(log: ErrorLog, id: int, resolver: string, now: Time)
    requires exists i :: 0 <= i < |log.errors| && log.errors[i].id == id && !log.errors[i].resolved
    requires Valid(log)
    ensures GetStats(MarkResolved(log, id, resolver, now).0).unresolvedErrors == GetStats(log).unresolvedErrors - 1
    ensures GetStats(MarkResolved(log, id, resolver, now).0).currentErrors == GetStats(log).currentErrors
  {
    var r := MarkResolved(log, id, resolver, now);
    var i :| 0 <= i < |log.errors| && log.errors[i].id == id && !log.errors[i].resolved;
    var k :| && 0 <= k < |log.errors| && log.errors[k].id == id
             && (forall j :: 0 <= j < k ==> log.errors[j].id != id)
             && r.0.errors == log.errors[k := Resolve(log.errors[k], resolver, now)];
    assert k == i;
    CountAfterReplace(log.errors, k, Resolve(log.errors[k], resolver, now));
  }
}
