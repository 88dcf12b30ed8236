/** The bounded, most-recent-first click log (src/background/click-history.ts).
    The module-level array becomes an explicit `History` value and the clock
    reading of `cleanup` becomes the parameter `now`. */
module ClickHistory {

  /** Capacity of the log. */
  const MaxHistory: nat := 50
  /** Age, in milliseconds, from which an entry is discarded by `cleanup`. */
  const HistoryTimeout: int := 30000

  /** One page interaction: the page URL and its timestamp in milliseconds. */
  datatype Entry = Entry(pageUrl: string, timestamp: int)

  /** The log, newest entry first. */
  datatype History = History(entries: seq<Entry>)

  const EmptyHistory := History([])

  /** `recordClick`: prepend the entry; if that makes the log longer than the
      capacity, drop the last (oldest) entry. */
  function RecordClick(h: History, pageUrl: string, timestamp: int): (r: History)
    ensures |r.entries| >= 1 && r.entries[0] == Entry(pageUrl, timestamp)
    ensures |r.entries| == if |h.entries| >= MaxHistory then |h.entries| else |h.entries| + 1
    ensures r.entries[1..] == h.entries[..|r.entries| - 1]
  {
    var grown := [Entry(pageUrl, timestamp)] + h.entries;
    if |grown| > MaxHistory then History(grown[..|grown| - 1]) else History(grown)
  }

  /** The capacity bound is an invariant of `recordClick`. */
  lemma RecordClickBounded(h: History, pageUrl: string, timestamp: int)
    requires |h.entries| <= MaxHistory
    ensures |RecordClick(h, pageUrl, timestamp).entries| <= MaxHistory
    ensures |h.entries| == MaxHistory ==>
      RecordClick(h, pageUrl, timestamp).entries == [Entry(pageUrl, timestamp)] + h.entries[..MaxHistory - 1]
  {
  }

  /** An entry survives `cleanup(now)` when it is strictly younger than the timeout. */
  predicate IsFresh(e: Entry, now: int) {
    now - e.timestamp < HistoryTimeout
  }

  /** `histories.filter(h => now - h.timestamp < HISTORY_TIMEOUT)`. */
  function KeepFresh(entries: seq<Entry>, now: int): (r: seq<Entry>)
    ensures |r| <= |entries|
    ensures forall i :: 0 <= i < |r| ==> IsFresh(r[i], now)
  {
    if entries == [] then []
    else
      (if IsFresh(entries[0], now) then [entries[0]] else []) + KeepFresh(entries[1..], now)
  }

  /** `cleanup()` at clock reading `now`. */
  function Cleanup(h: History, now: int): (r: History)
    ensures |r.entries| <= |h.entries|
    ensures forall i :: 0 <= i < |r.entries| ==> IsFresh(r.entries[i], now)
    ensures forall e :: multiset(r.entries)[e] == if IsFresh(e, now) then multiset(h.entries)[e] else 0
  {
    KeepFreshCounts(h.entries, now);
    History(KeepFresh(h.entries, now))
  }

  /** Each fresh entry is kept as often as it occurs; stale ones never are. */
  lemma {:induction false} KeepFreshCounts(entries: seq<Entry>, now: int)
    ensures forall e :: multiset(KeepFresh(entries, now))[e] == if IsFresh(e, now) then multiset(entries)[e] else 0
  {
    if entries != [] {
      var x, t := entries[0], entries[1..];
      assert entries == [x] + t;
      KeepFreshCounts(t, now);
      KeepFreshCons(x, t, now);
    }
  }

  /** Filtering distributes over concatenation, so the kept entries stay in
      their original order. */
  lemma {:induction false} KeepFreshAppend(a: seq<Entry>, b: seq<Entry>, now: int)
    ensures KeepFresh(a + b, now) == KeepFresh(a, now) + KeepFresh(b, now)
  {
    if a != [] {
      var x, t := a[0], a[1..];
      assert a == [x] + t;
      assert a + b == [x] + (t + b);
      KeepFreshAppend(t, b, now);
      KeepFreshCons(x, t + b, now);
      KeepFreshCons(x, t, now);
    } else {
      assert a + b == b;
    }
  }

  lemma KeepFreshCons(x: Entry, t: seq<Entry>, now: int)
    ensures KeepFresh([x] + t, now) == (if IsFresh(x, now) then [x] else []) + KeepFresh(t, now)
  {
    assert ([x] + t)[1..] == t;
  }

  /** Keeping only fresh entries of a log whose entries are all fresh changes nothing. */
  lemma {:induction false} KeepFreshAllFresh(entries: seq<Entry>, now: int)
    requires forall i :: 0 <= i < |entries| ==> IsFresh(entries[i], now)
    ensures KeepFresh(entries, now) == entries
  {
    if entries != [] {
      KeepFreshAllFresh(entries[1..], now);
    }
  }

  /** `cleanup` at a fixed clock reading is idempotent. */
  lemma CleanupIdempotent(h: History, now: int)
    ensures Cleanup(Cleanup(h, now), now) == Cleanup(h, now)
  {
    KeepFreshAllFresh(Cleanup(h, now).entries, now);
  }

  /** An entry exactly `HistoryTimeout` old is discarded; one a millisecond
      younger is kept. */
  lemma CleanupBoundary(pageUrl: string, now: int)
    ensures Cleanup(History([Entry(pageUrl, now - 29999)]), now).entries == [Entry(pageUrl, now - 29999)]
    ensures Cleanup(History([Entry(pageUrl, now - 30000)]), now).entries == []
  {
  }

  /** `getHistories`: the log, newest first. */
  function GetHistories(h: History): seq<Entry> {
    h.entries
  }

  /** `getCount`: the number of entries `getHistories` returns. */
  function GetCount(h: History): (n: nat)
    ensures n == |GetHistories(h)|
  {
    |h.entries|
  }
}
