/**
 The sliding-window rate limiter in its two forms, in memory and in the database with a
 periodic cleanup, against one specification: the history of admitted attempts.
 */
module RateLimiter {
  // Times are nanoseconds.
  const MINUTE := 60_000_000_000
  const RETENTION := 5 * MINUTE

  datatype Entry = Entry(key: string, at: int)

  datatype Limits = Limits(maxN: int, window: int)

  /** An attempt for a key, or a run of the cleanup, at some time. */
  datatype Step = Attempt(key: string, now: int) | Cleanup(now: int)

  // ---------------------------------------------------------------- the specification

  function Times(h: seq<Entry>, key: string): seq<int> {
    if h == [] then []
    else Times(h[..|h| - 1], key) + if h[|h| - 1].key == key then [h[|h| - 1].at] else []
  }

  function CountAfter(ts: seq<int>, cutoff: int): nat {
    if ts == [] then 0 else CountAfter(ts[..|ts| - 1], cutoff) + if ts[|ts| - 1] > cutoff then 1 else 0
  }

  /** How many of the times lie in (lo, hi]. */
  function CountWithin(ts: seq<int>, lo: int, hi: int): nat {
    if ts == [] then 0 else CountWithin(ts[..|ts| - 1], lo, hi) + if lo < ts[|ts| - 1] <= hi then 1 else 0
  }

  /** An attempt is admitted while fewer than maxN admitted ones lie in the window before it. */
  predicate Admits(h: seq<Entry>, l: Limits, key: string, now: int) {
    CountAfter(Times(h, key), now - l.window) < l.maxN
  }

  function Admitted(h: seq<Entry>, l: Limits, s: Step): seq<Entry> {
    if s.Attempt? && Admits(h, l, s.key, s.now) then h + [Entry(s.key, s.now)] else h
  }

  function History(l: Limits, steps: seq<Step>): seq<Entry> {
    if steps == [] then [] else Admitted(History(l, steps[..|steps| - 1]), l, steps[|steps| - 1])
  }

  /** What the specification answers to each step; a cleanup always succeeds. */
  function Decisions(l: Limits, steps: seq<Step>): seq<bool> {
    if steps == [] then []
    else
      var init, s := steps[..|steps| - 1], steps[|steps| - 1];
      Decisions(l, init) + [s.Attempt? ==> Admits(History(l, init), l, s.key, s.now)]
  }

  lemma TimesAppend(h: seq<Entry>, e: Entry, key: string)
    ensures Times(h + [e], key) == if e.key == key then Times(h, key) + [e.at] else Times(h, key)
  {
    assert (h + [e])[..|h|] == h;
    assert Times(h, key) + [] == Times(h, key);
  }

  lemma CountAppend(ts: seq<int>, t: int, lo: int, hi: int)
    ensures CountWithin(ts + [t], lo, hi) == CountWithin(ts, lo, hi) + if lo < t <= hi then 1 else 0
    ensures CountAfter(ts + [t], lo) == CountAfter(ts, lo) + if t > lo then 1 else 0
  {
    assert (ts + [t])[..|ts|] == ts;
  }

  lemma {:induction false} CountBounds(ts: seq<int>, lo: int, hi: int, cutoff: int)
    requires cutoff <= lo
    ensures CountWithin(ts, lo, hi) <= CountAfter(ts, lo) <= CountAfter(ts, cutoff)
  {
    if ts != [] {
      CountBounds(ts[..|ts| - 1], lo, hi, cutoff);
    }
  }

  /** In every window, wherever it starts, at most maxN attempts of a key were admitted. */
  lemma {:induction false} WindowBound(l: Limits, steps: seq<Step>, key: string, x: int)
    ensures var n := CountWithin(Times(History(l, steps), key), x, x + l.window);
            n == 0 || n <= l.maxN
  {
    if steps != [] {
      var h, s := History(l, steps[..|steps| - 1]), steps[|steps| - 1];
      WindowBound(l, steps[..|steps| - 1], key, x);
      if s.Attempt? && Admits(h, l, s.key, s.now) {
        assert History(l, steps) == h + [Entry(s.key, s.now)];
        TimesAppend(h, Entry(s.key, s.now), key);
        if s.key == key {
          CountAppend(Times(h, key), s.now, x, x + l.window);
          if x < s.now <= x + l.window {
            CountBounds(Times(h, key), x, x + l.window, s.now - l.window);
          }
        }
      }
    }
  }

  ghost predicate NonDecreasing(steps: seq<Step>) {
    forall i, j :: 0 <= i < j < |steps| ==> steps[i].now <= steps[j].now
  }

  /** On a clock that never goes back, a refusal means maxN admitted attempts lie in the window up to now. */
  lemma RefusalIsForced(l: Limits, steps: seq<Step>, key: string, now: int)
    requires NonDecreasing(steps + [Attempt(key, now)])
    requires !Admits(History(l, steps), l, key, now)
    ensures CountWithin(Times(History(l, steps), key), now - l.window, now) >= l.maxN
  {
    forall i | 0 <= i < |steps|
      ensures steps[i].now <= now
    {
      var all := steps + [Attempt(key, now)];
      assert all[i].now <= all[|steps|].now;
    }
    HistoryBefore(l, steps, key, now);
    AllWithin(Times(History(l, steps), key), now - l.window, now);
  }

  ghost predicate NotAfter(ts: seq<int>, now: int) {
    forall i :: 0 <= i < |ts| ==> ts[i] <= now
  }

  lemma {:induction false} HistoryBefore(l: Limits, steps: seq<Step>, key: string, now: int)
    requires forall i :: 0 <= i < |steps| ==> steps[i].now <= now
    ensures NotAfter(Times(History(l, steps), key), now)
  {
    if steps != [] {
      var h, s := History(l, steps[..|steps| - 1]), steps[|steps| - 1];
      HistoryBefore(l, steps[..|steps| - 1], key, now);
      if s.Attempt? && Admits(h, l, s.key, s.now) {
        TimesAppend(h, Entry(s.key, s.now), key);
      }
    }
  }

  lemma {:induction false} AllWithin(ts: seq<int>, lo: int, hi: int)
    requires NotAfter(ts, hi)
    ensures CountWithin(ts, lo, hi) == CountAfter(ts, lo)
  {
    if ts != [] {
      AllWithin(ts[..|ts| - 1], lo, hi);
    }
  }

  // ---------------------------------------------------------------- the two implementations

  type Attempts = map<string, seq<int>>

  function Recent(ts: seq<int>, cutoff: int): seq<int> {
    if ts == [] then [] else Recent(ts[..|ts| - 1], cutoff) + if ts[|ts| - 1] > cutoff then [ts[|ts| - 1]] else []
  }

  function Stored(a: Attempts, key: string): seq<int> {
    if key in a then a[key] else []
  }

  /** The in-memory table after a step, and whether an attempt was allowed. */
  function MemoryStep(l: Limits, a: Attempts, s: Step): (Attempts, bool) {
    if s.Cleanup? then (a, true)
    else
      var recent := Recent(Stored(a, s.key), s.now - l.window);
      if |recent| >= l.maxN then (a[s.key := recent], false) else (a[s.key := recent + [s.now]], true)
  }

  function Kept(entries: seq<Entry>, cutoff: int): seq<Entry> {
    if entries == [] then []
    else Kept(entries[..|entries| - 1], cutoff) + if entries[|entries| - 1].at < cutoff then [] else [entries[|entries| - 1]]
  }

  /** The database table after a step, and whether an attempt was allowed. */
  function DbStep(l: Limits, entries: seq<Entry>, s: Step): (seq<Entry>, bool) {
    if s.Cleanup? then (Kept(entries, s.now - RETENTION), true)
    else if CountAfter(Times(entries, s.key), s.now - l.window) >= l.maxN then (entries, false)
    else (entries + [Entry(s.key, s.now)], true)
  }

  lemma {:induction false} KeptIff(entries: seq<Entry>, cutoff: int, e: Entry)
    ensures e in Kept(entries, cutoff) <==> e in entries && e.at >= cutoff
  {
    if entries != [] {
      KeptIff(entries[..|entries| - 1], cutoff, e);
      assert entries == entries[..|entries| - 1] + [entries[|entries| - 1]];
    }
  }

  /** The cleanup deletes what is more than five minutes old, and nothing else. */
  lemma CleanupDeletesIff(l: Limits, entries: seq<Entry>, now: int, e: Entry)
    requires e in entries
    ensures e !in DbStep(l, entries, Cleanup(now)).0 <==> now - e.at > 5 * 60 * 1_000_000_000
  {
    KeptIff(entries, now - RETENTION, e);
  }

  class MemoryRateLimiter {
    const limits: Limits
    var attempts: Attempts

    constructor (maxN: int, window: int)
      ensures limits == Limits(maxN, window) && attempts == map[]
    {
      limits, attempts := Limits(maxN, window), map[];
    }

    method Allow(key: string, now: int) returns (ok: bool)
      modifies this
      ensures (attempts, ok) == MemoryStep(limits, old(attempts), Attempt(key, now))
    {
      var cutoff := now - limits.window;
      var prev := if key in attempts then attempts[key] else [];
      var recent: seq<int> := [];
      for i := 0 to |prev|
        invariant recent == Recent(prev[..i], cutoff)
      {
        assert prev[..i + 1][..i] == prev[..i];
        if prev[i] > cutoff {
          recent := recent + [prev[i]];
        }
      }
      assert prev[..|prev|] == prev;
      if |recent| >= limits.maxN {
        attempts := attempts[key := recent];
        return false;
      }
      attempts := attempts[key := recent + [now]];
      ok := true;
    }
  }

  class DbRateLimiter {
    const limits: Limits
    var entries: seq<Entry>

    constructor (maxN: int, window: int)
      ensures limits == Limits(maxN, window) && entries == []
    {
      limits, entries := Limits(maxN, window), [];
    }

    /** SELECT COUNT(*) of the key's attempts after the cutoff. */
    method Count(key: string, cutoff: int) returns (n: nat)
      ensures n == CountAfter(Times(entries, key), cutoff)
    {
      n := 0;
      for i := 0 to |entries|
        invariant n == CountAfter(Times(entries[..i], key), cutoff)
      {
        TimesAppend(entries[..i], entries[i], key);
        assert entries[..i] + [entries[i]] == entries[..i + 1];
        if entries[i].key == key {
          CountAppend(Times(entries[..i], key), entries[i].at, cutoff, cutoff);
          if entries[i].at > cutoff {
            n := n + 1;
          }
        }
      }
      assert entries[..|entries|] == entries;
    }

    method Allow(key: string, now: int) returns (ok: bool)
      modifies this
      ensures (entries, ok) == DbStep(limits, old(entries), Attempt(key, now))
    {
      var count := Count(key, now - limits.window);
      if count >= limits.maxN {
        return false;
      }
      entries := entries + [Entry(key, now)];
      ok := true;
    }

    method CleanUp(now: int)
      modifies this
      ensures entries == DbStep(limits, old(entries), Cleanup(now)).0
    {
      var left: seq<Entry> := [];
      for i := 0 to |entries|
        invariant entries == old(entries)
        invariant left == Kept(entries[..i], now - RETENTION)
      {
        assert entries[..i + 1][..i] == entries[..i];
        if !(entries[i].at < now - RETENTION) {
          left := left + [entries[i]];
        }
      }
      assert entries[..|entries|] == entries;
      entries := left;
    }
  }

  // ---------------------------------------------------------------- both refine the specification

  function MemoryRun(l: Limits, steps: seq<Step>): (Attempts, seq<bool>) {
    if steps == [] then (map[], [])
    else
      var (a, decisions) := MemoryRun(l, steps[..|steps| - 1]);
      var (a', ok) := MemoryStep(l, a, steps[|steps| - 1]);
      (a', decisions + [ok])
  }

  function DbRun(l: Limits, steps: seq<Step>): (seq<Entry>, seq<bool>) {
    if steps == [] then ([], [])
    else
      var (entries, decisions) := DbRun(l, steps[..|steps| - 1]);
      var (entries', ok) := DbStep(l, entries, steps[|steps| - 1]);
      (entries', decisions + [ok])
  }

  /** ts agrees with all on every window that ends at now or later. */
  ghost predicate AgreeFrom(ts: seq<int>, all: seq<int>, cutoff: int) {
    forall c :: c >= cutoff ==> CountAfter(ts, c) == CountAfter(all, c)
  }

  lemma {:induction false} RecentCount(ts: seq<int>, cutoff: int, c: int)
    requires c >= cutoff
    ensures CountAfter(Recent(ts, cutoff), c) == CountAfter(ts, c)
    ensures |Recent(ts, cutoff)| == CountAfter(ts, cutoff)
  {
    if ts != [] {
      var init, t := ts[..|ts| - 1], ts[|ts| - 1];
      RecentCount(init, cutoff, c);
      if t > cutoff {
        CountAppend(Recent(init, cutoff), t, c, c);
      } else {
        assert Recent(ts, cutoff) == Recent(init, cutoff);
      }
    }
  }

  lemma {:induction false} KeptCount(entries: seq<Entry>, cutoff: int, key: string, c: int)
    requires c >= cutoff
    ensures CountAfter(Times(Kept(entries, cutoff), key), c) == CountAfter(Times(entries, key), c)
  {
    if entries != [] {
      var init, e := entries[..|entries| - 1], entries[|entries| - 1];
      KeptCount(init, cutoff, key, c);
      TimesAppend(init, e, key);
      assert entries == init + [e];
      if !(e.at < cutoff) {
        TimesAppend(Kept(init, cutoff), e, key);
        if e.key == key {
          CountAppend(Times(Kept(init, cutoff), key), e.at, c, c);
        }
      } else {
        assert Kept(entries, cutoff) == Kept(init, cutoff);
      }
      if e.key == key {
        CountAppend(Times(init, key), e.at, c, c);
      }
    }
  }

  lemma AgreeAppend(ts: seq<int>, all: seq<int>, cutoff: int, t: int)
    requires AgreeFrom(ts, all, cutoff)
    ensures AgreeFrom(ts + [t], all + [t], cutoff)
  {
    forall c | c >= cutoff
      ensures CountAfter(ts + [t], c) == CountAfter(all + [t], c)
    {
      CountAppend(ts, t, c, c);
      CountAppend(all, t, c, c);
    }
  }

  /** The time a window still reaches back from: that of the last step. */
  function LastTime(steps: seq<Step>, now: int): int {
    if steps == [] then now else steps[|steps| - 1].now
  }

  lemma NonDecreasingInit(steps: seq<Step>)
    requires NonDecreasing(steps) && steps != []
    ensures var n := |steps| - 1;
            NonDecreasing(steps[..n]) && LastTime(steps[..n], steps[n].now) <= steps[n].now
  {
  }

  lemma {:induction false} MemoryRefines(l: Limits, steps: seq<Step>, key: string, now: int)
    requires NonDecreasing(steps)
    ensures AgreeFrom(Stored(MemoryRun(l, steps).0, key), Times(History(l, steps), key), LastTime(steps, now) - l.window)
  {
    if steps != [] {
      var init, s := steps[..|steps| - 1], steps[|steps| - 1];
      NonDecreasingInit(steps);
      MemoryRefines(l, init, key, s.now);
      if s.Attempt? {
        MemoryRefines(l, init, s.key, s.now);
        MemoryAttempt(l, MemoryRun(l, init).0, History(l, init), s, key, LastTime(init, s.now));
      }
    }
  }

  lemma {:induction false} MemoryDecides(l: Limits, steps: seq<Step>)
    requires NonDecreasing(steps)
    ensures MemoryRun(l, steps).1 == Decisions(l, steps)
  {
    if steps != [] {
      var init, s := steps[..|steps| - 1], steps[|steps| - 1];
      NonDecreasingInit(steps);
      MemoryDecides(l, init);
      if s.Attempt? {
        MemoryRefines(l, init, s.key, s.now);
        MemoryAttempt(l, MemoryRun(l, init).0, History(l, init), s, s.key, LastTime(init, s.now));
      }
    }
  }

  /** The stored times count a window that now reaches back to as the history does. */
  lemma MemoryCount(l: Limits, a: Attempts, h: seq<Entry>, key: string, now: int, last: int)
    requires last <= now && AgreeFrom(Stored(a, key), Times(h, key), last - l.window)
    ensures |Recent(Stored(a, key), now - l.window)| == CountAfter(Times(h, key), now - l.window)
    ensures AgreeFrom(Recent(Stored(a, key), now - l.window), Times(h, key), now - l.window)
  {
    var cutoff, stored := now - l.window, Stored(a, key);
    forall c | c >= cutoff
      ensures CountAfter(Recent(stored, cutoff), c) == CountAfter(Times(h, key), c)
    {
      RecentCount(stored, cutoff, c);
      assert CountAfter(stored, c) == CountAfter(Times(h, key), c);
    }
    RecentCount(stored, cutoff, cutoff);
    assert CountAfter(stored, cutoff) == CountAfter(Times(h, key), cutoff);
  }

  lemma AgreeLater(ts: seq<int>, all: seq<int>, cutoff: int, later: int)
    requires AgreeFrom(ts, all, cutoff) && cutoff <= later
    ensures AgreeFrom(ts, all, later)
  {
    forall c | c >= later
      ensures CountAfter(ts, c) == CountAfter(all, c)
    {
      assert c >= cutoff;
    }
  }

  /** With the window counted alike, the decision is the history's, and the stored times record it. */
  lemma OwnKeyOutcome(l: Limits, a: Attempts, h: seq<Entry>, s: Step)
    requires s.Attempt? && |Recent(Stored(a, s.key), s.now - l.window)| == CountAfter(Times(h, s.key), s.now - l.window)
    ensures MemoryStep(l, a, s).1 == Admits(h, l, s.key, s.now)
    ensures var recent := Recent(Stored(a, s.key), s.now - l.window);
            Stored(MemoryStep(l, a, s).0, s.key) == if Admits(h, l, s.key, s.now) then recent + [s.now] else recent
    ensures Admitted(h, l, s) == if Admits(h, l, s.key, s.now) then h + [Entry(s.key, s.now)] else h
  {
  }

  lemma RecordTime(ts: seq<int>, h: seq<Entry>, e: Entry, admitted: bool, cutoff: int)
    requires AgreeFrom(ts, Times(h, e.key), cutoff)
    ensures AgreeFrom(if admitted then ts + [e.at] else ts, Times(if admitted then h + [e] else h, e.key), cutoff)
  {
    if admitted {
      TimesAppend(h, e, e.key);
      AgreeAppend(ts, Times(h, e.key), cutoff, e.at);
    }
  }

  /** The attempt's own key: decided as the history decides, and recorded in both or in neither. */
  lemma OwnKeyAttempt(l: Limits, a: Attempts, h: seq<Entry>, s: Step, last: int)
    requires s.Attempt? && last <= s.now && AgreeFrom(Stored(a, s.key), Times(h, s.key), last - l.window)
    ensures MemoryStep(l, a, s).1 == Admits(h, l, s.key, s.now)
    ensures AgreeFrom(Stored(MemoryStep(l, a, s).0, s.key), Times(Admitted(h, l, s), s.key), s.now - l.window)
  {
    MemoryCount(l, a, h, s.key, s.now, last);
    OwnKeyOutcome(l, a, h, s);
    RecordTime(Recent(Stored(a, s.key), s.now - l.window), h, Entry(s.key, s.now),
               Admits(h, l, s.key, s.now), s.now - l.window);
  }

  /** Any other key: nothing changes. */
  lemma OtherKeyAttempt(l: Limits, a: Attempts, h: seq<Entry>, s: Step, key: string, last: int)
    requires s.Attempt? && s.key != key && last <= s.now && AgreeFrom(Stored(a, key), Times(h, key), last - l.window)
    ensures AgreeFrom(Stored(MemoryStep(l, a, s).0, key), Times(Admitted(h, l, s), key), s.now - l.window)
  {
    TimesAppend(h, Entry(s.key, s.now), key);
    AgreeLater(Stored(a, key), Times(h, key), last - l.window, s.now - l.window);
    assert Stored(MemoryStep(l, a, s).0, key) == Stored(a, key);
    assert Times(Admitted(h, l, s), key) == Times(h, key);
  }

  lemma MemoryAttempt(l: Limits, a: Attempts, h: seq<Entry>, s: Step, key: string, last: int)
    requires s.Attempt? && last <= s.now
    requires AgreeFrom(Stored(a, key), Times(h, key), last - l.window)
    requires AgreeFrom(Stored(a, s.key), Times(h, s.key), last - l.window)
    ensures MemoryStep(l, a, s).1 == Admits(h, l, s.key, s.now)
    ensures AgreeFrom(Stored(MemoryStep(l, a, s).0, key), Times(Admitted(h, l, s), key), s.now - l.window)
  {
    OwnKeyAttempt(l, a, h, s, last);
    if s.key != key {
      OtherKeyAttempt(l, a, h, s, key, last);
    }
  }

  lemma {:induction false} DbRefines(l: Limits, steps: seq<Step>, key: string, now: int)
    requires NonDecreasing(steps) && l.window <= RETENTION
    ensures AgreeFrom(Times(DbRun(l, steps).0, key), Times(History(l, steps), key), LastTime(steps, now) - l.window)
  {
    if steps != [] {
      var init, s := steps[..|steps| - 1], steps[|steps| - 1];
      NonDecreasingInit(steps);
      DbRefines(l, init, key, s.now);
      DbRefines(l, init, if s.Attempt? then s.key else "", s.now);
      DbStepRefines(l, DbRun(l, init).0, History(l, init), s, key, LastTime(init, s.now));
    }
  }

  lemma CleanupRefines(l: Limits, entries: seq<Entry>, h: seq<Entry>, now: int, key: string, last: int)
    requires last <= now && l.window <= RETENTION
    requires AgreeFrom(Times(entries, key), Times(h, key), last - l.window)
    ensures AgreeFrom(Times(Kept(entries, now - RETENTION), key), Times(h, key), now - l.window)
  {
    AgreeLater(Times(entries, key), Times(h, key), last - l.window, now - l.window);
    forall c | c >= now - l.window
      ensures CountAfter(Times(Kept(entries, now - RETENTION), key), c) == CountAfter(Times(h, key), c)
    {
      KeptCount(entries, now - RETENTION, key, c);
    }
  }

  lemma RecordRefines(entries: seq<Entry>, h: seq<Entry>, e: Entry, key: string, cutoff: int)
    requires AgreeFrom(Times(entries, key), Times(h, key), cutoff)
    ensures AgreeFrom(Times(entries + [e], key), Times(h + [e], key), cutoff)
  {
    TimesAppend(h, e, key);
    TimesAppend(entries, e, key);
    if e.key == key {
      AgreeAppend(Times(entries, key), Times(h, key), cutoff, e.at);
    }
  }

  lemma DbCount(l: Limits, entries: seq<Entry>, h: seq<Entry>, key: string, now: int, last: int)
    requires last <= now && AgreeFrom(Times(entries, key), Times(h, key), last - l.window)
    ensures CountAfter(Times(entries, key), now - l.window) == CountAfter(Times(h, key), now - l.window)
  {
  }

  /** With equal counts in the window, table and history both record the attempt or both leave it. */
  lemma AttemptOutcome(l: Limits, entries: seq<Entry>, h: seq<Entry>, s: Step)
    requires s.Attempt? && CountAfter(Times(entries, s.key), s.now - l.window) == CountAfter(Times(h, s.key), s.now - l.window)
    ensures DbStep(l, entries, s) == if Admits(h, l, s.key, s.now) then (entries + [Entry(s.key, s.now)], true) else (entries, false)
    ensures Admitted(h, l, s) == if Admits(h, l, s.key, s.now) then h + [Entry(s.key, s.now)] else h
  {
  }

  lemma RecordOrNot(entries: seq<Entry>, h: seq<Entry>, e: Entry, admitted: bool, key: string, last: int, cutoff: int)
    requires AgreeFrom(Times(entries, key), Times(h, key), last) && last <= cutoff
    ensures AgreeFrom(Times(if admitted then entries + [e] else entries, key), Times(if admitted then h + [e] else h, key), cutoff)
  {
    AgreeLater(Times(entries, key), Times(h, key), last, cutoff);
    if admitted {
      RecordRefines(entries, h, e, key, cutoff);
    }
  }

  lemma DbAttemptRefines(l: Limits, entries: seq<Entry>, h: seq<Entry>, s: Step, key: string, last: int)
    requires s.Attempt? && last <= s.now
    requires AgreeFrom(Times(entries, key), Times(h, key), last - l.window)
    requires AgreeFrom(Times(entries, s.key), Times(h, s.key), last - l.window)
    ensures AgreeFrom(Times(DbStep(l, entries, s).0, key), Times(Admitted(h, l, s), key), s.now - l.window)
    ensures DbStep(l, entries, s).1 == Admits(h, l, s.key, s.now)
  {
    DbCount(l, entries, h, s.key, s.now, last);
    AttemptOutcome(l, entries, h, s);
    RecordOrNot(entries, h, Entry(s.key, s.now), Admits(h, l, s.key, s.now), key, last - l.window, s.now - l.window);
  }

  lemma DbStepRefines(l: Limits, entries: seq<Entry>, h: seq<Entry>, s: Step, key: string, last: int)
    requires last <= s.now && l.window <= RETENTION
    requires AgreeFrom(Times(entries, key), Times(h, key), last - l.window)
    requires s.Attempt? ==> AgreeFrom(Times(entries, s.key), Times(h, s.key), last - l.window)
    ensures AgreeFrom(Times(DbStep(l, entries, s).0, key), Times(Admitted(h, l, s), key), s.now - l.window)
    ensures DbStep(l, entries, s).1 == (s.Attempt? ==> Admits(h, l, s.key, s.now))
  {
    if s.Cleanup? {
      CleanupRefines(l, entries, h, s.now, key, last);
    } else {
      DbAttemptRefines(l, entries, h, s, key, last);
    }
  }

  lemma {:induction false} DbDecides(l: Limits, steps: seq<Step>)
    requires NonDecreasing(steps) && l.window <= RETENTION
    ensures DbRun(l, steps).1 == Decisions(l, steps)
  {
    if steps != [] {
      var init, s := steps[..|steps| - 1], steps[|steps| - 1];
      NonDecreasingInit(steps);
      DbDecides(l, init);
      DbRefines(l, init, if s.Attempt? then s.key else "", s.now);
      DbStepRefines(l, DbRun(l, init).0, History(l, init), s, if s.Attempt? then s.key else "", LastTime(init, s.now));
    }
  }

  /**
   On every trace of attempts and cleanups with non-decreasing times the two limiters take
   the same decisions, those of the specification, because the retention is at least the window.
   */
  lemma LimitersAgree(l: Limits, steps: seq<Step>)
    requires NonDecreasing(steps) && l.window <= RETENTION
    ensures MemoryRun(l, steps).1 == DbRun(l, steps).1 == Decisions(l, steps)
  {
    MemoryDecides(l, steps);
    DbDecides(l, steps);
  }
}
