/**
 * The state of the `App` component in src/App.jsx: the display clock, the
 * time the previous session ended, and the idle tracker.
 *
 * Timestamps are integer milliseconds since the epoch. The wall clock is the
 * explicit `now` parameter of each step that samples it; the browser timers,
 * listeners and the unload hook become the steps `Tick`, `RecomputeIdle`,
 * `Activity` and `Unload`. Conversion between timestamps and ISO-8601 text is
 * the pair of parameters `toIso` (`Date#toISOString`) and `parseDate`
 * (`new Date(text)`).
 */
module AppState {
  import opened Wrappers
  import opened Json
  import opened Storage

  const CloseKey: string := "lastCloseTime"
  const TerminateKey: string := "lastTerminateTime"

  /** JavaScript truthiness of the `idleStart` ref: set and not the epoch instant 0. */
  predicate StartRecorded(idleStart: Option<int>) {
    idleStart.Some? && idleStart.value != 0
  }

  /**
   * Whole seconds elapsed from `start` to `now`, rounded down
   * (`Math.floor((Date.now() - idleStart.current) / 1000)`).
   */
  function IdleSeconds(start: int, now: int): (r: int)
    ensures 1000 * r <= now - start < 1000 * (r + 1)
  {
    (now - start) / 1000
  }

  /** Idle time never goes down as the clock advances with no activity in between. */
  lemma IdleSecondsMonotone(start: int, now: int, later: int)
    requires now <= later
    ensures IdleSeconds(start, now) <= IdleSeconds(start, later)
  {
  }

  /** `k` whole seconds after the last activity (plus less than a second), the idle time reads `k`. */
  lemma IdleSecondsAfter(start: int, k: int, extra: int)
    requires 0 <= extra < 1000
    ensures IdleSeconds(start, start + 1000 * k + extra) == k
  {
  }

  /** The display time after `n` firings of the one-second interval. */
  function AfterTicks(displayTime: int, n: nat): (r: int)
    ensures r == displayTime + 1000 * n
  {
    if n == 0 then displayTime else AfterTicks(displayTime, n - 1) + 1000
  }

  /** Later firings show strictly later times. */
  lemma TicksIncrease(displayTime: int, m: nat, n: nat)
    requires m < n
    ensures AfterTicks(displayTime, m) < AfterTicks(displayTime, n)
  {
  }

  /** The display time startup chooses: the persisted close time if there is one, else now. */
  function RestoredDisplay(items: map<string, string>, now: int, parseDate: string -> int): (r: int)
    requires Readable(items, CloseKey)
    ensures Lookup(items, CloseKey) == None ==> r == now
    ensures Lookup(items, CloseKey).Some? ==> r == parseDate(Lookup(items, CloseKey).value)
  {
    match Lookup(items, CloseKey)
    case Some(text) => parseDate(text)
    case None => now
  }

  /** The termination time after startup: set from the persisted value, or left as it was. */
  function RestoredTermination(items: map<string, string>, parseDate: string -> int, current: Option<int>): (r: Option<int>)
    requires Readable(items, TerminateKey)
    ensures Lookup(items, TerminateKey) == None ==> r == current
    ensures Lookup(items, TerminateKey).Some? ==> r == Some(parseDate(Lookup(items, TerminateKey).value))
  {
    match Lookup(items, TerminateKey)
    case Some(text) => Some(parseDate(text))
    case None => current
  }

  /** The store after the unload hook has written both timestamps. */
  function Persisted(items: map<string, string>, displayTime: int, now: int, toIso: int -> string): (r: map<string, string>)
    ensures r.Keys == items.Keys + {CloseKey, TerminateKey}
    ensures Deserialise(r[CloseKey]) == Some(toIso(displayTime))
    ensures Deserialise(r[TerminateKey]) == Some(toIso(now))
    ensures forall k :: k in items && k != CloseKey && k != TerminateKey ==> r[k] == items[k]
  {
    Written(Written(items, CloseKey, toIso(displayTime)), TerminateKey, toIso(now))
  }

  /**
   * Across a reload: what one session's unload hook writes, the next session's
   * startup restores. The display resumes at the time shown when the page was
   * closed, and the termination time is the instant it was closed, provided
   * the ISO-8601 text reads back as the same instant.
   */
  lemma UnloadThenRestore(items: map<string, string>, displayTime: int, closedAt: int, now: int,
                          current: Option<int>, toIso: int -> string, parseDate: string -> int)
    requires toIso(displayTime) != [] && toIso(closedAt) != []
    requires parseDate(toIso(displayTime)) == displayTime && parseDate(toIso(closedAt)) == closedAt
    ensures Readable(Persisted(items, displayTime, closedAt, toIso), CloseKey)
    ensures Readable(Persisted(items, displayTime, closedAt, toIso), TerminateKey)
    ensures RestoredDisplay(Persisted(items, displayTime, closedAt, toIso), now, parseDate) == displayTime
    ensures RestoredTermination(Persisted(items, displayTime, closedAt, toIso), parseDate, current) == Some(closedAt)
  {
  }

  class App {
    var displayTime: int
    var terminationTime: Option<int>
    var idleTime: int
    var idleStart: Option<int>
    var isIdle: bool

    /** The idle time stays 0 until an idle start has been recorded. */
    ghost predicate Valid()
      reads this
    {
      !StartRecorded(idleStart) ==> idleTime == 0
    }

    /** The component's initial state when it mounts at instant `now`. */
    constructor (now: int)
      ensures Valid()
      ensures displayTime == now && terminationTime == None
      ensures idleTime == 0 && idleStart == None && !isIdle
    {
      displayTime := now;
      terminationTime := None;
      idleTime := 0;
      idleStart := None;
      isIdle := false;
    }

    /**
     * Startup: read both persisted timestamps through the accessor's read
     * branch. The display time comes from the close time if present, else
     * from now; the termination time is set only if a terminate time is present.
     */
    method Restore(store: LocalStorage, now: int, parseDate: string -> int)
      requires Valid()
      requires Readable(store.items, CloseKey) && Readable(store.items, TerminateKey)
      modifies this`displayTime, this`terminationTime, store
      ensures Valid()
      ensures store.items == old(store.items)
      ensures displayTime == RestoredDisplay(store.items, now, parseDate)
      ensures terminationTime == RestoredTermination(store.items, parseDate, old(terminationTime))
    {
      var lastCloseTime := UseLocalStorage(store, CloseKey, None);
      var lastTerminateTime := UseLocalStorage(store, TerminateKey, None);
      if lastCloseTime.Some? {
        displayTime := parseDate(lastCloseTime.value);
      } else {
        displayTime := now;
      }
      if lastTerminateTime.Some? {
        terminationTime := Some(parseDate(lastTerminateTime.value));
      }
    }

    /** One firing of the display interval: exactly one second on from the previous value, without reading the clock. */
    method Tick()
      requires Valid()
      modifies this`displayTime
      ensures Valid()
      ensures displayTime == old(displayTime) + 1000
    {
      displayTime := displayTime + 1000;
    }

    /** `n` consecutive firings of the display interval, with no other step in between. */
    method RunTicks(n: nat)
      requires Valid()
      modifies this`displayTime
      ensures Valid()
      ensures displayTime == AfterTicks(old(displayTime), n)
    {
      var i := 0;
      while i < n
        invariant 0 <= i <= n
        invariant Valid()
        invariant displayTime == AfterTicks(old(displayTime), i)
      {
        Tick();
        i := i + 1;
      }
    }

    /** A mouse move, key press or scroll at instant `now`: idling restarts from now. */
    method Activity(now: int)
      requires Valid()
      modifies this`isIdle, this`idleStart, this`idleTime
      ensures Valid()
      ensures idleTime == 0 && idleStart == Some(now) && !isIdle
    {
      if isIdle {
        isIdle := false;
      }
      idleStart := Some(now);
      idleTime := 0;
    }

    /**
     * One firing of the idle interval at instant `now`: once an idle start is
     * recorded, the idle time becomes the whole seconds elapsed since it;
     * before that, nothing changes.
     */
    method RecomputeIdle(now: int)
      requires Valid()
      modifies this`idleTime
      ensures Valid()
      ensures StartRecorded(idleStart) ==> idleTime == IdleSeconds(idleStart.value, now)
      ensures !StartRecorded(idleStart) ==> idleTime == old(idleTime)
    {
      if StartRecorded(idleStart) {
        idleTime := (now - idleStart.value) / 1000;
      }
    }

    /**
     * The unload hook at instant `now`: the accessor's write branch stores the
     * shown time as the close time and now as the terminate time.
     */
    method Unload(store: LocalStorage, now: int, toIso: int -> string)
      requires Valid()
      requires toIso(displayTime) != [] && toIso(now) != []
      modifies store
      ensures Valid()
      ensures store.items == Persisted(old(store.items), displayTime, now, toIso)
    {
      var _ := UseLocalStorage(store, CloseKey, Some(toIso(displayTime)));
      var _ := UseLocalStorage(store, TerminateKey, Some(toIso(now)));
    }
  }
}
