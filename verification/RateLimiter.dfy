/** hub_http.go, HubRateLimiter: fixed windows per key that start with the first request after the previous window. When
    the table grows past 1024 keys, a request that opens a window also evicts expired entries. Times are in nanoseconds;
    0 is the zero time, which the limiter reads as "no window". */
module RateLimiter {
  import opened Options

  const ZERO_TIME := 0
  const MAX_ENTRIES := 1024
  const DEFAULT_LIMIT := 60
  const DEFAULT_WINDOW := 60_000_000_000

  datatype Entry = Entry(started: int, count: int)
  type Entries = map<string, Entry>
  datatype Config = Config(limit: int, window: int)

  predicate ValidConfig(c: Config) { c.limit > 0 && c.window > 0 }

  function Get(es: Entries, key: string): Option<Entry> { if key in es then Some(es[key]) else None }

  /** A request at `now` opens a new window. */
  predicate Opens(c: Config, e: Option<Entry>, now: int) {
    e.None? || e.value.started == ZERO_TIME || now - e.value.started >= c.window
  }

  predicate Admits(c: Config, e: Option<Entry>, now: int) { Opens(c, e, now) || e.value.count < c.limit }

  function Updated(c: Config, e: Option<Entry>, now: int): Option<Entry> {
    if Opens(c, e, now) then Some(Entry(now, 1))
    else if e.value.count >= c.limit then e
    else Some(Entry(e.value.started, e.value.count + 1))
  }

  /** The table of a limiter that never evicts. */
  function Kept(c: Config, es: Entries, key: string, now: int): Entries {
    es[key := Updated(c, Get(es, key), now).value]
  }

  function Evict(c: Config, es: Entries, now: int): Entries {
    if |es| <= MAX_ENTRIES then es else map k | k in es && now - es[k].started < c.window :: es[k]
  }

  /** The table of the actual limiter. */
  function Next(c: Config, es: Entries, key: string, now: int): Entries {
    if Opens(c, Get(es, key), now) then Evict(c, Kept(c, es, key, now), now) else Kept(c, es, key, now)
  }

  class HubRateLimiter {
    const limit: int
    const window: int
    var entries: Entries

    ghost function Settings(): Config { Config(limit, window) }

    constructor (limit: int, window: int)
      ensures ValidConfig(Settings()) && entries == map[]
      ensures limit > 0 ==> this.limit == limit
      ensures window > 0 ==> this.window == window
    {
      this.limit := if limit <= 0 then DEFAULT_LIMIT else limit;
      this.window := if window <= 0 then DEFAULT_WINDOW else window;
      entries := map[];
    }

    method Allow(key: string, now: int) returns (ok: bool)
      modifies this
      ensures ok <==> Admits(Settings(), Get(old(entries), key), now)
      ensures entries == Next(Settings(), old(entries), key, now)
    {
      if key !in entries || entries[key].started == ZERO_TIME || now - entries[key].started >= window {
        entries := entries[key := Entry(now, 1)];
        Cleanup(now);
        return true;
      }
      var entry := entries[key];
      if entry.count >= limit {
        assert entries == entries[key := entry];
        return false;
      }
      entries := entries[key := Entry(entry.started, entry.count + 1)];
      return true;
    }

    method Cleanup(now: int)
      modifies this
      ensures entries == Evict(Settings(), old(entries), now)
    {
      if |entries| <= MAX_ENTRIES { return; }
      var remaining := entries.Keys;
      while remaining != {}
        invariant remaining <= entries.Keys <= old(entries).Keys
        invariant forall k :: k in entries ==> entries[k] == old(entries)[k]
        invariant forall k :: k in old(entries) && k !in remaining ==>
                    (k in entries <==> now - old(entries)[k].started < window)
      {
        var k :| k in remaining;
        if now - entries[k].started >= window {
          entries := entries - {k};
        }
        remaining := remaining - {k};
      }
      assert entries == map k | k in old(entries) && now - old(entries)[k].started < window :: old(entries)[k];
    }
  }

  // ---------- runs ----------

  datatype Request = Request(key: string, now: int)

  /** The clock of a run never goes back and starts at `from` or later. */
  ghost predicate Clocked(rs: seq<Request>, from: int) {
    rs == [] || (from <= rs[0].now && Clocked(rs[1..], rs[0].now))
  }

  function Decisions(c: Config, es: Entries, rs: seq<Request>): seq<bool>
    decreases |rs|
  {
    if rs == [] then []
    else [Admits(c, Get(es, rs[0].key), rs[0].now)] + Decisions(c, Next(c, es, rs[0].key, rs[0].now), rs[1..])
  }

  function DecisionsKept(c: Config, es: Entries, rs: seq<Request>): seq<bool>
    decreases |rs|
  {
    if rs == [] then []
    else [Admits(c, Get(es, rs[0].key), rs[0].now)] + DecisionsKept(c, Kept(c, es, rs[0].key, rs[0].now), rs[1..])
  }

  /** `es` is `full` without some entries whose window is over by `now`. */
  ghost predicate Thinned(c: Config, es: Entries, full: Entries, now: int) {
    && (forall k :: k in es ==> k in full && es[k] == full[k])
    && (forall k :: k in full && k !in es ==> now - full[k].started >= c.window)
  }

  lemma ThinnedStep(c: Config, es: Entries, full: Entries, key: string, from: int, now: int)
    requires ValidConfig(c) && Thinned(c, es, full, from) && from <= now
    ensures Admits(c, Get(es, key), now) == Admits(c, Get(full, key), now)
    ensures Thinned(c, Next(c, es, key, now), Kept(c, full, key, now), now)
  {
    assert Opens(c, Get(es, key), now) == Opens(c, Get(full, key), now);
    assert Thinned(c, Kept(c, es, key, now), Kept(c, full, key, now), now);
  }

  /** Eviction is invisible: in every run the limiter decides like one that keeps every entry. */
  lemma {:induction false} EvictionInvisible(c: Config, es: Entries, full: Entries, rs: seq<Request>, from: int)
    requires ValidConfig(c) && Clocked(rs, from) && Thinned(c, es, full, from)
    ensures Decisions(c, es, rs) == DecisionsKept(c, full, rs)
    decreases |rs|
  {
    if rs != [] {
      var key, now := rs[0].key, rs[0].now;
      ThinnedStep(c, es, full, key, from, now);
      EvictionInvisible(c, Next(c, es, key, now), Kept(c, full, key, now), rs[1..], now);
    }
  }

  // ---------- the decision, in terms of the requests alone ----------

  /** When the current window of `key` opened: at its first request, and again at its first request a whole window later. */
  function Opening(c: Config, rs: seq<Request>, key: string): Option<int> {
    if rs == [] then None
    else
      var open, last := Opening(c, rs[..|rs| - 1], key), rs[|rs| - 1];
      if last.key == key && (open.None? || last.now >= open.value + c.window) then Some(last.now) else open
  }

  /** How many requests for `key` arrived at `start` or later. */
  function Since(rs: seq<Request>, key: string, start: int): nat {
    if rs == [] then 0
    else Since(rs[..|rs| - 1], key, start) + (if rs[|rs| - 1].key == key && rs[|rs| - 1].now >= start then 1 else 0)
  }

  /** The table of a limiter that never evicts, after a run. */
  function After(c: Config, es: Entries, rs: seq<Request>): Entries
    decreases |rs|
  {
    if rs == [] then es else After(c, Kept(c, es, rs[0].key, rs[0].now), rs[1..])
  }

  lemma {:induction false} AfterSnoc(c: Config, es: Entries, rs: seq<Request>, r: Request)
    ensures After(c, es, rs + [r]) == Kept(c, After(c, es, rs), r.key, r.now)
    decreases |rs|
  {
    hide Kept;
    if rs != [] {
      AfterSnoc(c, Kept(c, es, rs[0].key, rs[0].now), rs[1..], r);
      assert (rs + [r])[1..] == rs[1..] + [r];
    }
  }

  lemma {:induction false} DecisionAt(c: Config, es: Entries, rs: seq<Request>, i: nat)
    requires i < |rs|
    ensures |DecisionsKept(c, es, rs)| == |rs|
    ensures DecisionsKept(c, es, rs)[i] == Admits(c, Get(After(c, es, rs[..i]), rs[i].key), rs[i].now)
    decreases |rs|
  {
    hide Kept, Admits;
    CountIsAdmitted(c, es, rs, "", 0, 0);
    if i > 0 {
      DecisionAt(c, Kept(c, es, rs[0].key, rs[0].now), rs[1..], i - 1);
      assert rs[..i][1..] == rs[1..][..i - 1];
    }
  }

  /** No request of the key lies a window or more behind its opening. */
  ghost predicate WithinWindow(c: Config, rs: seq<Request>, key: string) {
    forall i :: 0 <= i < |rs| && rs[i].key == key ==>
      Opening(c, rs, key).Some? && rs[i].now < Opening(c, rs, key).value + c.window
  }

  lemma {:induction false} NoneSince(rs: seq<Request>, key: string, start: int)
    requires forall i :: 0 <= i < |rs| && rs[i].key == key ==> rs[i].now < start
    ensures Since(rs, key, start) == 0
  {
    if rs != [] { NoneSince(rs[..|rs| - 1], key, start); }
  }

  lemma {:induction false} RequestsWithinWindow(c: Config, rs: seq<Request>, key: string)
    requires c.window > 0
    ensures WithinWindow(c, rs, key)
  {
    if rs != [] {
      var init := rs[..|rs| - 1];
      RequestsWithinWindow(c, init, key);
      assert forall i :: 0 <= i < |init| ==> rs[i] == init[i];
    }
  }

  /** The entry of a key: when its window opened, and the requests since then up to the limit. */
  ghost function Expected(c: Config, rs: seq<Request>, key: string): Option<Entry> {
    match Opening(c, rs, key)
    case None => None
    case Some(start) => Some(Entry(start, if Since(rs, key, start) < c.limit then Since(rs, key, start) else c.limit))
  }

  lemma {:induction false} OpeningIsReal(c: Config, rs: seq<Request>, key: string)
    requires forall i :: 0 <= i < |rs| ==> rs[i].now > ZERO_TIME
    ensures Opening(c, rs, key).Some? ==> Opening(c, rs, key).value > ZERO_TIME
  {
    if rs != [] { OpeningIsReal(c, rs[..|rs| - 1], key); }
  }

  lemma ExpectedStep(c: Config, rs: seq<Request>, r: Request, key: string)
    requires ValidConfig(c) && (Opening(c, rs, key).Some? ==> Opening(c, rs, key).value > ZERO_TIME)
    requires Clocked(rs + [r], ZERO_TIME)
    ensures Expected(c, rs + [r], key) == if r.key == key then Updated(c, Expected(c, rs, key), r.now) else Expected(c, rs, key)
  {
    assert (rs + [r])[..|rs|] == rs;
    RequestsWithinWindow(c, rs, key);
    if r.key == key && (Opening(c, rs, key).None? || r.now >= Opening(c, rs, key).value + c.window) {
      NoneSince(rs, key, r.now);
    }
    if Opening(c, rs, key).Some? { OpeningNotLater(c, rs, r, key); }
  }

  lemma {:induction false} OpeningNotLater(c: Config, rs: seq<Request>, r: Request, key: string)
    requires Clocked(rs + [r], ZERO_TIME) && Opening(c, rs, key).Some?
    ensures Opening(c, rs, key).value <= r.now
  {
    ClockedInit(rs, r, ZERO_TIME);
    OpeningIsARequest(c, rs, key);
  }

  lemma {:induction false} OpeningIsARequest(c: Config, rs: seq<Request>, key: string)
    requires Opening(c, rs, key).Some?
    ensures exists i :: 0 <= i < |rs| && rs[i].now == Opening(c, rs, key).value
  {
    if rs[|rs| - 1].now != Opening(c, rs, key).value {
      OpeningIsARequest(c, rs[..|rs| - 1], key);
      var i :| 0 <= i < |rs| - 1 && rs[..|rs| - 1][i].now == Opening(c, rs, key).value;
      assert rs[i].now == Opening(c, rs, key).value;
    }
  }

  /** The last request of a clocked run is the latest. */
  lemma {:induction false} ClockedInit(rs: seq<Request>, r: Request, from: int)
    requires Clocked(rs + [r], from)
    ensures from <= r.now && Clocked(rs, from) && forall i :: 0 <= i < |rs| ==> rs[i].now <= r.now
    decreases |rs|
  {
    if rs != [] {
      assert (rs + [r])[1..] == rs[1..] + [r];
      ClockedInit(rs[1..], r, rs[0].now);
      assert forall i :: 1 <= i < |rs| ==> rs[i] == rs[1..][i - 1];
    }
  }

  lemma {:induction false} EntryIsExpected(c: Config, rs: seq<Request>, key: string)
    requires ValidConfig(c) && (forall i :: 0 <= i < |rs| ==> rs[i].now > ZERO_TIME) && Clocked(rs, ZERO_TIME)
    ensures Get(After(c, map[], rs), key) == Expected(c, rs, key)
  {
    if rs != [] {
      hide Updated, Expected;
      var init, r := rs[..|rs| - 1], rs[|rs| - 1];
      assert rs == init + [r];
      ClockedInit(init, r, ZERO_TIME);
      EntryIsExpected(c, init, key);
      OpeningIsReal(c, init, key);
      ExpectedStep(c, init, r, key);
      AfterSnoc(c, map[], init, r);
      UpdatedIsSome(c, Get(After(c, map[], init), r.key), r.now);
    }
  }

  lemma {:induction false} ClockedPrefix(rs: seq<Request>, i: nat, from: int)
    requires i <= |rs| && Clocked(rs, from)
    ensures Clocked(rs[..i], from)
    decreases |rs|
  {
    if i > 0 {
      ClockedPrefix(rs[1..], i - 1, rs[0].now);
      assert rs[..i][1..] == rs[1..][..i - 1];
    }
  }

  /** A request is admitted exactly when it opens a window, or fewer than `limit` requests for its key, admitted or refused,
      arrived since the current window opened. */
  lemma DecisionIff(c: Config, rs: seq<Request>, i: nat)
    requires ValidConfig(c) && (forall i :: 0 <= i < |rs| ==> rs[i].now > ZERO_TIME) && Clocked(rs, ZERO_TIME) && i < |rs|
    ensures |Decisions(c, map[], rs)| == |rs|
    ensures var earlier, r := rs[..i], rs[i];
            Decisions(c, map[], rs)[i] <==>
              match Opening(c, earlier, r.key)
              case None => true
              case Some(start) => r.now >= start + c.window || Since(earlier, r.key, start) < c.limit
  {
    var earlier, r := rs[..i], rs[i];
    EvictionInvisible(c, map[], map[], rs, ZERO_TIME);
    DecisionAt(c, map[], rs, i);
    ClockedPrefix(rs, i, ZERO_TIME);
    EntryIsExpected(c, earlier, r.key);
    OpeningIsReal(c, earlier, r.key);
  }

  // ---------- how much a window admits ----------

  /** How many requests for `key` a run admits at times in [lo, hi). */
  function Admitted(c: Config, es: Entries, rs: seq<Request>, key: string, lo: int, hi: int): nat
    decreases |rs|
  {
    if rs == [] then 0
    else
      (if rs[0].key == key && lo <= rs[0].now < hi && Admits(c, Get(es, key), rs[0].now) then 1 else 0) +
      Admitted(c, Kept(c, es, rs[0].key, rs[0].now), rs[1..], key, lo, hi)
  }

  /** The same count, read off the decisions of the actual limiter. */
  function CountAdmitted(rs: seq<Request>, ds: seq<bool>, key: string, lo: int, hi: int): nat
    requires |rs| == |ds|
    decreases |rs|
  {
    if rs == [] then 0
    else (if rs[0].key == key && lo <= rs[0].now < hi && ds[0] then 1 else 0) + CountAdmitted(rs[1..], ds[1..], key, lo, hi)
  }

  lemma {:induction false} CountIsAdmitted(c: Config, es: Entries, rs: seq<Request>, key: string, lo: int, hi: int)
    ensures |DecisionsKept(c, es, rs)| == |rs|
    ensures CountAdmitted(rs, DecisionsKept(c, es, rs), key, lo, hi) == Admitted(c, es, rs, key, lo, hi)
    decreases |rs|
  {
    if rs != [] {
      CountIsAdmitted(c, Kept(c, es, rs[0].key, rs[0].now), rs[1..], key, lo, hi);
      assert DecisionsKept(c, es, rs)[1..] == DecisionsKept(c, Kept(c, es, rs[0].key, rs[0].now), rs[1..]);
    }
  }

  lemma {:induction false} NoneAfter(c: Config, es: Entries, rs: seq<Request>, key: string, lo: int, hi: int, from: int)
    requires Clocked(rs, from) && hi <= from
    ensures Admitted(c, es, rs, key, lo, hi) == 0
    decreases |rs|
  {
    if rs != [] { NoneAfter(c, Kept(c, es, rs[0].key, rs[0].now), rs[1..], key, lo, hi, rs[0].now); }
  }

  /** Entries seen by time `from`: opened in the past, at a real time, and counted up to the limit. */
  predicate EntryOk(c: Config, e: Option<Entry>, from: int) {
    e.Some? ==> ZERO_TIME < e.value.started <= from && 1 <= e.value.count <= c.limit
  }

  /** The most that can still be admitted in [lo, lo + window), given the entry at time `from`. */
  function Room(c: Config, e: Option<Entry>, from: int, lo: int): int {
    if from < lo then 2 * c.limit - 1
    else if e.None? then c.limit
    else if e.value.started < lo then 2 * c.limit - e.value.count
    else c.limit - e.value.count
  }

  lemma RoomStep(c: Config, e: Option<Entry>, from: int, now: int, lo: int)
    requires ValidConfig(c) && EntryOk(c, e, from) && ZERO_TIME < now && from <= now < lo + c.window
    ensures EntryOk(c, Updated(c, e, now), now)
    ensures (if lo <= now && Admits(c, e, now) then 1 else 0) + Room(c, Updated(c, e, now), now, lo) <= Room(c, e, from, lo)
  {
  }

  lemma RoomShrinks(c: Config, e: Option<Entry>, from: int, now: int, lo: int)
    requires ValidConfig(c) && EntryOk(c, e, from) && from <= now
    ensures EntryOk(c, e, now) && 0 <= Room(c, e, now, lo) <= Room(c, e, from, lo)
  {
  }

  lemma {:induction false} AdmittedWithinRoom(c: Config, es: Entries, rs: seq<Request>, key: string, lo: int, from: int)
    requires ValidConfig(c) && Clocked(rs, from) && EntryOk(c, Get(es, key), from)
    requires forall i :: 0 <= i < |rs| ==> rs[i].now > ZERO_TIME
    ensures Admitted(c, es, rs, key, lo, lo + c.window) <= Room(c, Get(es, key), from, lo)
    decreases |rs|
  {
    hide Room, EntryOk, Updated, Admits;
    RoomShrinks(c, Get(es, key), from, from, lo);
    if rs != [] {
      var r, hi := rs[0], lo + c.window;
      var es' := Kept(c, es, r.key, r.now);
      RoomShrinks(c, Get(es, key), from, r.now, lo);
      if hi <= r.now {
        NoneAfter(c, es', rs[1..], key, lo, hi, r.now);
      } else if r.key == key {
        RoomStep(c, Get(es, key), from, r.now, lo);
        assert Get(es', key) == Updated(c, Get(es, key), r.now) by { UpdatedIsSome(c, Get(es, key), r.now); }
        AdmittedWithinRoom(c, es', rs[1..], key, lo, r.now);
      } else {
        AdmittedWithinRoom(c, es', rs[1..], key, lo, r.now);
      }
    }
  }

  lemma UpdatedIsSome(c: Config, e: Option<Entry>, now: int)
    ensures Updated(c, e, now).Some?
  {
  }

  /** For every run of the limiter from empty, with real times and a clock that never goes back, any interval of one
      window length admits at most 2 * limit - 1 requests per key. */
  lemma AnyWindowBounded(c: Config, rs: seq<Request>, key: string, lo: int)
    requires ValidConfig(c) && (forall i :: 0 <= i < |rs| ==> rs[i].now > ZERO_TIME) && Clocked(rs, ZERO_TIME)
    ensures |Decisions(c, map[], rs)| == |rs|
    ensures CountAdmitted(rs, Decisions(c, map[], rs), key, lo, lo + c.window) <= 2 * c.limit - 1
  {
    EvictionInvisible(c, map[], map[], rs, ZERO_TIME);
    CountIsAdmitted(c, map[], rs, key, lo, lo + c.window);
    AdmittedWithinRoom(c, map[], rs, key, lo, ZERO_TIME);
  }

  /** Inside a window that the limiter itself opened, at most `limit` requests are admitted, the opening one included. */
  lemma OwnWindowBounded(c: Config, es: Entries, rs: seq<Request>, key: string, start: int)
    requires ValidConfig(c) && start > ZERO_TIME && Opens(c, Get(es, key), start)
    requires (forall i :: 0 <= i < |rs| ==> rs[i].now > ZERO_TIME) && Clocked(rs, start)
    ensures var ds := Decisions(c, Next(c, es, key, start), rs);
            |ds| == |rs| && 1 + CountAdmitted(rs, ds, key, start, start + c.window) <= c.limit
  {
    hide Opens;
    ThinnedStep(c, es, es, key, start, start);
    EvictionInvisible(c, Next(c, es, key, start), Kept(c, es, key, start), rs, start);
    CountIsAdmitted(c, Kept(c, es, key, start), rs, key, start, start + c.window);
    OpenedEntry(c, es, key, start);
    AdmittedWithinRoom(c, Kept(c, es, key, start), rs, key, start, start);
  }

  lemma OpenedEntry(c: Config, es: Entries, key: string, start: int)
    requires Opens(c, Get(es, key), start)
    ensures Get(Kept(c, es, key, start), key) == Some(Entry(start, 1))
  {
  }

  /** A burst of n requests for one key at one time. */
  function Burst(key: string, now: int, n: nat): seq<Request> {
    if n == 0 then [] else [Request(key, now)] + Burst(key, now, n - 1)
  }

  lemma {:induction false} BurstAdmitted(c: Config, es: Entries, key: string, now: int, n: nat, rest: seq<Request>,
                                         lo: int, hi: int)
    requires lo <= now < hi && key in es && !Opens(c, Get(es, key), now) && es[key].count + n <= c.limit
    ensures Admitted(c, es, Burst(key, now, n) + rest, key, lo, hi) ==
            n + Admitted(c, es[key := Entry(es[key].started, es[key].count + n)], rest, key, lo, hi)
    decreases n
  {
    hide Admitted, Kept;
    if n == 0 {
      assert Burst(key, now, n) + rest == rest;
      assert es[key := Entry(es[key].started, es[key].count)] == es;
    } else {
      var e := es[key];
      var es' := es[key := Entry(e.started, e.count + 1)];
      assert Burst(key, now, n) + rest == [Request(key, now)] + (Burst(key, now, n - 1) + rest);
      AdmitOne(c, es, key, now, Burst(key, now, n - 1) + rest, lo, hi);
      BurstAdmitted(c, es', key, now, n - 1, rest, lo, hi);
      assert es'[key := Entry(e.started, e.count + n)] == es[key := Entry(e.started, e.count + n)];
    }
  }

  lemma AdmitOne(c: Config, es: Entries, key: string, now: int, rest: seq<Request>, lo: int, hi: int)
    requires lo <= now < hi && key in es && !Opens(c, Get(es, key), now) && es[key].count < c.limit
    ensures Admitted(c, es, [Request(key, now)] + rest, key, lo, hi) ==
            1 + Admitted(c, es[key := Entry(es[key].started, es[key].count + 1)], rest, key, lo, hi)
  {
    assert ([Request(key, now)] + rest)[1..] == rest;
  }

  /** The bound is reached: one early request, the rest of its window late, then a full new window. */
  lemma BoundIsReached(c: Config, key: string)
    requires ValidConfig(c) && c.window >= 2
    ensures var w := c.window;
            var rs := [Request(key, 1)] + (Burst(key, w, c.limit - 1) + ([Request(key, w + 1)] + Burst(key, w + 1, c.limit - 1)));
            var ds := Decisions(c, map[], rs);
            |ds| == |rs| && CountAdmitted(rs, ds, key, w, w + w) == 2 * c.limit - 1
  {
    hide Admitted, Burst, Decisions, DecisionsKept, CountAdmitted;
    var w := c.window;
    var tail := [Request(key, w + 1)] + Burst(key, w + 1, c.limit - 1);
    var es0: Entries := map[];
    var es1 := es0[key := Entry(1, 1)];
    OpenOne(c, es0, key, 1, Burst(key, w, c.limit - 1) + tail, w, w + w);
    BurstAdmitted(c, es1, key, w, c.limit - 1, tail, w, w + w);
    WindowFull(c, es1[key := Entry(1, 1 + (c.limit - 1))], key, w + 1, w, w + w);
    var rs := [Request(key, 1)] + (Burst(key, w, c.limit - 1) + tail);
    LateBurstsClocked(c, key);
    EvictionInvisible(c, map[], map[], rs, ZERO_TIME);
    CountIsAdmitted(c, map[], rs, key, w, w + w);
  }

  lemma {:induction false} BurstClocked(key: string, now: int, n: nat, rest: seq<Request>)
    requires Clocked(rest, now)
    ensures Clocked(Burst(key, now, n) + rest, now)
  {
    if n == 0 {
      assert Burst(key, now, n) + rest == rest;
    } else {
      BurstClocked(key, now, n - 1, rest);
      assert (Burst(key, now, n) + rest)[1..] == Burst(key, now, n - 1) + rest;
    }
  }

  lemma ClockedCons(r: Request, rest: seq<Request>, from: int)
    requires from <= r.now && Clocked(rest, r.now)
    ensures Clocked([r] + rest, from)
  {
    assert ([r] + rest)[1..] == rest;
  }

  lemma ClockedEarlier(rs: seq<Request>, from: int, earlier: int)
    requires Clocked(rs, from) && earlier <= from
    ensures Clocked(rs, earlier)
  {
  }

  lemma LateBurstsClocked(c: Config, key: string)
    requires ValidConfig(c)
    ensures var w := c.window;
            Clocked([Request(key, 1)] + (Burst(key, w, c.limit - 1) + ([Request(key, w + 1)] + Burst(key, w + 1, c.limit - 1))),
                    ZERO_TIME)
  {
    hide Burst, Clocked;
    var w := c.window;
    var last := Burst(key, w + 1, c.limit - 1);
    assert last + [] == last;
    NothingClocked(w + 1);
    BurstClocked(key, w + 1, c.limit - 1, []);
    ClockedCons(Request(key, w + 1), last, w);
    BurstClocked(key, w, c.limit - 1, [Request(key, w + 1)] + last);
    ClockedEarlier(Burst(key, w, c.limit - 1) + ([Request(key, w + 1)] + last), w, 1);
    ClockedCons(Request(key, 1), Burst(key, w, c.limit - 1) + ([Request(key, w + 1)] + last), ZERO_TIME);
  }

  lemma NothingClocked(from: int)
    ensures Clocked([], from)
  {
  }

  /** A burst that opens a window and uses it up. */
  lemma WindowFull(c: Config, es: Entries, key: string, now: int, lo: int, hi: int)
    requires ValidConfig(c) && Opens(c, Get(es, key), now) && lo <= now < hi && now != ZERO_TIME
    ensures Admitted(c, es, [Request(key, now)] + Burst(key, now, c.limit - 1), key, lo, hi) == c.limit
  {
    hide Admitted;
    var burst := Burst(key, now, c.limit - 1);
    var es' := es[key := Entry(now, 1)];
    OpenOne(c, es, key, now, burst, lo, hi);
    assert burst + [] == burst;
    BurstAdmitted(c, es', key, now, c.limit - 1, [], lo, hi);
    NoneLeft(c, es'[key := Entry(es'[key].started, es'[key].count + (c.limit - 1))], key, lo, hi);
  }

  lemma NoneLeft(c: Config, es: Entries, key: string, lo: int, hi: int)
    ensures Admitted(c, es, [], key, lo, hi) == 0
  {
  }

  lemma OpenOne(c: Config, es: Entries, key: string, now: int, rest: seq<Request>, lo: int, hi: int)
    requires Opens(c, Get(es, key), now)
    ensures Admitted(c, es, [Request(key, now)] + rest, key, lo, hi) ==
            (if lo <= now < hi then 1 else 0) + Admitted(c, es[key := Entry(now, 1)], rest, key, lo, hi)
  {
    assert ([Request(key, now)] + rest)[1..] == rest;
  }

  /** At the zero time the limiter never refuses, however many requests it has counted. */
  lemma ZeroTimeNeverRefused(c: Config, es: Entries, key: string)
    requires key in es ==> es[key].started == ZERO_TIME
    ensures Admits(c, Get(es, key), ZERO_TIME)
    ensures Kept(c, es, key, ZERO_TIME)[key].started == ZERO_TIME
  {
  }
}
