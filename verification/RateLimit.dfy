/**
  The sliding window of `_check_rate_limit`: mkdb/server/coms/http_handlers.py:104-165.

  Times are readings of a clock that does not go back.
 */
module RateLimit {
  import opened Json

  /** `[t for t in ts if t > cutoff]`. */
  function After(ts: seq<real>, cutoff: real): (r: seq<real>)
    ensures forall t :: t in r <==> t in ts && t > cutoff
  {
    if ts == [] then []
    else
      var before, last := After(ts[..|ts| - 1], cutoff), ts[|ts| - 1];
      assert ts == ts[..|ts| - 1] + [last];
      if last > cutoff then before + [last] else before
  }

  /** One request that reached a check, and whether it passed it. */
  datatype Visit = Visit(time: real, passed: bool)

  function Times(h: seq<Visit>): (r: seq<real>)
    ensures |r| == |h| && forall i :: 0 <= i < |h| ==> r[i] == h[i].time
  {
    seq(|h|, i requires 0 <= i < |h| => h[i].time)
  }

  predicate Ordered(h: seq<Visit>) { forall i, j :: 0 <= i < j < |h| ==> h[i].time <= h[j].time }

  /** The visits in the second that ends with the last of them. */
  function LastSecond(h: seq<Visit>): seq<real>
    requires h != []
  {
    After(Times(h), h[|h| - 1].time - 1.0)
  }

  /** Whoever passed did so with at most limit visits in the second up to then. */
  ghost predicate Limited(h: seq<Visit>, limit: int)
  {
    forall n :: 0 < n <= |h| ==> (h[n - 1].passed <==> |LastSecond(h[..n])| <= limit)
  }

  /** How many passed in the second after `from`. */
  function PassedIn(h: seq<Visit>, from: real): nat
  {
    if h == [] then 0
    else
      var last := h[|h| - 1];
      PassedIn(h[..|h| - 1], from) + if last.passed && from < last.time <= from + 1.0 then 1 else 0
  }

  /** How many came in the second after `from`. */
  function ArrivedIn(h: seq<Visit>, from: real): nat
  {
    if h == [] then 0
    else
      var last := h[|h| - 1];
      ArrivedIn(h[..|h| - 1], from) + if from < last.time <= from + 1.0 then 1 else 0
  }

  lemma {:induction false} AfterCounts(h: seq<Visit>, from: real)
    requires forall v :: v in h ==> v.time <= from + 1.0
    ensures |After(Times(h), from)| == ArrivedIn(h, from)
    decreases |h|
  {
    if h != [] {
      var before, last := h[..|h| - 1], h[|h| - 1];
      assert h == before + [last];
      AfterCounts(before, from);
      TimesAppend(before, last);
      assert (Times(before) + [last.time])[..|before|] == Times(before);
    }
  }

  /**
    A request passes exactly when no more than limit requests, itself included, came in the
    second that ends with it.
   */
  lemma PassesByCount(h: seq<Visit>, limit: int)
    requires Ordered(h)
    ensures Limited(h, limit) <==>
            forall n :: 0 < n <= |h| ==> (h[n - 1].passed <==> ArrivedIn(h[..n], h[n - 1].time - 1.0) <= limit)
  {
    forall n | 0 < n <= |h| ensures |LastSecond(h[..n])| == ArrivedIn(h[..n], h[n - 1].time - 1.0) {
      forall v | v in h[..n] ensures v.time <= h[n - 1].time {
        var i :| 0 <= i < n && h[..n][i] == v;
        assert h[i] == v;
      }
      AfterCounts(h[..n], h[n - 1].time - 1.0);
    }
  }

  lemma {:induction false} AfterAfter(ts: seq<real>, a: real, b: real)
    requires a <= b
    ensures After(After(ts, a), b) == After(ts, b)
    decreases |ts|
  {
    if ts != [] {
      var before, last := ts[..|ts| - 1], ts[|ts| - 1];
      AfterAfter(before, a, b);
      if last > a { assert After(ts, a)[..|After(before, a)|] == After(before, a); }
    }
  }

  lemma AfterAppend(ts: seq<real>, t: real, cutoff: real)
    requires t > cutoff
    ensures After(ts + [t], cutoff) == After(ts, cutoff) + [t]
  {
    assert (ts + [t])[..|ts|] == ts;
  }

  lemma TimesAppend(h: seq<Visit>, v: Visit)
    ensures Times(h + [v]) == Times(h) + [v.time]
  {
  }

  /** The list kept for a key is the visits of the last second, and filtering it again gives those of the next. */
  lemma TrackedIsLastSecond(h: seq<Visit>, tracked: seq<real>, v: Visit)
    requires if h == [] then tracked == [] else tracked == LastSecond(h) && h[|h| - 1].time <= v.time
    ensures After(tracked, v.time - 1.0) + [v.time] == LastSecond(h + [v])
  {
    TimesAppend(h, v);
    AfterAppend(Times(h), v.time, v.time - 1.0);
    if h == [] {
      assert Times(h) == [];
    } else {
      AfterAfter(Times(h), h[|h| - 1].time - 1.0, v.time - 1.0);
    }
  }

  /** Counting one by one never exceeds the list of visits after a cutoff. */
  lemma {:induction false} PassedAreVisits(h: seq<Visit>, from: real, cutoff: real)
    requires cutoff <= from
    ensures PassedIn(h, from) <= |After(Times(h), cutoff)|
    decreases |h|
  {
    if h != [] {
      var before := h[..|h| - 1];
      PassedAreVisits(before, from, cutoff);
      assert h == before + [h[|h| - 1]];
      TimesAppend(before, h[|h| - 1]);
      assert (Times(before) + [h[|h| - 1].time])[..|before|] == Times(before);
    }
  }

  /** In no window of one second, wherever it starts, do more requests pass than the limit. */
  lemma {:induction false} WindowBound(h: seq<Visit>, limit: int, from: real)
    requires Ordered(h) && Limited(h, limit)
    ensures PassedIn(h, from) <= limit || PassedIn(h, from) == 0
    decreases |h|
  {
    if h != [] {
      var before, last := h[..|h| - 1], h[|h| - 1];
      if last.passed && from < last.time <= from + 1.0 {
        PassedAreVisits(h, from, last.time - 1.0);
        assert h[..|h|] == h;
      } else {
        assert forall n :: 0 < n <= |before| ==> before[..n] == h[..n];
        WindowBound(before, limit, from);
      }
    }
  }

  lemma LimitedStep(h: seq<Visit>, limit: int, v: Visit)
    requires Limited(h, limit) && (v.passed <==> |LastSecond(h + [v])| <= limit)
    ensures Limited(h + [v], limit)
  {
    forall n | 0 < n <= |h| ensures (h + [v])[..n] == h[..n] {
    }
    assert (h + [v])[..|h| + 1] == h + [v];
  }

  function History<K(==)>(visits: map<K, seq<Visit>>, k: K): seq<Visit> { if k in visits then visits[k] else [] }

  function Tracked<K(==)>(tracker: map<K, seq<real>>, k: K): seq<real> { if k in tracker then tracker[k] else [] }

  /** What a tracker holds for one key, seen against the visits under that key. */
  ghost predicate Keeps(tracked: seq<real>, h: seq<Visit>, limit: int, clock: real)
  {
    && Ordered(h) && Limited(h, limit)
    && (if h == [] then tracked == [] else tracked == LastSecond(h) && h[|h| - 1].time <= clock)
  }

  lemma KeepsStep(tracked: seq<real>, h: seq<Visit>, limit: int, clock: real, now: real)
    requires Keeps(tracked, h, limit, clock) && clock <= now
    ensures var t := After(tracked, now - 1.0) + [now];
            Keeps(t, h + [Visit(now, |t| <= limit)], limit, now) && t == LastSecond(h + [Visit(now, true)])
  {
    var t := After(tracked, now - 1.0) + [now];
    var v := Visit(now, |t| <= limit);
    TrackedIsLastSecond(h, tracked, v);
    TrackedIsLastSecond(h, tracked, Visit(now, true));
    LimitedStep(h, limit, v);
  }

  ghost predicate GlobalKeeps(tracker: map<string, seq<real>>, visits: map<string, seq<Visit>>, limit: int, clock: real)
  {
    forall ip :: Keeps(Tracked(tracker, ip), History(visits, ip), limit, clock)
  }

  ghost predicate StoresKeep(tracker: map<(string, string), seq<real>>, visits: map<(string, string), seq<Visit>>,
                             limits: map<string, int>, clock: real)
  {
    forall ip, store :: store in limits ==>
      Keeps(Tracked(tracker, (ip, store)), History(visits, (ip, store)), limits[store], clock)
  }

  lemma GlobalStep(tracker: map<string, seq<real>>, visits: map<string, seq<Visit>>, limit: int, clock: real,
                   ip: string, now: real)
    requires GlobalKeeps(tracker, visits, limit, clock) && clock <= now
    ensures var h, ts := History(visits, ip), After(Tracked(tracker, ip), now - 1.0) + [now];
            && ts == LastSecond(h + [Visit(now, true)])
            && GlobalKeeps(tracker[ip := ts], visits[ip := h + [Visit(now, |ts| <= limit)]], limit, now)
  {
    hide Ordered, Limited, LastSecond, After;
    KeepsStep(Tracked(tracker, ip), History(visits, ip), limit, clock, now);
    var h, ts := History(visits, ip), After(Tracked(tracker, ip), now - 1.0) + [now];
    var tracker', visits' := tracker[ip := ts], visits[ip := h + [Visit(now, |ts| <= limit)]];
    forall other ensures Keeps(Tracked(tracker', other), History(visits', other), limit, now) {
      if other != ip { assert Keeps(Tracked(tracker, other), History(visits, other), limit, clock); }
    }
  }

  lemma StoresLater(tracker: map<(string, string), seq<real>>, visits: map<(string, string), seq<Visit>>,
                    limits: map<string, int>, clock: real, now: real)
    requires StoresKeep(tracker, visits, limits, clock) && clock <= now
    ensures StoresKeep(tracker, visits, limits, now)
  {
    hide Ordered, Limited, LastSecond;
  }

  lemma StoreStep(tracker: map<(string, string), seq<real>>, visits: map<(string, string), seq<Visit>>,
                  limits: map<string, int>, now: real, ip: string, store: string)
    requires StoresKeep(tracker, visits, limits, now) && store in limits
    ensures var k := (ip, store);
            var h, ts := History(visits, k), After(Tracked(tracker, k), now - 1.0) + [now];
            && ts == LastSecond(h + [Visit(now, true)])
            && StoresKeep(tracker[k := ts], visits[k := h + [Visit(now, |ts| <= limits[store])]], limits, now)
  {
    hide Ordered, Limited, LastSecond, After;
    KeepsStep(Tracked(tracker, (ip, store)), History(visits, (ip, store)), limits[store], now, now);
  }

  class RateLimiter {
    const globalLimit: int
    const storeLimits: map<string, int>                        // the stores with an enabled rate limit
    var tracker: map<string, seq<real>>                        // by IP
    var storeTracker: map<(string, string), seq<real>>         // by IP and store
    ghost var visits: map<string, seq<Visit>>
    ghost var storeVisits: map<(string, string), seq<Visit>>   // those that passed the global check
    ghost var clock: real

    ghost predicate Valid()
      reads this
    {
      GlobalKeeps(tracker, visits, globalLimit, clock) && StoresKeep(storeTracker, storeVisits, storeLimits, clock)
    }

    constructor (globalLimit: int, storeLimits: map<string, int>, now: real)
      ensures Valid() && visits == map[] && storeVisits == map[] && clock == now
    {
      this.globalLimit, this.storeLimits := globalLimit, storeLimits;
      tracker, storeTracker, visits, storeVisits, clock := map[], map[], map[], map[], now;
    }

    /** True when the request is turned away with status 429. */
    method CheckRateLimit(ip: string, store: Option<string>, now: real) returns (limited: bool)
      requires Valid() && clock <= now
      modifies this
      ensures Valid() && clock == now
      ensures var h := old(History(visits, ip));
              var globalOk := |LastSecond(h + [Visit(now, true)])| <= globalLimit;
              visits == old(visits)[ip := h + [Visit(now, globalOk)]]
              && if globalOk && store.Some? && store.value in storeLimits then
                   var k := (ip, store.value);
                   var sh := old(History(storeVisits, k));
                   var storeOk := |LastSecond(sh + [Visit(now, true)])| <= storeLimits[store.value];
                   limited == !storeOk && storeVisits == old(storeVisits)[k := sh + [Visit(now, storeOk)]]
                 else limited == !globalOk && storeVisits == old(storeVisits)
    {
      hide GlobalKeeps, StoresKeep, LastSecond, After;
      GlobalStep(tracker, visits, globalLimit, clock, ip, now);
      StoresLater(storeTracker, storeVisits, storeLimits, clock, now);
      var ts := After(Tracked(tracker, ip), now - 1.0) + [now];
      tracker := tracker[ip := ts];
      visits := visits[ip := History(visits, ip) + [Visit(now, |ts| <= globalLimit)]];
      clock := now;
      if |ts| > globalLimit {
        return true;
      }
      if store.Some? && store.value in storeLimits {
        StoreStep(storeTracker, storeVisits, storeLimits, now, ip, store.value);
        var k, limit := (ip, store.value), storeLimits[store.value];
        var st := After(Tracked(storeTracker, k), now - 1.0) + [now];
        storeTracker := storeTracker[k := st];
        storeVisits := storeVisits[k := History(storeVisits, k) + [Visit(now, |st| <= limit)]];
        if |st| > limit {
          return true;
        }
      }
      return false;
    }

    /** In no second do more requests from one IP pass the global check, or a store's check, than its limit. */
    lemma NeverMoreThanTheLimit(ip: string, store: string, from: real)
      requires Valid()
      ensures var n := PassedIn(History(visits, ip), from); n <= globalLimit || n == 0
      ensures store in storeLimits ==>
                var n := PassedIn(History(storeVisits, (ip, store)), from); n <= storeLimits[store] || n == 0
    {
      hide Ordered, Limited;
      assert Keeps(Tracked(tracker, ip), History(visits, ip), globalLimit, clock);
      WindowBound(History(visits, ip), globalLimit, from);
      if store in storeLimits {
        assert Keeps(Tracked(storeTracker, (ip, store)), History(storeVisits, (ip, store)), storeLimits[store], clock);
        WindowBound(History(storeVisits, (ip, store)), storeLimits[store], from);
      }
    }
  }
}
