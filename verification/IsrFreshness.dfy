/** What the page cache's protocol keeps over every run: nothing stale is served, one flight a key. */
module IsrFreshness {
  import opened CacheKeys
  import opened IsrMemory
  import opened PageCache
  import opened Wrappers

  // ---- the parts of a step ------------------------------------------------------------

  lemma PutKeepsFresh(cache: seq<CacheItem>, log: set<Invalidation>, key: string, page: CachedPage)
    requires CacheSound(cache, log) && NewerThan(log, key, page.tags, page.flight)
    ensures CacheSound(Newest(Put(cache, key, page)), log)
  {
    hide Names, NewerThan, DistinctKeys;
    PutDistinct(cache, key, page);
    var put := Put(cache, key, page);
    assert forall item :: item in put ==> item in cache || item == CacheItem(key, page);
    assert forall j :: 0 <= j < |Newest(put)| ==> Newest(put)[j] in put;
    NewestDistinct(put);
  }

  lemma NewestDistinct(items: seq<CacheItem>)
    requires DistinctKeys(items)
    ensures DistinctKeys(Newest(items)) && |Newest(items)| <= MAX_CACHED_PAGES
  {
  }

  lemma TouchKeepsFresh(cache: seq<CacheItem>, log: set<Invalidation>, key: string)
    requires CacheSound(cache, log) && Find(cache, key).Some?
    ensures CacheSound(Put(cache, key, Find(cache, key).value), log)
    ensures NewerThan(log, key, Find(cache, key).value.tags, Find(cache, key).value.flight)
  {
    hide Names, NewerThan;
    var page := Find(cache, key).value;
    assert CacheItem(key, page) in cache;
    PutKeepsFresh(cache, log, key, page);
    KeyIsHeld(cache, CacheItem(key, page));
    WithoutCount(cache, {key});
  }

  lemma KeyIsHeld(cache: seq<CacheItem>, item: CacheItem)
    requires item in cache
    ensures item.key in KeysOf(cache)
  {
    var j :| 0 <= j < |cache| && cache[j] == item;
    assert cache[j].key == item.key;
  }

  lemma FewerRefusals(refused: map<string, Refusal>, log: set<Invalidation>, keys: set<string>)
    requires RefusalsSound(refused, log)
    ensures RefusalsSound(refused - keys, log)
  {
    hide NewerThan;
    MapShrinks(refused, keys);
  }

  lemma MapShrinks<V>(m: map<string, V>, keys: set<string>)
    ensures |m - keys| <= |m|
  {
    assert (m - keys).Keys <= m.Keys;
    SubsetIsSmaller((m - keys).Keys, m.Keys);
    assert |(m - keys).Keys| == |m - keys| && |m.Keys| == |m|;
  }

  lemma {:induction false} SubsetIsSmaller<T>(a: set<T>, b: set<T>)
    requires a <= b
    ensures |a| <= |b|
  {
    if a != {} {
      var x :| x in a;
      SubsetIsSmaller(a - {x}, b - {x});
    }
  }

  /** A new flight, or the one that is joined: either reads data newer than every invalidation. */
  lemma RegenerateIsSound(m: Memory, key: string, policy: Policy, background: bool)
    requires ClockSound(m) && FlightsSound(m.flights, m.inflight, m.invalidations)
    ensures var next, id := Regenerate(m, key, policy, background), FlightFor(m, key);
            && FlightsSound(next.flights, next.inflight, m.invalidations)
            && id in next.flights && next.flights[id].key == key
            && NewerThan(m.invalidations, key, next.flights[id].tags, id)
            && (forall other :: other in next.flights ==> other in m.flights || other == m.clock)
            && (forall other :: other in m.flights ==> other in next.flights && next.flights[other] == m.flights[other])
  {
    hide Names;
    if Joinable(m, key) {
      assert Unfinished(m.flights[m.inflight[key]]);
    } else {
      NewFlightIsSound(m, key, Flight(key, policy.tags, background, false, Rendering, None));
    }
  }

  lemma NewFlightIsSound(m: Memory, key: string, f: Flight)
    requires ClockSound(m) && FlightsSound(m.flights, m.inflight, m.invalidations) && !Joinable(m, key)
    requires f.key == key && f.phase == Rendering && f.result.None?
    ensures FlightsSound(m.flights[m.clock := f], m.inflight[key := m.clock], m.invalidations)
    ensures NewerThan(m.invalidations, key, f.tags, m.clock)
  {
    hide Names;
    assert NewerThan(m.invalidations, key, f.tags, m.clock);
    hide NewerThan;
  }

  lemma TickIsSound(m: Memory)
    requires Sound(m)
    ensures Sound(m.(clock := m.clock + 1))
  {
    hide CacheSound, RefusalsSound, FlightsSound, WaitersSound, AnswersSound;
  }

  lemma RegenerateKeepsWaiters(m: Memory, key: string, policy: Policy, background: bool)
    requires Sound(m)
    ensures WaitersSound(m.waiters, Regenerate(m, key, policy, background).flights, m.invalidations)
  {
    hide Names, NewerThanAsked, CacheSound, RefusalsSound, FlightsSound, AnswersSound;
  }

  lemma RegeneratedIsSound(m: Memory, key: string, policy: Policy, background: bool)
    requires Sound(m)
    ensures var next, id := Regenerate(m, key, policy, background).(clock := m.clock + 1), FlightFor(m, key);
            && Sound(next)
            && next == m.(flights := next.flights, inflight := next.inflight, clock := m.clock + 1)
            && id in next.flights && next.flights[id].key == key
            && NewerThan(m.invalidations, key, next.flights[id].tags, id)
  {
    hide Names, NewerThan, CacheSound, RefusalsSound, FlightsSound, WaitersSound, AnswersSound;
    RegenerateIsSound(m, key, policy, background);
    RegenerateKeepsWaiters(m, key, policy, background);
  }

  lemma WaiterIsSound(m: Memory, w: Waiter)
    requires Sound(m) && w.asked < m.clock && w.flight in m.flights
    requires NewerThan(m.invalidations, m.flights[w.flight].key, m.flights[w.flight].tags, w.flight)
    ensures Sound(m.(waiters := m.waiters + {w}))
  {
    hide Names, CacheSound, RefusalsSound, FlightsSound, AnswersSound;
  }

  lemma AnswerIsSound(m: Memory, a: Answer)
    requires Sound(m) && a.asked < m.clock
    requires NewerThanAsked(m.invalidations, a.asked, a.key, a.page.tags, a.page.flight)
    ensures Sound(m.(answers := m.answers + {a}))
  {
    hide Names, NewerThanAsked, CacheSound, RefusalsSound, FlightsSound, WaitersSound;
  }

  lemma CacheIsSound(m: Memory, cache: seq<CacheItem>)
    requires Sound(m) && CacheSound(cache, m.invalidations)
    ensures Sound(m.(cache := cache))
  {
    hide CacheSound, RefusalsSound, FlightsSound, WaitersSound, AnswersSound;
  }

  // ---- each step -------------------------------------------------------------------------

  /** A copy served from the cache is no older than any invalidation that names it. */
  lemma ServedIsSound(m: Memory, key: string, asked: nat)
    requires Sound(m) && asked < m.clock && Find(m.cache, key).Some?
    ensures var page := Find(m.cache, key).value;
            Sound(m.(cache := Put(m.cache, key, page), answers := m.answers + {Answer(asked, key, page)}))
  {
    hide Names, Find, Put, ClockSound, CacheSound, RefusalsSound, FlightsSound, WaitersSound, AnswersSound;
    var page := Find(m.cache, key).value;
    TouchKeepsFresh(m.cache, m.invalidations, key);
    CacheIsSound(m, Put(m.cache, key, page));
    AnswerIsSound(m.(cache := Put(m.cache, key, page)), Answer(asked, key, page));
  }

  lemma WaitIsSound(m: Memory, key: string, policy: Policy)
    requires Sound(m)
    ensures Sound(Regenerate(m, key, policy, false).(
                    waiters := m.waiters + {Waiter(m.clock, FlightFor(m, key))}, clock := m.clock + 1))
  {
    hide Names, NewerThan, Sound, Regenerate, FlightFor;
    RegeneratedIsSound(m, key, policy, false);
    WaiterIsSound(Regenerate(m, key, policy, false).(clock := m.clock + 1), Waiter(m.clock, FlightFor(m, key)));
  }

  lemma StaleIsSound(m: Memory, key: string, policy: Policy)
    requires Sound(m) && Find(m.cache, key).Some?
    ensures var page := Find(m.cache, key).value;
            Sound(Regenerate(m, key, policy, true).(
                    cache := Put(m.cache, key, page), answers := m.answers + {Answer(m.clock, key, page)},
                    clock := m.clock + 1))
  {
    hide Names, NewerThan, Sound, Find, Put, Regenerate, FlightFor;
    RegeneratedIsSound(m, key, policy, true);
    ServedIsSound(Regenerate(m, key, policy, true).(clock := m.clock + 1), key, m.clock);
  }

  lemma HitIsSound(m: Memory, key: string)
    requires Sound(m) && Find(m.cache, key).Some?
    ensures var page := Find(m.cache, key).value;
            Sound(m.(cache := Put(m.cache, key, page), answers := m.answers + {Answer(m.clock, key, page)},
                     clock := m.clock + 1))
  {
    hide Names, NewerThan, Sound, Find, Put;
    TickIsSound(m);
    ServedIsSound(m.(clock := m.clock + 1), key, m.clock);
  }

  lemma HandleIsSound(m: Memory, key: string, policy: Policy, now: int)
    requires Sound(m)
    ensures Sound(Handle(m, key, policy, now))
  {
    hide Names, NewerThan, Held, Fresh, Sound, Find, Put, Regenerate, FlightFor;
    var seen := m.(refused := m.refused - {key});
    SeenIsSound(m, key);
    SameFlightFor(m, key);
    match HandleOutcome(m, key, policy, now)
    case Bypass => TickIsSound(m);
    case Hit(page) => HitIsSound(seen, key);
    case Stale(page) => StaleIsSound(seen, key, policy);
    case Wait(id) => WaitIsSound(seen, key, policy);
  }

  lemma SeenIsSound(m: Memory, key: string)
    requires Sound(m)
    ensures Sound(m.(refused := m.refused - {key}))
  {
    hide CacheSound, RefusalsSound, FlightsSound, WaitersSound, AnswersSound;
    FewerRefusals(m.refused, m.invalidations, {key});
  }

  lemma SameFlightFor(m: Memory, key: string)
    ensures FlightFor(m.(refused := m.refused - {key}), key) == FlightFor(m, key)
  {
  }

  lemma EndedFlightsAreSound(m: Memory, id: nat, verdict: Verdict)
    requires Sound(m) && id in m.flights && m.flights[id].phase == Rendering
    requires verdict.Rendered? ==> verdict.page.flight == id && verdict.page.tags == m.flights[id].tags
    ensures var ended := m.flights[id].(phase := Answered, result := if verdict.Rendered? then Some(verdict.page) else None);
            && FlightsSound(m.flights[id := ended], m.inflight, m.invalidations)
            && WaitersSound(m.waiters, m.flights[id := ended], m.invalidations)
            && Sound(m.(flights := m.flights[id := ended]))
  {
    hide Names, NewerThan, NewerThanAsked, CacheSound, RefusalsSound, AnswersSound;
  }

  /** An undoomed flight may still speak for its key. */
  lemma UndoomedIsCurrent(m: Memory, id: nat)
    requires Sound(m) && id in m.flights && Unfinished(m.flights[id])
    ensures NewerThan(m.invalidations, m.flights[id].key, m.flights[id].tags, id)
  {
  }

  lemma NewRefusalIsSound(refused: map<string, Refusal>, log: set<Invalidation>, key: string, ref: Refusal, victim: Option<string>)
    requires RefusalsSound(refused, log) && NewerThan(log, key, ref.tags, ref.flight)
    requires TrimVictim(refused[key := ref], victim)
    ensures RefusalsSound(Trim(refused[key := ref], victim), log)
  {
    hide NewerThan;
    var more := refused[key := ref];
    assert more.Keys == refused.Keys + {key};
    assert |more| <= |refused| + 1;
    if victim.Some? {
      assert (more - {victim.value}).Keys == more.Keys - {victim.value};
      assert |(more - {victim.value}).Keys| == |more.Keys| - 1;
    }
  }

  lemma WithoutIsFresh(cache: seq<CacheItem>, log: set<Invalidation>, gone: set<string>)
    requires CacheSound(cache, log)
    ensures CacheSound(Without(cache, gone), log)
  {
    hide NewerThan;
    WithoutIsShorter(cache, gone);
  }

  lemma FinishIsSound(m: Memory, id: nat, verdict: Verdict, now: int, victim: Option<string>)
    requires Sound(m) && CanFinish(m, id, verdict, now, victim)
    ensures Sound(Finish(m, id, verdict, now, victim))
  {
    hide Names, NewerThan, CacheSound, RefusalsSound, FlightsSound, WaitersSound, AnswersSound, Put, Newest, Without, TrimVictim, Trim;
    var f := m.flights[id];
    EndedFlightsAreSound(m, id, verdict);
    if !f.doomed {
      UndoomedIsCurrent(m, id);
    }
    var next := Finish(m, id, verdict, now, victim);
    if RefusalOf(m, id, verdict, now).Some? {
      NewRefusalIsSound(m.refused, m.invalidations, f.key, RefusalOf(m, id, verdict, now).value, victim);
    }
    if !f.doomed && verdict.Unstorable? {
      WithoutIsFresh(m.cache, m.invalidations, {f.key});
    } else if !f.doomed && verdict.Rendered? {
      PutKeepsFresh(m.cache, m.invalidations, f.key, verdict.page);
    }
    assert RefusalsSound(next.refused, m.invalidations);
    assert CacheSound(next.cache, m.invalidations);
  }

  lemma CleanUpIsSound(m: Memory, id: nat)
    requires Sound(m) && CanCleanUp(m, id)
    ensures Sound(CleanUp(m, id))
  {
    hide Names, NewerThan, NewerThanAsked, CacheSound, RefusalsSound, AnswersSound;
  }

  lemma DeliverIsSound(m: Memory, w: Waiter)
    requires Sound(m) && CanDeliver(m, w)
    ensures Sound(Deliver(m, w))
  {
    hide Names, NewerThan, NewerThanAsked, CacheSound, RefusalsSound;
  }

  // ---- an invalidation ----------------------------------------------------------------

  /** A new entry of the log asks nothing of what it does not name, nor of earlier requests. */
  lemma LogGrows(m: Memory, what: Target)
    requires ClockSound(m)
    ensures var log := m.invalidations + {Invalidation(what, m.clock, {})};
            && (forall key, tags, flight: nat :: NewerThan(m.invalidations, key, tags, flight) && !Names(what, key, tags)
                  ==> NewerThan(log, key, tags, flight))
            && (forall asked: nat, key, tags, flight: nat :: asked <= m.clock && NewerThanAsked(m.invalidations, asked, key, tags, flight)
                  ==> NewerThanAsked(log, asked, key, tags, flight))
  {
    hide Names;
  }

  lemma NamedAreNamed(cache: seq<CacheItem>, what: Target)
    requires DistinctKeys(cache)
    ensures forall item :: item in cache ==>
              (item.key in NamedCopies(cache, what) <==> Names(what, item.key, item.entry.tags))
    ensures NamedCopies(cache, what) <= KeysOf(cache)
  {
    hide PathMatchesKey;
    forall item | item in cache
      ensures item.key in NamedCopies(cache, what) <==> Names(what, item.key, item.entry.tags)
    {
      KeyIsHeld(cache, item);
      if what.ByTag? && item.key in NamedCopies(cache, what) {
        var other :| other in cache && what.tag in other.entry.tags && other.key == item.key;
        assert other == item;
      }
    }
    forall k | k in NamedCopies(cache, what) ensures k in KeysOf(cache) {
      if what.ByTag? {
        var other :| other in cache && what.tag in other.entry.tags && other.key == k;
        KeyIsHeld(cache, other);
      }
    }
  }

  lemma InvalidatedCacheIsSound(m: Memory, what: Target)
    requires Sound(m)
    ensures CacheSound(Invalidate(m, what).cache, Invalidate(m, what).invalidations)
  {
    hide Names, NewerThan, NamedCopies;
    LogGrows(m, what);
    NamedAreNamed(m.cache, what);
    WithoutIsFresh(m.cache, m.invalidations, NamedCopies(m.cache, what));
  }

  lemma InvalidatedRefusalsAreSound(m: Memory, what: Target)
    requires Sound(m)
    ensures RefusalsSound(Invalidate(m, what).refused, Invalidate(m, what).invalidations)
  {
    hide Names, NewerThan, CacheSound, FlightsSound, WaitersSound, AnswersSound;
    LogGrows(m, what);
    var refused := Invalidate(m, what).refused;
    SubsetIsSmaller(refused.Keys, m.refused.Keys);
    assert |refused.Keys| == |refused| && |m.refused.Keys| == |m.refused|;
  }

  lemma InvalidatedFlightsAreSound(m: Memory, what: Target)
    requires Sound(m)
    ensures var next := Invalidate(m, what);
            && FlightsSound(next.flights, next.inflight, next.invalidations)
            && WaitersSound(next.waiters, next.flights, next.invalidations)
            && AnswersSound(next.answers, next.invalidations)
  {
    hide Names, NewerThan, NewerThanAsked, CacheSound, RefusalsSound, FlightsSound, WaitersSound, AnswersSound, Invalidate;
    SparedFlightsAreSound(m, what);
    OldWaitersAreSound(m, what);
  }

  /** What an invalidation does to one flight. */
  lemma InvalidatedFlight(m: Memory, what: Target, id: nat)
    ensures Invalidate(m, what).inflight == m.inflight
    ensures id in Invalidate(m, what).flights <==> id in m.flights
    ensures id in m.flights ==>
              Invalidate(m, what).flights[id] == if Doomable(m, id, what) then m.flights[id].(doomed := true) else m.flights[id]
  {
    hide Names, Doomable, NamedCopies;
  }

  /** A flight that is spared is not named: it is still newer than every entry that names it. */
  lemma SparedFlightIsCurrent(m: Memory, what: Target, id: nat)
    requires ClockSound(m) && FlightsSound(m.flights, m.inflight, m.invalidations)
    requires id in m.flights && Unfinished(m.flights[id]) && !Doomable(m, id, what)
    ensures m.flights[id].key in m.inflight && m.inflight[m.flights[id].key] == id
    ensures NewerThan(m.invalidations + {Invalidation(what, m.clock, {})}, m.flights[id].key, m.flights[id].tags, id)
  {
    hide Names, NewerThan;
    LogGrows(m, what);
  }

  lemma SparedFlightsAreSound(m: Memory, what: Target)
    requires ClockSound(m) && FlightsSound(m.flights, m.inflight, m.invalidations)
    ensures FlightsSound(Invalidate(m, what).flights, m.inflight, Invalidate(m, what).invalidations)
    ensures Invalidate(m, what).inflight == m.inflight
  {
    hide Names, NewerThan, NewerThanAsked, Invalidate, Doomable;
    var next := Invalidate(m, what);
    InvalidateLogs(m, what);
    forall id | id in next.flights
      ensures next.flights[id].result.Some? ==>
                next.flights[id].result.value.flight == id && next.flights[id].result.value.tags == next.flights[id].tags
      ensures Unfinished(next.flights[id]) ==>
                next.flights[id].key in m.inflight && m.inflight[next.flights[id].key] == id
                && NewerThan(next.invalidations, next.flights[id].key, next.flights[id].tags, id)
    {
      InvalidatedFlight(m, what, id);
      if Unfinished(next.flights[id]) {
        SparedFlightIsCurrent(m, what, id);
      }
    }
    forall k | k in m.inflight
      ensures m.inflight[k] in next.flights && next.flights[m.inflight[k]].key == k && next.flights[m.inflight[k]].phase != Over
    {
      InvalidatedFlight(m, what, m.inflight[k]);
    }
    InvalidatedFlight(m, what, 0);
  }

  lemma InvalidateLogs(m: Memory, what: Target)
    ensures Invalidate(m, what).invalidations == m.invalidations + {Invalidation(what, m.clock, {})}
  {
    hide Names, Doomable, NamedCopies;
  }

  lemma OldWaitersAreSound(m: Memory, what: Target)
    requires ClockSound(m) && WaitersSound(m.waiters, m.flights, m.invalidations) && AnswersSound(m.answers, m.invalidations)
    ensures WaitersSound(Invalidate(m, what).waiters, Invalidate(m, what).flights, Invalidate(m, what).invalidations)
    ensures AnswersSound(Invalidate(m, what).answers, Invalidate(m, what).invalidations)
  {
    hide Names, NewerThan, NewerThanAsked;
    LogGrows(m, what);
  }

  lemma InvalidateIsSound(m: Memory, what: Target)
    requires Sound(m)
    ensures Sound(Invalidate(m, what))
  {
    hide Names, CacheSound, RefusalsSound, FlightsSound, WaitersSound, AnswersSound, NamedCopies;
    InvalidatedCacheIsSound(m, what);
    InvalidatedRefusalsAreSound(m, what);
    InvalidatedFlightsAreSound(m, what);
  }

  lemma StepIsSound(m: Memory, a: Action)
    requires Sound(m) && Enabled(m, a)
    ensures Sound(Step(m, a))
  {
    hide Sound, Handle, Finish, CleanUp, Deliver, Invalidate, CanFinish, CanCleanUp, CanDeliver;
    match a
    case HandleRequest(key, policy, now) => HandleIsSound(m, key, policy, now);
    case FinishRender(id, verdict, now, victim) => FinishIsSound(m, id, verdict, now, victim);
    case CleanUpFlight(id) => CleanUpIsSound(m, id);
    case DeliverResult(w) => DeliverIsSound(m, w);
    case InvalidateTarget(what) => InvalidateIsSound(m, what);
  }

  // ---- over every run ------------------------------------------------------------------

  /** Just booted: a cache that may hold restored copies, and nothing else. */
  predicate Booted(m: Memory) {
    && DistinctKeys(m.cache) && |m.cache| <= MAX_CACHED_PAGES
    && m.refused == map[] && m.inflight == map[] && m.flights == map[]
    && m.invalidations == {} && m.waiters == {} && m.answers == {}
  }

  predicate IsRun(trace: seq<Memory>, actions: seq<Action>) {
    && |trace| == |actions| + 1
    && Booted(trace[0])
    && forall i :: 0 <= i < |actions| ==> Enabled(trace[i], actions[i]) && trace[i + 1] == Step(trace[i], actions[i])
  }

  lemma {:induction false} EveryStateIsSound(trace: seq<Memory>, actions: seq<Action>, i: nat)
    requires IsRun(trace, actions) && i < |trace|
    ensures Sound(trace[i])
  {
    if i > 0 {
      EveryStateIsSound(trace, actions, i - 1);
      StepIsSound(trace[i - 1], actions[i - 1]);
    }
  }

  /** Only an invalidation is logged, and nothing has outlived it yet. */
  lemma StepLogs(m: Memory, a: Action)
    requires Enabled(m, a)
    ensures Step(m, a).invalidations ==
            if a.InvalidateTarget? then m.invalidations + {Invalidation(a.what, m.clock, {})} else m.invalidations
  {
    hide Find, Put, Held, Fresh, CanFinish, TrimVictim, NamedCopies, Doomable;
  }

  /** While no crash has happened, nothing outlives an invalidation. */
  lemma {:induction false} NothingOutlives(trace: seq<Memory>, actions: seq<Action>, i: nat, v: Invalidation)
    requires IsRun(trace, actions) && i < |trace| && v in trace[i].invalidations
    ensures v.outlived == {}
  {
    hide Step, Enabled;
    if i > 0 {
      StepLogs(trace[i - 1], actions[i - 1]);
      if v in trace[i - 1].invalidations {
        NothingOutlives(trace, actions, i - 1, v);
      }
    }
  }

  /**
   Freshness over every run. A request that came in after an invalidation is answered - from the
   cache, stale, or by the flight it waited for - only with a page whose render was registered
   after it; and nothing left in the cache, in the refusals or in a flight that can still be
   joined is older than an invalidation that names it.
   */
  lemma NothingStaleIsServed(trace: seq<Memory>, actions: seq<Action>, i: nat, v: Invalidation)
    requires IsRun(trace, actions) && i < |trace| && v in trace[i].invalidations
    ensures var m := trace[i];
            && (forall a :: a in m.answers && v.at < a.asked && Names(v.what, a.key, a.page.tags) ==> v.at < a.page.flight)
            && (forall item :: item in m.cache && Names(v.what, item.key, item.entry.tags) ==> v.at < item.entry.flight)
            && (forall k :: k in m.refused && Names(v.what, k, m.refused[k].tags) ==> v.at < m.refused[k].flight)
            && (forall k :: Joinable(m, k) && Names(v.what, k, m.flights[m.inflight[k]].tags) ==> v.at < m.inflight[k])
  {
    hide Names;
    EveryStateIsSound(trace, actions, i);
    NothingOutlives(trace, actions, i, v);
  }

  /** Single flight: one key has at most one flight that is neither doomed nor over. */
  lemma OneFlightPerKey(trace: seq<Memory>, actions: seq<Action>, i: nat, f: nat, g: nat)
    requires IsRun(trace, actions) && i < |trace|
    requires f in trace[i].flights && Unfinished(trace[i].flights[f])
    requires g in trace[i].flights && Unfinished(trace[i].flights[g])
    requires trace[i].flights[f].key == trace[i].flights[g].key
    ensures f == g
  {
    EveryStateIsSound(trace, actions, i);
  }

  /** A replaced flight's cleanup, or its contained panic, leaves its successor registered. */
  lemma SuccessorStaysRegistered(trace: seq<Memory>, actions: seq<Action>, i: nat, id: nat, key: string)
    requires IsRun(trace, actions) && i < |actions|
    requires actions[i] == CleanUpFlight(id) || (actions[i].FinishRender? && actions[i].id == id)
    requires key in trace[i].inflight && trace[i].inflight[key] != id
    ensures key in trace[i + 1].inflight && trace[i + 1].inflight[key] == trace[i].inflight[key]
    ensures Joinable(trace[i], key) ==> Joinable(trace[i + 1], key)
  {
    hide Names, NewerThan;
    EveryStateIsSound(trace, actions, i);
  }

  predicate DoomedIn(m: Memory, id: nat) {
    id in m.flights && m.flights[id].doomed
  }

  /** Copies, refusals and waiters of a flight. */
  predicate Leaves(m: Memory, next: Memory, id: nat) {
    && (forall item :: item in next.cache && item.entry.flight == id ==> item in m.cache)
    && (forall k :: k in next.refused && next.refused[k].flight == id ==> k in m.refused && m.refused[k] == next.refused[k])
    && (forall w :: w in next.waiters && w.flight == id ==> w in m.waiters)
  }

  lemma FoundIsHeld(cache: seq<CacheItem>, key: string)
    requires Find(cache, key).Some?
    ensures forall item :: item in Put(cache, key, Find(cache, key).value) ==> item in cache
  {
    var page := Find(cache, key).value;
    forall item | item in Put(cache, key, page) ensures item in cache {
      assert item in Without(cache, {key}) || item == CacheItem(key, page);
    }
  }

  lemma StoredIsHeldOrNew(cache: seq<CacheItem>, key: string, page: CachedPage)
    ensures forall item :: item in Newest(Put(cache, key, page)) ==> item in cache || item == CacheItem(key, page)
  {
    var put := Put(cache, key, page);
    assert forall j :: 0 <= j < |Newest(put)| ==> Newest(put)[j] in put;
    assert forall item :: item in put ==> item in Without(cache, {key}) || item == CacheItem(key, page);
  }

  lemma HandleLeavesNothing(m: Memory, key: string, policy: Policy, now: int, id: nat)
    requires Sound(m) && DoomedIn(m, id)
    ensures DoomedIn(Handle(m, key, policy, now), id) && Leaves(m, Handle(m, key, policy, now), id)
  {
    hide Names, NewerThan, NewerThanAsked, Held, Fresh, CacheSound, RefusalsSound, FlightsSound, WaitersSound, AnswersSound, Put, Find;
    if Find(m.cache, key).Some? {
      FoundIsHeld(m.cache, key);
    }
    assert FlightFor(m, key) != id;
  }

  lemma FinishLeavesNothing(m: Memory, other: nat, verdict: Verdict, now: int, victim: Option<string>, id: nat)
    requires CanFinish(m, other, verdict, now, victim) && DoomedIn(m, id)
    ensures DoomedIn(Finish(m, other, verdict, now, victim), id) && Leaves(m, Finish(m, other, verdict, now, victim), id)
  {
    hide Put, Newest, TrimVictim;
    if verdict.Rendered? {
      StoredIsHeldOrNew(m.cache, m.flights[other].key, verdict.page);
    }
  }

  lemma InvalidateLeavesNothing(m: Memory, what: Target, id: nat)
    requires DoomedIn(m, id)
    ensures DoomedIn(Invalidate(m, what), id) && Leaves(m, Invalidate(m, what), id)
  {
    hide Names, NamedCopies;
  }

  lemma DoomedLeavesNothing(m: Memory, a: Action, id: nat)
    requires Sound(m) && Enabled(m, a) && DoomedIn(m, id)
    ensures DoomedIn(Step(m, a), id) && Leaves(m, Step(m, a), id)
  {
    hide Sound, CanFinish, Handle, Finish, Invalidate;
    match a
    case HandleRequest(key, policy, now) => HandleLeavesNothing(m, key, policy, now, id);
    case FinishRender(other, verdict, now, victim) => FinishLeavesNothing(m, other, verdict, now, victim, id);
    case CleanUpFlight(_) =>
    case DeliverResult(_) =>
    case InvalidateTarget(what) => InvalidateLeavesNothing(m, what, id);
  }

  lemma LeavesTwice(a: Memory, b: Memory, c: Memory, id: nat)
    requires Leaves(a, b, id) && Leaves(b, c, id)
    ensures Leaves(a, c, id)
  {
  }

  /**
   Once doomed, a flight stores nothing, marks no refusal and gains no waiter for the rest of the
   run: whatever of it is found later was there when it was doomed.
   */
  lemma {:induction false} DoomedServesOnlyEarlierWaiters(trace: seq<Memory>, actions: seq<Action>, i: nat, j: nat, id: nat)
    requires IsRun(trace, actions) && i <= j < |trace| && DoomedIn(trace[i], id)
    ensures DoomedIn(trace[j], id) && Leaves(trace[i], trace[j], id)
    decreases j
  {
    if i < j {
      hide Sound, Step, Enabled, Leaves;
      DoomedServesOnlyEarlierWaiters(trace, actions, i, j - 1, id);
      EveryStateIsSound(trace, actions, j - 1);
      DoomedLeavesNothing(trace[j - 1], actions[j - 1], id);
      LeavesTwice(trace[i], trace[j - 1], trace[j], id);
    }
  }
}
