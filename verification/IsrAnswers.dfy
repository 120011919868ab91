/** What each section of the page cache does (isr.go), in its clock and its records: who is answered with what, and why. */
module IsrAnswers {
  import opened CacheKeys
  import opened IsrFreshness
  import opened IsrMemory
  import opened PageCache
  import opened Wrappers

  // ---- a request -----------------------------------------------------------------------

  /** A refusal of the key stands at `now`: for its own time, or else for the policy's. */
  predicate Stands(refused: map<string, Refusal>, key: string, policy: Policy, now: int) {
    && key in refused
    && (refused[key].cool > 0 ==> now < refused[key].at + refused[key].cool)
    && (refused[key].cool <= 0 && !policy.manual ==> now < refused[key].at + policy.window)
  }

  /** A copy is the page's for as long as its window lasts, and under "manual" for good. */
  predicate InWindow(page: CachedPage, policy: Policy, now: int) {
    !policy.manual ==> now < page.storedAt + policy.window
  }

  /** The key's registered flight may still answer. */
  predicate Running(m: Memory, key: string, id: nat) {
    && key in m.inflight && m.inflight[key] == id && id in m.flights
    && m.flights[id].key == key && !m.flights[id].doomed
  }

  predicate Holds(cache: seq<CacheItem>, key: string) {
    exists item :: item in cache && item.key == key
  }

  lemma HeldIsStanding(m: Memory, key: string, policy: Policy, now: int)
    ensures key in m.refused && Held(m.refused[key], policy, now) <==> Stands(m.refused, key, policy, now)
  {
  }

  lemma OneCopy(cache: seq<CacheItem>, key: string, page: CachedPage)
    requires DistinctKeys(cache)
    ensures CacheItem(key, page) in cache <==> Find(cache, key) == Some(page)
    ensures Find(cache, key).None? <==> !Holds(cache, key)
  {
    if Find(cache, key).Some? {
      assert CacheItem(key, Find(cache, key).value) in cache;
    }
  }

  /** Exactly which answer a request gets: each of the four is given when, and only when, this holds. */
  ghost predicate GetsAnswer(m: Memory, key: string, policy: Policy, now: int, outcome: Outcome) {
    && (outcome.Bypass? <==> Stands(m.refused, key, policy, now))
    && (forall page :: outcome == Hit(page) <==>
          !Stands(m.refused, key, policy, now) && CacheItem(key, page) in m.cache && InWindow(page, policy, now))
    && (forall page :: outcome == Outcome.Stale(page) <==>
          !Stands(m.refused, key, policy, now) && CacheItem(key, page) in m.cache
          && !policy.manual && now >= page.storedAt + policy.window)
    && (outcome.Wait? <==> !Stands(m.refused, key, policy, now) && !Holds(m.cache, key))
  }

  /** A render runs for the key: the one registered, if it may still answer, or else a new one of the policy's tags. */
  ghost predicate Renders(m: Memory, m': Memory, key: string, policy: Policy, background: bool) {
    if key in m.inflight && Running(m, key, m.inflight[key]) then m'.flights == m.flights && m'.inflight == m.inflight
    else
      && m'.flights == m.flights[m.clock := Flight(key, policy.tags, background, false, Rendering, None)]
      && m'.inflight == m.inflight[key := m.clock]
  }

  /** And what the section leaves: the answer on record, a refusal forgotten, a render running. */
  ghost predicate SectionLeaves(m: Memory, m': Memory, key: string, policy: Policy, outcome: Outcome) {
    && m'.invalidations == m.invalidations && |m'.cache| == |m.cache|
    && (forall item :: item in m'.cache <==> item in m.cache)
    && (forall k :: k in m'.refused <==> k in m.refused && !(k == key && !outcome.Bypass?))
    && (forall k :: k in m'.refused ==> m'.refused[k] == m.refused[k])
    && (outcome.Bypass? ==> m'.answers == m.answers && m'.waiters == m.waiters && m'.flights == m.flights)
    && (outcome.Hit? ==> m'.answers == m.answers + {Answer(m.clock, key, outcome.page)} && m'.waiters == m.waiters
                         && m'.flights == m.flights)
    && (outcome.Stale? ==> m'.answers == m.answers + {Answer(m.clock, key, outcome.page)} && m'.waiters == m.waiters
                           && key in m'.inflight && Running(m', key, m'.inflight[key]) && Renders(m, m', key, policy, true))
    && (outcome.Hit? || outcome.Stale? ==> m'.cache != [] && m'.cache[|m'.cache| - 1] == CacheItem(key, outcome.page))
    && (outcome.Wait? ==> m'.answers == m.answers && m'.waiters == m.waiters + {Waiter(m.clock, outcome.flight)}
                          && Running(m', key, outcome.flight) && Renders(m, m', key, policy, false))
  }

  lemma RequestIsAnswered(m: Memory, key: string, policy: Policy, now: int)
    requires Sound(m)
    ensures GetsAnswer(m, key, policy, now, HandleOutcome(m, key, policy, now))
  {
    hide Held, Stands, Holds, Find;
    HeldIsStanding(m, key, policy, now);
    forall page ensures CacheItem(key, page) in m.cache <==> Find(m.cache, key) == Some(page) {
      OneCopy(m.cache, key, page);
    }
    OneCopy(m.cache, key, CachedPage(0, "", "", 0, [], 0, []));
  }

  lemma RunningAfter(m: Memory, key: string, policy: Policy, background: bool)
    requires Sound(m)
    ensures Running(Regenerate(m, key, policy, background), key, FlightFor(m, key))
    ensures Renders(m, Regenerate(m, key, policy, background), key, policy, background)
  {
    hide ClockSound, CacheSound, RefusalsSound, WaitersSound, AnswersSound;
  }

  lemma RequestLeaves(m: Memory, key: string, policy: Policy, now: int)
    requires Sound(m)
    ensures SectionLeaves(m, Handle(m, key, policy, now), key, policy, HandleOutcome(m, key, policy, now))
  {
    hide Held, Fresh, Sound, Find, Put, Running, Renders, Joinable;
    if HandleOutcome(m, key, policy, now).Wait? {
      SeenIsSound(m, key);
      WaitsRunning(m, key, policy);
    } else if !HandleOutcome(m, key, policy, now).Bypass? {
      SeenIsSound(m, key);
      ServedRunning(m, key, policy);
      TouchKeeps(m, key);
    }
  }

  lemma WaitsRunning(m: Memory, key: string, policy: Policy)
    requires Sound(m) && Sound(m.(refused := m.refused - {key}))
    ensures var next := Regenerate(m.(refused := m.refused - {key}), key, policy, false);
            forall w, clock ::
              var m' := next.(waiters := w, clock := clock);
              Running(m', key, FlightFor(m, key)) && Renders(m, m', key, policy, false)
  {
    RunningAfter(m.(refused := m.refused - {key}), key, policy, false);
    hide Sound;
  }

  lemma ServedRunning(m: Memory, key: string, policy: Policy)
    requires Sound(m) && Sound(m.(refused := m.refused - {key}))
    ensures var next := Regenerate(m.(refused := m.refused - {key}), key, policy, true);
            && key in next.inflight
            && forall c, a, clock ::
                 var m' := next.(cache := c, answers := a, clock := clock);
                 Running(m', key, next.inflight[key]) && Renders(m, m', key, policy, true)
  {
    RunningAfter(m.(refused := m.refused - {key}), key, policy, true);
    hide Sound;
  }

  lemma TouchKeeps(m: Memory, key: string)
    requires Sound(m) && Find(m.cache, key).Some?
    ensures var page := Find(m.cache, key).value; var put := Put(m.cache, key, page);
            && |put| == |m.cache| && (forall item :: item in put <==> item in m.cache)
            && put != [] && put[|put| - 1] == CacheItem(key, page)
  {
    hide ClockSound, RefusalsSound, FlightsSound, WaitersSound, AnswersSound, NewerThan;
    var page := Find(m.cache, key).value;
    KeyIsHeld(m.cache, CacheItem(key, page));
    WithoutCount(m.cache, {key});
    forall item | item in m.cache && item.key == key ensures item == CacheItem(key, page) {
    }
  }

  /** Over every run, for every request. */
  lemma EveryRequestIsAnswered(trace: seq<Memory>, actions: seq<Action>, i: nat, key: string, policy: Policy, now: int)
    requires IsRun(trace, actions) && i < |actions| && actions[i] == HandleRequest(key, policy, now)
    ensures exists outcome :: GetsAnswer(trace[i], key, policy, now, outcome) && SectionLeaves(trace[i], trace[i + 1], key, policy, outcome)
  {
    hide Sound, GetsAnswer, SectionLeaves, Handle, HandleOutcome;
    EveryStateIsSound(trace, actions, i);
    RequestIsAnswered(trace[i], key, policy, now);
    RequestLeaves(trace[i], key, policy, now);
  }

  // ---- the end of a render -------------------------------------------------------------------

  /** The refusals with one more, and the one that left for it, if any. */
  ghost predicate RefusedNow(m: Memory, m': Memory, key: string, ref: Refusal, victim: Option<string>) {
    && |m'.refused| <= 512
    && (forall k :: k in m'.refused <==> (k in m.refused || k == key) && victim != Some(k))
    && (forall k :: k in m'.refused ==> m'.refused[k] == if k == key then ref else m.refused[k])
    && (victim.Some? ==> |m.refused| == 512 && key !in m.refused && (victim.value in m.refused || victim.value == key)
                         && forall k :: k in m'.refused ==>
                              (if victim.value in m.refused then m.refused[victim.value].at else ref.at) <= m'.refused[k].at)
  }

  /** The copies of other keys, in their order. */
  function Others(cache: seq<CacheItem>, key: string): seq<CacheItem> {
    Without(cache, {key})
  }

  /** The page is stored and comes last; the oldest leave past 512, and no other. */
  ghost predicate StoredNow(m: Memory, m': Memory, key: string, page: CachedPage) {
    var all := Others(m.cache, key) + [CacheItem(key, page)];
    if |all| <= 512 then m'.cache == all else |m'.cache| == 512 && m'.cache == all[|all| - 512..]
  }

  /**
   What the end of a render does. Doomed, it touches neither copies nor refusals. Else: rendered, its
   copy is stored; unshareable, the key's copy goes and the key is refused for its policy's time; failed
   with visitors waiting, the key is refused for five seconds; failed behind a stale copy, or
   panicked, nothing changes.
   */
  ghost predicate EndsAs(m: Memory, m': Memory, id: nat, verdict: Verdict, now: int, victim: Option<string>)
    requires id in m.flights
  {
    var f := m.flights[id];
    && m'.inflight == m.inflight && m'.invalidations == m.invalidations && m'.waiters == m.waiters && m'.answers == m.answers
    && m'.flights == m.flights[id := Flight(f.key, f.tags, f.background, f.doomed, Phase.Answered,
                                            if verdict.Rendered? then Some(verdict.page) else None)]
    && (f.doomed || verdict.Rendered? || verdict.Panicked? || (verdict.Failed? && f.background) ==> m'.refused == m.refused)
    && (f.doomed || verdict.Failed? || verdict.Panicked? ==> m'.cache == m.cache)
    && (!f.doomed && verdict.Rendered? ==> StoredNow(m, m', f.key, verdict.page))
    && (!f.doomed && verdict.Unstorable? ==>
          m'.cache == Others(m.cache, f.key) && RefusedNow(m, m', f.key, Refusal(now, f.tags, 0, id), victim))
    && (!f.doomed && verdict.Failed? && !f.background ==>
          RefusedNow(m, m', f.key, Refusal(now, f.tags, 5_000_000_000, id), victim))
  }

  lemma RefusedIsTrimmed(m: Memory, m': Memory, key: string, ref: Refusal, victim: Option<string>)
    requires |m.refused| <= 512 && TrimVictim(Refuse(m, key, ref), victim)
    requires m'.refused == Trim(Refuse(m, key, ref), victim)
    ensures RefusedNow(m, m', key, ref, victim)
  {
    var more := m.refused[key := ref];
    assert more.Keys == m.refused.Keys + {key};
    assert |more.Keys| == |more| && |m.refused.Keys| == |m.refused| && |m'.refused.Keys| == |m'.refused|;
    if victim.Some? {
      assert m'.refused.Keys == more.Keys - {victim.value};
    }
  }

  lemma RenderEnds(m: Memory, id: nat, verdict: Verdict, now: int, victim: Option<string>)
    requires Sound(m) && CanFinish(m, id, verdict, now, victim)
    ensures EndsAs(m, Finish(m, id, verdict, now, victim), id, verdict, now, victim)
  {
    hide TrimVictim, Trim, Refuse, Without, RefusedNow;
    RefusalsFit(m);
    var f, m' := m.flights[id], Finish(m, id, verdict, now, victim);
    match RefusalOf(m, id, verdict, now)
    case Some(ref) => RefusedIsTrimmed(m, m', f.key, ref, victim);
    case None =>
  }

  lemma RefusalsFit(m: Memory)
    requires Sound(m)
    ensures |m.refused| <= 512
  {
  }

  lemma EveryRenderEnds(trace: seq<Memory>, actions: seq<Action>, i: nat, id: nat, verdict: Verdict, now: int, victim: Option<string>)
    requires IsRun(trace, actions) && i < |actions| && actions[i] == FinishRender(id, verdict, now, victim)
    ensures id in trace[i].flights && EndsAs(trace[i], trace[i + 1], id, verdict, now, victim)
  {
    hide Sound, EndsAs, Finish;
    EveryStateIsSound(trace, actions, i);
    assert Enabled(trace[i], actions[i]);
    RenderEnds(trace[i], id, verdict, now, victim);
  }

  // ---- an invalidation, and a waiter woken ------------------------------------------------------

  ghost predicate NamedBy(what: Target, key: string, tags: seq<string>) {
    match what
    case ByPath(path) => PathMatchesKey(path, key)
    case ByTag(tag) => exists j :: 0 <= j < |tags| && tags[j] == tag
  }

  /** An invalidation takes the copies it names, and leaves the others in their order. */
  ghost predicate TakesCopies(cache: seq<CacheItem>, cache': seq<CacheItem>, what: Target) {
    && (forall item :: item in cache' <==> item in cache && !NamedBy(what, item.key, item.entry.tags))
    && exists gone :: cache' == Without(cache, gone)
  }

  ghost predicate TakesRefusals(refused: map<string, Refusal>, refused': map<string, Refusal>, what: Target) {
    && (forall k :: k in refused' <==> k in refused && !NamedBy(what, k, refused[k].tags))
    && (forall k :: k in refused' ==> refused'[k] == refused[k])
  }

  ghost predicate TakesFlights(m: Memory, flights': map<nat, Flight>, what: Target) {
    && flights'.Keys == m.flights.Keys
    && forall id :: id in m.flights ==>
         var f := m.flights[id];
         flights'[id] == f.(doomed := f.doomed || (f.key in m.inflight && m.inflight[f.key] == id && NamedBy(what, f.key, f.tags)))
  }

  /** Copies, refusals and running renders: those it names, and nothing else. */
  ghost predicate Takes(m: Memory, m': Memory, what: Target) {
    && TakesCopies(m.cache, m'.cache, what) && TakesRefusals(m.refused, m'.refused, what) && TakesFlights(m, m'.flights, what)
    && m'.inflight == m.inflight && m'.waiters == m.waiters && m'.answers == m.answers
  }

  lemma NamesIs(what: Target, key: string, tags: seq<string>)
    ensures Names(what, key, tags) <==> NamedBy(what, key, tags)
  {
    hide PathMatchesKey;
  }

  lemma InvalidationTakesCopies(cache: seq<CacheItem>, what: Target)
    requires DistinctKeys(cache)
    ensures TakesCopies(cache, Without(cache, NamedCopies(cache, what)), what)
  {
    hide NamedCopies, NamedBy, DistinctKeys;
    forall item | item in cache ensures item.key in NamedCopies(cache, what) <==> NamedBy(what, item.key, item.entry.tags) {
      CopyIsNamed(cache, what, item);
    }
  }

  lemma InvalidationTakesRefusals(m: Memory, what: Target)
    ensures TakesRefusals(m.refused, Invalidate(m, what).refused, what)
  {
    hide Names, NamedBy, Doomable, NamedCopies;
    forall k | k in m.refused ensures Names(what, k, m.refused[k].tags) <==> NamedBy(what, k, m.refused[k].tags) {
      NamesIs(what, k, m.refused[k].tags);
    }
  }

  lemma InvalidationTakesFlights(m: Memory, what: Target)
    ensures TakesFlights(m, Invalidate(m, what).flights, what)
  {
    hide Names, NamedBy, NamedCopies;
    forall id | id in m.flights
      ensures Names(what, m.flights[id].key, m.flights[id].tags) <==> NamedBy(what, m.flights[id].key, m.flights[id].tags)
    {
      NamesIs(what, m.flights[id].key, m.flights[id].tags);
    }
  }

  lemma InvalidationTakes(m: Memory, what: Target)
    requires Sound(m)
    ensures Takes(m, Invalidate(m, what), what)
  {
    hide NewerThan, TakesCopies, TakesRefusals, TakesFlights, NamedCopies, Names, Doomable;
    InvalidationTakesCopies(m.cache, what);
    InvalidationTakesRefusals(m, what);
    InvalidationTakesFlights(m, what);
  }

  lemma EveryInvalidationTakes(trace: seq<Memory>, actions: seq<Action>, i: nat, what: Target)
    requires IsRun(trace, actions) && i < |actions| && actions[i] == InvalidateTarget(what)
    ensures Takes(trace[i], trace[i + 1], what)
  {
    hide Sound, Takes, Invalidate;
    EveryStateIsSound(trace, actions, i);
    InvalidationTakes(trace[i], what);
  }

  lemma CopyIsNamed(cache: seq<CacheItem>, what: Target, item: CacheItem)
    requires DistinctKeys(cache) && item in cache
    ensures item.key in NamedCopies(cache, what) <==> NamedBy(what, item.key, item.entry.tags)
  {
    hide PathMatchesKey;
    KeyIsHeld(cache, item);
  }

  /** A waiter is answered with its flight's page, if there is one, and is no longer waiting. */
  ghost predicate Wakes(m: Memory, m': Memory, w: Waiter)
    requires w.flight in m.flights
  {
    var f := m.flights[w.flight];
    && m' == m.(waiters := m'.waiters, answers := m'.answers, clock := m'.clock)
    && (forall x :: x in m'.waiters <==> x in m.waiters && x != w)
    && (forall a :: a in m'.answers <==> a in m.answers || (f.result.Some? && a == Answer(w.asked, f.key, f.result.value)))
  }

  lemma WaiterWakes(m: Memory, w: Waiter)
    requires CanDeliver(m, w)
    ensures Wakes(m, Deliver(m, w), w)
  {
  }

  /** The render of the flight has ended, one way or another, and its deferred cleanup has run. */
  ghost predicate HasFinished(actions: seq<Action>, i: nat, id: nat) {
    exists j: nat :: j < i && j < |actions| && actions[j].FinishRender? && actions[j].id == id
  }

  ghost predicate HasCleanedUp(actions: seq<Action>, i: nat, id: nat) {
    exists j: nat :: j < i && j < |actions| && actions[j] == CleanUpFlight(id)
  }

  ghost function Standing(actions: seq<Action>, i: nat, id: nat): Phase {
    if HasCleanedUp(actions, i, id) then Over else if HasFinished(actions, i, id) then Answered else Rendering
  }

  /** Where a flight stands after a step. */
  function PhaseAfter(m: Memory, a: Action, id: nat): Phase {
    if a.FinishRender? && a.id == id then Answered
    else if a == CleanUpFlight(id) then Over
    else if id in m.flights then m.flights[id].phase
    else Rendering
  }

  /** A flight is never forgotten, and only its own end and its own cleanup move it. */
  lemma FlightMoves(m: Memory, a: Action, id: nat)
    requires Sound(m) && Enabled(m, a)
    ensures id in m.flights ==> id in Step(m, a).flights
    ensures id in Step(m, a).flights ==> Step(m, a).flights[id].phase == PhaseAfter(m, a, id)
  {
    hide Find, Put, Held, Fresh, TrimVictim, RefusalOf, NamedCopies, Doomable, CacheSound, RefusalsSound, WaitersSound, AnswersSound;
  }

  lemma {:induction false} FlightStands(trace: seq<Memory>, actions: seq<Action>, i: nat, id: nat)
    requires IsRun(trace, actions) && i < |trace|
    ensures HasFinished(actions, i, id) ==> id in trace[i].flights
    ensures HasCleanedUp(actions, i, id) ==> HasFinished(actions, i, id)
    ensures id in trace[i].flights ==> trace[i].flights[id].phase == Standing(actions, i, id)
  {
    hide Sound, Step, Enabled;
    if i > 0 {
      var j := i - 1;
      assert Enabled(trace[j], actions[j]) && trace[i] == Step(trace[j], actions[j]);
      EveryStateIsSound(trace, actions, j);
      FlightStands(trace, actions, j, id);
      FlightMoves(trace[j], actions[j], id);
      EndsOnce(trace[j], actions[j], id);
    }
  }

  lemma EndsOnce(m: Memory, a: Action, id: nat)
    requires Enabled(m, a)
    ensures a.FinishRender? && a.id == id ==> id in m.flights && m.flights[id].phase.Rendering?
    ensures a == CleanUpFlight(id) ==> id in m.flights && m.flights[id].phase.Answered?
  {
  }

  /** Over every run: a render ends once, is cleaned up once and after that, and its waiters are woken only then, and can be. */
  lemma EachFlightEndsOnce(trace: seq<Memory>, actions: seq<Action>, i: nat, id: nat)
    requires IsRun(trace, actions) && i < |trace| && id in trace[i].flights
    ensures Enabled(trace[i], CleanUpFlight(id)) <==> HasFinished(actions, i, id) && !HasCleanedUp(actions, i, id)
    ensures Enabled(trace[i], FinishRender(id, Panicked, 0, None)) <==> !HasFinished(actions, i, id)
    ensures forall w :: w in trace[i].waiters && w.flight == id ==>
              (Enabled(trace[i], DeliverResult(w)) <==> HasCleanedUp(actions, i, id))
  {
    hide Sound, Step, HasFinished, HasCleanedUp;
    FlightStands(trace, actions, i, id);
  }

  // ---- what follows for visitors ---------------------------------------------------------------------

  /** A cold page whose render failed is left alone for five seconds, under any policy, and then tried again. */
  lemma FailedRenderCools(m: Memory, id: nat, at: int, victim: Option<string>, policy: Policy, now: int)
    requires Sound(m) && CanFinish(m, id, Failed, at, victim) && !m.flights[id].doomed && !m.flights[id].background
    requires victim != Some(m.flights[id].key)
    ensures HandleOutcome(Finish(m, id, Failed, at, victim), m.flights[id].key, policy, now).Bypass? <==> now < at + 5_000_000_000
  {
    var key := m.flights[id].key;
    hide GetsAnswer, Finish, HandleOutcome, CanFinish;
    RenderEnds(m, id, Failed, at, victim);
    FinishIsSound(m, id, Failed, at, victim);
    var m' := Finish(m, id, Failed, at, victim);
    hide Sound;
    RequestIsAnswered(m', key, policy, now);
    BypassIs(m', key, policy, now);
  }

  lemma BypassIs(m: Memory, key: string, policy: Policy, now: int)
    requires GetsAnswer(m, key, policy, now, HandleOutcome(m, key, policy, now))
    ensures HandleOutcome(m, key, policy, now).Bypass? <==> Stands(m.refused, key, policy, now)
  {
    hide Stands;
  }

  /** A stored page is what the key's requests get: as it is within its window, while it is replaced after that. */
  lemma StoredPageIsServed(m: Memory, id: nat, page: CachedPage, at: int, policy: Policy, now: int)
    requires Sound(m) && CanFinish(m, id, Rendered(page), at, None) && !m.flights[id].doomed
    requires m.flights[id].key !in m.refused
    ensures HandleOutcome(Finish(m, id, Rendered(page), at, None), m.flights[id].key, policy, now)
            == if policy.manual || now < page.storedAt + policy.window then Hit(page) else Outcome.Stale(page)
  {
    var key, m' := m.flights[id].key, Finish(m, id, Rendered(page), at, None);
    hide Finish, HandleOutcome, CanFinish;
    RenderEnds(m, id, Rendered(page), at, None);
    FinishIsSound(m, id, Rendered(page), at, None);
    LastIsHeld(m, m', key, page);
    RequestIsAnswered(m', key, policy, now);
  }

  lemma LastIsHeld(m: Memory, m': Memory, key: string, page: CachedPage)
    requires StoredNow(m, m', key, page)
    ensures CacheItem(key, page) in m'.cache
  {
    assert m'.cache[|m'.cache| - 1] == CacheItem(key, page);
  }
}
