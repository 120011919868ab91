/**
 The page cache's protocol in memory (isr.go), as a state machine: every section held under the
 mutex is one step, and a render starts, answers and cleans up in steps of its own, with any
 other step in between.
 */
module IsrMemory {
  import opened CacheKeys
  import opened PageCache
  import opened Wrappers

  const RENDER_FAILURE_COOL := 5_000_000_000

  /** A page's policy; the window and all times are in nanoseconds. */
  datatype Policy = Policy(manual: bool, window: int, tags: seq<string>)

  datatype Refusal = Refusal(at: int, tags: seq<string>, cool: int, flight: nat)

  datatype Phase = Rendering | Answered | Over

  datatype Flight = Flight(
    key: string, tags: seq<string>, background: bool, doomed: bool, phase: Phase, result: Option<CachedPage>)

  /** What an operator says has changed. */
  datatype Target = ByPath(path: string) | ByTag(tag: string)

  predicate Names(what: Target, key: string, tags: seq<string>) {
    match what
    case ByPath(path) => PathMatchesKey(path, key)
    case ByTag(tag) => tag in tags
  }

  /**
   History: what was invalidated when, who waits since when, who was answered with what. `outlived`
   are the renders whose copies a crash brought back before their removal was swept; without a
   crash there are none.
   */
  datatype Invalidation = Invalidation(what: Target, at: nat, outlived: set<Render>)

  datatype Render = Render(key: string, flight: nat)

  datatype Waiter = Waiter(asked: nat, flight: nat)
  datatype Answer = Answer(asked: nat, key: string, page: CachedPage)

  /** A flight is named by the moment it was registered: its render reads the data after that. */
  datatype Memory = Memory(
    cache: seq<CacheItem>,
    refused: map<string, Refusal>,
    inflight: map<string, nat>,
    flights: map<nat, Flight>,
    clock: nat,
    invalidations: set<Invalidation>,
    waiters: set<Waiter>,
    answers: set<Answer>)

  /** What a step leaves to be done on disk: the keys it dropped, the copy it stored. */
  datatype Effect = Effect(drops: multiset<string>, saved: Option<CacheItem>)

  const NO_EFFECT := Effect(multiset{}, None)

  // ---- one lock-held section of `handle` --------------------------------------------

  predicate Held(ref: Refusal, policy: Policy, now: int) {
    if ref.cool > 0 then now - ref.at < ref.cool
    else policy.manual || now - ref.at < policy.window
  }

  predicate Fresh(entry: CachedPage, policy: Policy, now: int) {
    policy.manual || now - entry.storedAt < policy.window
  }

  predicate Joinable(m: Memory, key: string) {
    key in m.inflight && m.inflight[key] in m.flights && !m.flights[m.inflight[key]].doomed
  }

  /** `regenerate`: a flight that may still answer for the data as it is now is joined. */
  function FlightFor(m: Memory, key: string): nat {
    if Joinable(m, key) then m.inflight[key] else m.clock
  }

  function Regenerate(m: Memory, key: string, policy: Policy, background: bool): Memory {
    if Joinable(m, key) then m
    else m.(flights := m.flights[m.clock := Flight(key, policy.tags, background, false, Rendering, None)],
            inflight := m.inflight[key := m.clock])
  }

  datatype Outcome = Bypass | Hit(page: CachedPage) | Stale(page: CachedPage) | Wait(flight: nat)

  function HandleOutcome(m: Memory, key: string, policy: Policy, now: int): Outcome {
    if key in m.refused && Held(m.refused[key], policy, now) then Bypass
    else match Find(m.cache, key)
      case Some(entry) => if Fresh(entry, policy, now) then Hit(entry) else Stale(entry)
      case None => Wait(FlightFor(m, key))
  }

  function Handle(m: Memory, key: string, policy: Policy, now: int): Memory {
    var outcome := HandleOutcome(m, key, policy, now);
    var seen := if outcome.Bypass? then m else m.(refused := m.refused - {key});
    var next := match outcome
      case Bypass => m
      case Hit(page) =>
        seen.(cache := Put(m.cache, key, page), answers := m.answers + {Answer(m.clock, key, page)})
      case Stale(page) =>
        Regenerate(seen, key, policy, true).(
          cache := Put(m.cache, key, page), answers := m.answers + {Answer(m.clock, key, page)})
      case Wait(flight) =>
        Regenerate(seen, key, policy, false).(waiters := m.waiters + {Waiter(m.clock, flight)});
    next.(clock := m.clock + 1)
  }

  // ---- the end of a render ------------------------------------------------------------

  datatype Verdict = Failed | Panicked | Unstorable | Rendered(page: CachedPage)

  /** The refusal memory keeps 512 keys; past that the oldest goes. */
  predicate TrimVictim(refused: map<string, Refusal>, victim: Option<string>) {
    if |refused| <= MAX_CACHED_PAGES then victim.None?
    else victim.Some? && victim.value in refused && forall k :: k in refused ==> refused[victim.value].at <= refused[k].at
  }

  function Refuse(m: Memory, key: string, ref: Refusal): map<string, Refusal> {
    m.refused[key := ref]
  }

  function Trim(refused: map<string, Refusal>, victim: Option<string>): map<string, Refusal> {
    if victim.Some? then refused - {victim.value} else refused
  }

  /** Whether this end of the render leaves a refusal behind, and for how long. */
  function RefusalOf(m: Memory, id: nat, verdict: Verdict, now: int): Option<Refusal>
    requires id in m.flights
  {
    var f := m.flights[id];
    if f.doomed then None
    else match verdict
      case Failed => if f.background then None else Some(Refusal(now, f.tags, RENDER_FAILURE_COOL, id))
      case Unstorable => Some(Refusal(now, f.tags, 0, id))
      case _ => None
  }

  predicate CanFinish(m: Memory, id: nat, verdict: Verdict, now: int, victim: Option<string>) {
    && id in m.flights && m.flights[id].phase == Rendering
    && (verdict.Rendered? ==> verdict.page.flight == id && verdict.page.tags == m.flights[id].tags)
    && (match RefusalOf(m, id, verdict, now)
        case Some(ref) => TrimVictim(Refuse(m, m.flights[id].key, ref), victim)
        case None => victim.None?)
  }

  function Finish(m: Memory, id: nat, verdict: Verdict, now: int, victim: Option<string>): Memory
    requires CanFinish(m, id, verdict, now, victim)
  {
    var f := m.flights[id];
    var ended := f.(phase := Answered, result := if verdict.Rendered? then Some(verdict.page) else None);
    var refused := match RefusalOf(m, id, verdict, now)
      case Some(ref) => Trim(Refuse(m, f.key, ref), victim)
      case None => m.refused;
    var cache := if f.doomed then m.cache
      else match verdict
        case Unstorable => Without(m.cache, {f.key})
        case Rendered(page) => Newest(Put(m.cache, f.key, page))
        case _ => m.cache;
    m.(flights := m.flights[id := ended], refused := refused, cache := cache, clock := m.clock + 1)
  }

  function FinishEffect(m: Memory, id: nat, verdict: Verdict): Effect
    requires id in m.flights
  {
    var f := m.flights[id];
    if f.doomed then NO_EFFECT
    else match verdict
      case Unstorable => Effect(if Find(m.cache, f.key).Some? then multiset{f.key} else multiset{}, None)
      case Rendered(page) =>
        Effect(multiset(KeySeq(Evicted(Put(m.cache, f.key, page)))), Some(CacheItem(f.key, page)))
      case _ => NO_EFFECT
  }

  /** The deferred cleanup: only the registered flight unregisters its key. */
  predicate CanCleanUp(m: Memory, id: nat) {
    id in m.flights && m.flights[id].phase == Answered
  }

  function CleanUp(m: Memory, id: nat): Memory
    requires CanCleanUp(m, id)
  {
    var f := m.flights[id];
    m.(flights := m.flights[id := f.(phase := Over)],
       inflight := if f.key in m.inflight && m.inflight[f.key] == id then m.inflight - {f.key} else m.inflight,
       clock := m.clock + 1)
  }

  /** A waiter, woken: it is answered with the flight's result, or bypasses. */
  predicate CanDeliver(m: Memory, w: Waiter) {
    w in m.waiters && w.flight in m.flights && m.flights[w.flight].phase == Over
  }

  function Deliver(m: Memory, w: Waiter): Memory
    requires CanDeliver(m, w)
  {
    var f := m.flights[w.flight];
    m.(waiters := m.waiters - {w},
       answers := if f.result.Some? then m.answers + {Answer(w.asked, f.key, f.result.value)} else m.answers,
       clock := m.clock + 1)
  }

  // ---- an invalidation ----------------------------------------------------------------

  function NamedCopies(cache: seq<CacheItem>, what: Target): set<string> {
    match what
    case ByPath(path) => MatchingKeys(cache, path)
    case ByTag(tag) => TaggedKeys(cache, tag)
  }

  /** The flight is one the invalidation finds registered, and names. */
  predicate Doomable(m: Memory, id: nat, what: Target) {
    && id in m.flights
    && m.flights[id].key in m.inflight && m.inflight[m.flights[id].key] == id
    && Names(what, m.flights[id].key, m.flights[id].tags)
  }

  function Invalidate(m: Memory, what: Target): Memory {
    m.(cache := Without(m.cache, NamedCopies(m.cache, what)),
       refused := map k | k in m.refused && !Names(what, k, m.refused[k].tags) :: m.refused[k],
       flights := map id | id in m.flights ::
                    if Doomable(m, id, what) then m.flights[id].(doomed := true) else m.flights[id],
       invalidations := m.invalidations + {Invalidation(what, m.clock, {})},
       clock := m.clock + 1)
  }

  // ---- every step ----------------------------------------------------------------------

  datatype Action =
    | HandleRequest(key: string, policy: Policy, now: int)
    | FinishRender(id: nat, verdict: Verdict, now: int, victim: Option<string>)
    | CleanUpFlight(id: nat)
    | DeliverResult(waiter: Waiter)
    | InvalidateTarget(what: Target)

  predicate Enabled(m: Memory, a: Action) {
    match a
    case HandleRequest(_, _, _) => true
    case FinishRender(id, verdict, now, victim) => CanFinish(m, id, verdict, now, victim)
    case CleanUpFlight(id) => CanCleanUp(m, id)
    case DeliverResult(w) => CanDeliver(m, w)
    case InvalidateTarget(_) => true
  }

  function Step(m: Memory, a: Action): Memory
    requires Enabled(m, a)
  {
    match a
    case HandleRequest(key, policy, now) => Handle(m, key, policy, now)
    case FinishRender(id, verdict, now, victim) => Finish(m, id, verdict, now, victim)
    case CleanUpFlight(id) => CleanUp(m, id)
    case DeliverResult(w) => Deliver(m, w)
    case InvalidateTarget(what) => Invalidate(m, what)
  }

  function EffectOf(m: Memory, a: Action): Effect
    requires Enabled(m, a)
  {
    match a
    case FinishRender(id, verdict, _, _) => FinishEffect(m, id, verdict)
    case InvalidateTarget(what) => Effect(multiset(NamedCopies(m.cache, what)), None)
    case _ => NO_EFFECT
  }

  // ---- what every step keeps -------------------------------------------------------------

  /** The render came after the invalidation, unless a crash brought its copy back. */
  predicate After(v: Invalidation, key: string, flight: nat) {
    v.at < flight || Render(key, flight) in v.outlived
  }

  /** Rendered from data no older than every invalidation in `log` that names it. */
  predicate NewerThan(log: set<Invalidation>, key: string, tags: seq<string>, flight: nat) {
    forall v :: v in log && Names(v.what, key, tags) ==> After(v, key, flight)
  }

  /** The same, of the invalidations that had happened when the request came in. */
  predicate NewerThanAsked(log: set<Invalidation>, asked: nat, key: string, tags: seq<string>, flight: nat) {
    forall v :: v in log && v.at < asked && Names(v.what, key, tags) ==> After(v, key, flight)
  }

  predicate Unfinished(f: Flight) {
    !f.doomed && f.phase != Over
  }

  predicate CacheSound(cache: seq<CacheItem>, log: set<Invalidation>) {
    && DistinctKeys(cache) && |cache| <= MAX_CACHED_PAGES
    && forall item :: item in cache ==> NewerThan(log, item.key, item.entry.tags, item.entry.flight)
  }

  predicate RefusalsSound(refused: map<string, Refusal>, log: set<Invalidation>) {
    && |refused| <= MAX_CACHED_PAGES
    && forall k :: k in refused ==> NewerThan(log, k, refused[k].tags, refused[k].flight)
  }

  /** An undoomed flight that is not over is the registered one, and reads current data. */
  predicate FlightsSound(flights: map<nat, Flight>, inflight: map<string, nat>, log: set<Invalidation>) {
    && (forall id :: id in flights && flights[id].result.Some? ==>
          flights[id].result.value.flight == id && flights[id].result.value.tags == flights[id].tags)
    && (forall id :: id in flights && Unfinished(flights[id]) ==>
          && flights[id].key in inflight && inflight[flights[id].key] == id
          && NewerThan(log, flights[id].key, flights[id].tags, id))
    && (forall k :: k in inflight ==>
          inflight[k] in flights && flights[inflight[k]].key == k && flights[inflight[k]].phase != Over)
  }

  predicate WaitersSound(waiters: set<Waiter>, flights: map<nat, Flight>, log: set<Invalidation>) {
    forall w :: w in waiters ==>
      && w.flight in flights
      && NewerThanAsked(log, w.asked, flights[w.flight].key, flights[w.flight].tags, w.flight)
  }

  predicate AnswersSound(answers: set<Answer>, log: set<Invalidation>) {
    forall a :: a in answers ==> NewerThanAsked(log, a.asked, a.key, a.page.tags, a.page.flight)
  }

  /** Everything recorded happened before now. */
  predicate ClockSound(m: Memory) {
    && (forall v :: v in m.invalidations ==> v.at < m.clock)
    && (forall id :: id in m.flights ==> id < m.clock)
    && (forall w :: w in m.waiters ==> w.asked < m.clock)
    && (forall a :: a in m.answers ==> a.asked < m.clock)
  }

  predicate Sound(m: Memory) {
    && ClockSound(m)
    && CacheSound(m.cache, m.invalidations)
    && RefusalsSound(m.refused, m.invalidations)
    && FlightsSound(m.flights, m.inflight, m.invalidations)
    && WaitersSound(m.waiters, m.flights, m.invalidations)
    && AnswersSound(m.answers, m.invalidations)
  }
}
