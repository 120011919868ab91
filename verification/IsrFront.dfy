/**
 The page cache's object (isr.go): its fields as the methods change them, one method a section
 held under the lock.

 Each is proved to be a step of the protocol, whose theorems then hold of the object. What `isr`
 keeps for the disk - the generations, the saves it began and the keys to sweep - is an object of
 its own beside it.
 */
module IsrFront {
  import opened CacheKeys
  import opened IsrAnswers
  import opened IsrDisk
  import opened IsrFreshness
  import opened IsrMemory
  import opened PageCache
  import opened Wrappers

  // ---- the loops over maps -------------------------------------------------------------

  function Unnamed(refused: map<string, Refusal>, what: Target): map<string, Refusal> {
    map k | k in refused && !Names(what, k, refused[k].tags) :: refused[k]
  }

  /** The refusals with the keys of `done` looked at, and those named dropped. */
  ghost predicate Swept(was: map<string, Refusal>, now: map<string, Refusal>, done: set<string>, what: Target) {
    && (forall k :: k in now <==> k in was && !(k in done && Names(what, k, was[k].tags)))
    && (forall k :: k in now ==> now[k] == was[k])
  }

  method SweepRefusals(refused: map<string, Refusal>, what: Target) returns (kept: map<string, Refusal>)
    ensures kept == Unnamed(refused, what)
  {
    hide Names;
    kept := refused;
    var todo := refused.Keys;
    while todo != {}
      invariant todo <= refused.Keys && Swept(refused, kept, refused.Keys - todo, what)
      decreases todo
    {
      var key :| key in todo;
      todo := todo - {key};
      if Names(what, key, refused[key].tags) {
        kept := kept - {key};
      }
    }
  }

  /** The flights with those registered under `done` looked at, and those named doomed. */
  ghost predicate DoomedBy(was: map<nat, Flight>, now: map<nat, Flight>, inflight: map<string, nat>, done: set<string>, what: Target) {
    && now.Keys == was.Keys
    && forall id :: id in was ==>
         now[id] == if was[id].key in done && was[id].key in inflight && inflight[was[id].key] == id && Names(what, was[id].key, was[id].tags)
                    then was[id].(doomed := true) else was[id]
  }

  method DoomFlights(flights: map<nat, Flight>, inflight: map<string, nat>, what: Target) returns (doomed: map<nat, Flight>)
    requires forall k :: k in inflight ==> inflight[k] in flights && flights[inflight[k]].key == k
    ensures DoomedBy(flights, doomed, inflight, inflight.Keys, what)
  {
    hide Names;
    doomed := flights;
    var todo := inflight.Keys;
    while todo != {}
      invariant todo <= inflight.Keys && DoomedBy(flights, doomed, inflight, inflight.Keys - todo, what)
      decreases todo
    {
      var key :| key in todo;
      todo := todo - {key};
      var id := inflight[key];
      if Names(what, key, flights[id].tags) {
        doomed := doomed[id := doomed[id].(doomed := true)];
      }
    }
  }

  /** `trimRefused`: the oldest refusals leave until 512 are left. */
  method TrimRefused(refused: map<string, Refusal>) returns (kept: map<string, Refusal>, victim: Option<string>)
    requires |refused| <= MAX_CACHED_PAGES + 1
    ensures TrimVictim(refused, victim) && kept == Trim(refused, victim)
  {
    kept, victim := refused, None;
    while |kept| > MAX_CACHED_PAGES
      invariant if victim.Some? then TrimVictim(refused, victim) && kept == refused - {victim.value} && |kept| == |refused| - 1
                else kept == refused
      decreases |kept|
    {
      var oldest := Oldest(kept);
      victim, kept := Some(oldest), kept - {oldest};
      assert kept.Keys == refused.Keys - {oldest};
      assert |kept.Keys| == |kept| && |refused.Keys| == |refused|;
    }
  }

  method Oldest(refused: map<string, Refusal>) returns (oldest: string)
    requires |refused| > 0
    ensures oldest in refused && forall k :: k in refused ==> refused[oldest].at <= refused[k].at
  {
    assert |refused.Keys| == |refused|;
    oldest :| oldest in refused;
    var todo := refused.Keys - {oldest};
    while todo != {}
      invariant todo <= refused.Keys && oldest in refused
      invariant forall k :: k in refused && k !in todo ==> refused[oldest].at <= refused[k].at
      decreases todo
    {
      var key :| key in todo;
      todo := todo - {key};
      if refused[key].at < refused[oldest].at {
        oldest := key;
      }
    }
  }

  // ---- values the methods pass through ---------------------------------------------------

  function EndedFlight(f: Flight, verdict: IsrMemory.Verdict): Flight {
    f.(phase := Answered, result := if verdict.Rendered? then Some(verdict.page) else None)
  }

  predicate CouldFinish(m: Memory, f: Flight, id: nat, verdict: IsrMemory.Verdict) {
    && id in m.flights && m.flights[id] == f && f.phase == Rendering
    && (verdict.Rendered? ==> verdict.page.flight == id && verdict.page.tags == f.tags)
  }

  ghost predicate Ended(m: Memory, id: nat, verdict: IsrMemory.Verdict, now: int, victim: Option<string>,
                        refused: map<string, Refusal>, cache: seq<CacheItem>) {
    && CanFinish(m, id, verdict, now, victim)
    && refused == Finish(m, id, verdict, now, victim).refused && cache == Finish(m, id, verdict, now, victim).cache
  }

  lemma FinishFields(m: Memory, id: nat, verdict: IsrMemory.Verdict, now: int, victim: Option<string>)
    requires CanFinish(m, id, verdict, now, victim)
    ensures var next := Finish(m, id, verdict, now, victim);
            next.inflight == m.inflight && next.flights == m.flights[id := EndedFlight(m.flights[id], verdict)]
            && next.clock == m.clock + 1
  {
    hide Find, Put, Without, Newest, TrimVictim, Trim;
  }

  lemma ApplyNothing(d: Disk, build: string)
    ensures Apply(d, NO_EFFECT, build) == d
  {
    ForgetNothing(d);
  }

  lemma ForgetNothing(d: Disk)
    ensures Forget(d, multiset{}) == d
  {
    assert d.saveGen - KeysIn(multiset{}) == d.saveGen;
  }

  lemma ForgetNext(d: Disk, dropped: seq<string>, i: nat)
    requires i < |dropped|
    ensures var before, after := Forget(d, multiset(dropped[..i])), Forget(d, multiset(dropped[..i + 1]));
            after == before.(saveGen := before.saveGen - {dropped[i]}, sweep := before.sweep + multiset{dropped[i]})
  {
    assert dropped[..i + 1] == dropped[..i] + [dropped[i]];
    assert KeysIn(multiset(dropped[..i + 1])) == KeysIn(multiset(dropped[..i])) + {dropped[i]};
  }

  lemma SoundFields(m: Memory)
    requires Sound(m)
    ensures |m.refused| <= MAX_CACHED_PAGES
    ensures forall k :: k in m.inflight ==> m.inflight[k] in m.flights && m.flights[m.inflight[k]].key == k
  {
  }

  lemma InvalidateFields(m: Memory, what: Target)
    ensures var next := Invalidate(m, what);
            next.cache == Without(m.cache, NamedCopies(m.cache, what)) && next.inflight == m.inflight && next.clock == m.clock + 1
  {
    hide Names, Doomable, NamedCopies, Without;
  }

  lemma UnnamedIs(m: Memory, what: Target)
    ensures Unnamed(m.refused, what) == Invalidate(m, what).refused
  {
    hide Names;
  }

  lemma DoomedIs(m: Memory, flights: map<nat, Flight>, what: Target)
    requires DoomedBy(m.flights, flights, m.inflight, m.inflight.Keys, what)
    ensures flights == Invalidate(m, what).flights
  {
    hide Names;
  }

  /** Of what `regenerate` does, the flights and who is registered: it touches nothing else. */
  ghost predicate Joins(m: Memory, flights: map<nat, Flight>, inflight: map<string, nat>, key: string, policy: Policy, background: bool) {
    && flights == IsrMemory.Regenerate(m, key, policy, background).flights
    && inflight == IsrMemory.Regenerate(m, key, policy, background).inflight
  }

  ghost predicate HandledAs(m: Memory, next: Memory, outcome: Outcome, key: string, policy: Policy, now: int) {
    && next.refused == m.refused - {key} && next.clock == m.clock + 1
    && match Find(m.cache, key)
       case None =>
         && outcome == Wait(FlightFor(m, key)) && next.cache == m.cache
         && Joins(m, next.flights, next.inflight, key, policy, false)
       case Some(page) =>
         && outcome == (if Fresh(page, policy, now) then Hit(page) else Stale(page))
         && next.cache == Put(m.cache, key, page)
         && (if Fresh(page, policy, now) then next.flights == m.flights && next.inflight == m.inflight
             else Joins(m, next.flights, next.inflight, key, policy, true))
  }

  lemma HandleFields(m: Memory, key: string, policy: Policy, now: int)
    ensures key in m.refused && Held(m.refused[key], policy, now) ==>
              HandleOutcome(m, key, policy, now) == Bypass && IsrMemory.Handle(m, key, policy, now) == m.(clock := m.clock + 1)
    ensures !(key in m.refused && Held(m.refused[key], policy, now)) ==>
              HandledAs(m, IsrMemory.Handle(m, key, policy, now), HandleOutcome(m, key, policy, now), key, policy, now)
  {
    hide Held, Fresh, Find, Put;
  }

  /** What the disk is left to do, when there is one. */
  ghost predicate Did(persist: bool, build: string, before: Disk, after: Disk, e: Effect) {
    after == if persist then Apply(before, e, build) else before
  }

  /** What `isr` keeps for the disk: generations, the saves it began, the keys to sweep. */
  class Saver {
    const enabled: bool
    const build: string
    var saveGen: map<string, nat>
    var lastGen: nat
    var saves: map<nat, Save>           // the saves begun, under their generation
    var sweep: seq<string>
    ghost var disk: Disk                // what the fields stand for, with what happens beside the lock

    ghost predicate Valid()
      reads this
    {
      disk.saveGen == saveGen && disk.lastGen == lastGen && disk.saves == saves && disk.sweep == multiset(sweep)
    }

    constructor (enabled: bool, build: string)
      ensures Valid() && this.enabled == enabled && this.build == build
      ensures disk == Disk(map[], 0, multiset{}, None, map[], map[], map[], {}, {})
    {
      this.enabled, this.build := enabled, build;
      saveGen, lastGen, saves, sweep := map[], 0, map[], [];
      disk := Disk(map[], 0, multiset{}, None, map[], map[], map[], {}, {});
    }

    /** `forgetSaved`, for each key the cache has just dropped. */
    method ForgetSaved(dropped: seq<string>)
      requires Valid()
      modifies this
      ensures Valid()
      ensures disk == if enabled then Forget(old(disk), multiset(dropped)) else old(disk)
    {
      if !enabled {
        return;
      }
      ghost var was := disk;
      ForgetNothing(was);
      for i := 0 to |dropped|
        invariant Valid() && disk == Forget(was, multiset(dropped[..i]))
      {
        hide Forget;
        ForgetNext(was, dropped, i);
        saveGen := saveGen - {dropped[i]};
        sweep := sweep + [dropped[i]];
        disk := Forget(was, multiset(dropped[..i + 1]));
      }
      assert dropped[..|dropped|] == dropped;
    }

    /** `saveEntry`: the generation, and the goroutine that will write. */
    method SaveEntry(key: string, entry: CachedPage)
      requires Valid()
      modifies this
      ensures Valid()
      ensures disk == if enabled then BeginSave(old(disk), CacheItem(key, entry), build) else old(disk)
    {
      if !enabled {
        return;
      }
      disk := BeginSave(disk, CacheItem(key, entry), build);
      lastGen := lastGen + 1;
      saveGen := saveGen[key := lastGen];
      saves := saves[lastGen := Save(CacheItem(key, entry), Started)];
    }

    /** `drain` takes what is queued; `id` names the drain. */
    method TakeSweep(id: nat) returns (keys: seq<string>)
      requires Valid() && id !in disk.drains
      modifies this
      ensures Valid() && keys == old(sweep)
      ensures disk == old(disk).(sweep := multiset{}, drains := old(disk).drains[id := Drain(multiset(keys), None)])
    {
      keys, sweep := sweep, [];
      disk := disk.(sweep := multiset{}, drains := disk.drains[id := Drain(disk.sweep, None)]);
    }
  }

  class Isr {
    const cache: PageCache
    const saver: Saver
    var refused: map<string, Refusal>
    var inflight: map<string, nat>
    var flights: map<nat, Flight>       // every flight ever registered, under its name
    var clock: nat                      // sections held so far: what names a flight
    ghost var memory: Memory            // what the fields stand for, with its history

    ghost predicate Ties()
      reads this, cache
    {
      && cache.Valid()
      && memory.cache == cache.order && memory.refused == refused && memory.inflight == inflight
      && memory.flights == flights && memory.clock == clock
    }

    ghost predicate Valid()
      reads this, cache, saver
    {
      Ties() && Sound(memory) && saver.Valid()
    }

    constructor (persist: bool, build: string)
      ensures Valid() && fresh(cache) && fresh(saver) && saver.enabled == persist && saver.build == build
      ensures memory == Memory([], map[], map[], map[], 0, {}, {}, {})
    {
      cache := new PageCache();
      saver := new Saver(persist, build);
      refused, inflight, flights, clock := map[], map[], map[], 0;
      memory := Memory([], map[], map[], map[], 0, {}, {}, {});
    }

    /** `regenerate`: a running flight is joined while it may still answer. */
    method Regenerate(key: string, policy: Policy, background: bool) returns (id: nat)
      requires memory.flights == flights && memory.inflight == inflight && memory.clock == clock
      modifies this
      ensures id == FlightFor(memory, key)
      ensures Joins(memory, flights, inflight, key, policy, background)
      ensures memory == old(memory) && refused == old(refused) && clock == old(clock)
    {
      if key in inflight && inflight[key] in flights && !flights[inflight[key]].doomed {
        return inflight[key];
      }
      id := clock;
      flights := flights[id := Flight(key, policy.tags, background, false, Rendering, None)];
      inflight := inflight[key := id];
    }

    /** The section `handle` holds the lock for. */
    method Handle(key: string, policy: Policy, now: int) returns (outcome: Outcome)
      requires Valid()
      modifies this, cache
      ensures Valid()
      ensures outcome == HandleOutcome(old(memory), key, policy, now)
      ensures memory == IsrMemory.Handle(old(memory), key, policy, now)
      ensures GetsAnswer(old(memory), key, policy, now, outcome)
      ensures SectionLeaves(old(memory), memory, key, policy, outcome)
    {
      hide PageCache.Valid, Saver.Valid, Sound, Held, Fresh, Find, Put, IsrMemory.Handle, HandleOutcome, HandledAs;
      hide GetsAnswer, SectionLeaves;
      RequestIsAnswered(memory, key, policy, now);
      RequestLeaves(memory, key, policy, now);
      HandleIsSound(memory, key, policy, now);
      HandleFields(memory, key, policy, now);
      if key in refused && Held(refused[key], policy, now) {
        outcome := Bypass;
        clock := clock + 1;
        memory := IsrMemory.Handle(memory, key, policy, now);
      } else {
        outcome := Serve(key, policy, now, IsrMemory.Handle(memory, key, policy, now), HandleOutcome(memory, key, policy, now));
      }
    }

    /** The rest of the section, when no refusal holds: from the cache, or by a flight. */
    method Serve(key: string, policy: Policy, now: int, ghost next: Memory, ghost expected: Outcome) returns (outcome: Outcome)
      requires Ties() && HandledAs(memory, next, expected, key, policy, now)
      modifies this, cache
      ensures Ties() && memory == next && outcome == expected
    {
      hide PageCache.Valid, Held, Fresh, Find, Put, IsrMemory.Regenerate, FlightFor;
      refused := refused - {key};
      var entry := cache.Get(key);
      if entry.Some? && Fresh(entry.value, policy, now) {
        outcome := Hit(entry.value);
      } else if entry.Some? {
        var running := Regenerate(key, policy, true);
        outcome := Stale(entry.value);
      } else {
        var running := Regenerate(key, policy, false);
        outcome := Wait(running);
      }
      clock := clock + 1;
      memory := next;
    }

    method StoreCopy(key: string, page: CachedPage)
      requires cache.Valid() && saver.Valid()
      modifies cache, saver
      ensures cache.Valid() && saver.Valid()
      ensures cache.order == Newest(Put(old(cache.order), key, page))
      ensures Did(saver.enabled, saver.build, old(saver.disk), saver.disk,
                  Effect(multiset(KeySeq(Evicted(Put(old(cache.order), key, page)))), Some(CacheItem(key, page))))
    {
      hide PageCache.Valid, Saver.Valid, Put, Newest, Evicted, KeySeq, Forget, BeginSave;
      var from := |cache.dropped|;
      ghost var put := Put(cache.order, key, page);
      cache.Store(key, page);
      assert cache.dropped[from..] == KeySeq(Evicted(put));
      saver.ForgetSaved(cache.dropped[from..]);
      saver.SaveEntry(key, page);
    }

    method DropCopy(key: string)
      requires cache.Valid() && saver.Valid()
      modifies cache, saver
      ensures cache.Valid() && saver.Valid()
      ensures cache.order == Without(old(cache.order), {key})
      ensures Did(saver.enabled, saver.build, old(saver.disk), saver.disk,
                  Effect(if Find(old(cache.order), key).Some? then multiset{key} else multiset{}, None))
    {
      hide Saver.Valid, Views, Find, Without, Forget;
      WithoutIsShorter(cache.order, {key});
      var from := |cache.dropped|;
      ghost var found := Find(cache.order, key).Some?;
      cache.Remove(key, true);
      assert cache.dropped[from..] == if found then [key] else [];
      saver.ForgetSaved(cache.dropped[from..]);
    }

    method RefuseKey(key: string, ref: Refusal) returns (ghost victim: Option<string>)
      requires |refused| <= MAX_CACHED_PAGES
      modifies this`refused
      ensures TrimVictim(old(refused)[key := ref], victim) && refused == Trim(old(refused)[key := ref], victim)
    {
      hide TrimVictim;
      ghost var was := refused;
      refused := refused[key := ref];
      assert refused.Keys == was.Keys + {key};
      assert |refused.Keys| == |refused| && |was.Keys| == |was|;
      refused, victim := TrimRefused(refused);
    }

    /** What the end of a render does to the refusals, to the cache and to the disk. */
    method EndRender(f: Flight, id: nat, verdict: IsrMemory.Verdict, now: int) returns (ghost victim: Option<string>)
      requires Ties() && saver.Valid() && |refused| <= MAX_CACHED_PAGES && CouldFinish(memory, f, id, verdict)
      modifies this`refused, cache, saver
      ensures cache.Valid() && saver.Valid() && Ended(memory, id, verdict, now, victim, refused, cache.order)
      ensures Did(saver.enabled, saver.build, old(saver.disk), saver.disk, FinishEffect(memory, id, verdict))
    {
      hide PageCache.Valid, Saver.Valid, Find, Put, Without, Newest, Evicted, KeySeq, TrimVictim, Trim, Apply;
      ApplyNothing(saver.disk, saver.build);
      victim := None;
      if f.doomed {
        return;
      }
      match verdict
      case Failed =>
        if !f.background {
          victim := RefuseKey(f.key, Refusal(now, f.tags, RENDER_FAILURE_COOL, id));
        }
      case Panicked =>
      case Unstorable =>
        victim := RefuseKey(f.key, Refusal(now, f.tags, 0, id));
        DropCopy(f.key);
      case Rendered(page) =>
        StoreCopy(f.key, page);
    }

    /** The section a render ends with; a panic's ends here too. */
    method FinishRender(id: nat, verdict: IsrMemory.Verdict, now: int) returns (ghost victim: Option<string>)
      requires Valid() && id in flights && CouldFinish(memory, flights[id], id, verdict)
      modifies this, cache, saver
      ensures Valid() && CanFinish(old(memory), id, verdict, now, victim)
      ensures memory == Finish(old(memory), id, verdict, now, victim)
      ensures id in old(memory).flights && EndsAs(old(memory), memory, id, verdict, now, victim)
      ensures Did(saver.enabled, saver.build, old(saver.disk), saver.disk, FinishEffect(old(memory), id, verdict))
    {
      hide PageCache.Valid, Saver.Valid, Sound, CanFinish, Finish, FinishEffect, Did, CouldFinish, EndsAs;
      SoundFields(memory);
      var f := flights[id];
      victim := EndRender(f, id, verdict, now);
      FinishFields(memory, id, verdict, now, victim);
      FinishIsSound(memory, id, verdict, now, victim);
      RenderEnds(memory, id, verdict, now, victim);
      flights := flights[id := EndedFlight(f, verdict)];
      clock := clock + 1;
      memory := Finish(memory, id, verdict, now, victim);
    }

    /** The deferred cleanup of a flight. */
    method CleanUpFlight(id: nat)
      requires Valid() && CanCleanUp(memory, id)
      modifies this
      ensures Valid() && memory == CleanUp(old(memory), id)
    {
      hide PageCache.Valid, Saver.Valid, Sound;
      CleanUpIsSound(memory, id);
      var f := flights[id];
      if f.key in inflight && inflight[f.key] == id {
        inflight := inflight - {f.key};
      }
      flights := flights[id := f.(phase := Over)];
      clock := clock + 1;
      memory := CleanUp(memory, id);
    }

    method DropNamed(what: Target) returns (dropped: nat)
      requires cache.Valid() && saver.Valid()
      modifies cache, saver
      ensures cache.Valid() && saver.Valid()
      ensures cache.order == Without(old(cache.order), NamedCopies(old(cache.order), what))
      ensures Did(saver.enabled, saver.build, old(saver.disk), saver.disk, Effect(multiset(NamedCopies(old(cache.order), what)), None))
      ensures dropped == |old(cache.order)| - |cache.order|
    {
      hide PageCache.Valid, Saver.Valid, Without, MatchingKeys, TaggedKeys, Forget;
      var from := |cache.dropped|;
      match what {
        case ByPath(path) => dropped := cache.InvalidatePath(path);
        case ByTag(tag) => dropped := cache.InvalidateTag(tag);
      }
      assert multiset(cache.dropped[from..]) == multiset(NamedCopies(old(cache.order), what));
      saver.ForgetSaved(cache.dropped[from..]);
    }

    /** A Revalidate, by path or by tag: the copies, the refusals and the flights it names. */
    method InvalidateNamed(what: Target) returns (dropped: nat)
      requires Valid()
      modifies this, cache, saver
      ensures Valid() && memory == Invalidate(old(memory), what) && Takes(old(memory), memory, what)
      ensures Did(saver.enabled, saver.build, old(saver.disk), saver.disk, Effect(multiset(NamedCopies(old(memory).cache, what)), None))
      ensures dropped == |old(cache.order)| - |cache.order|
    {
      hide PageCache.Valid, Saver.Valid, Sound, Without, NamedCopies, Names, Did, DoomedBy, Doomable, Unnamed, Invalidate, Takes;
      SoundFields(memory);
      InvalidateIsSound(memory, what);
      InvalidationTakes(memory, what);
      dropped := DropNamed(what);
      refused := SweepRefusals(refused, what);
      flights := DoomFlights(flights, inflight, what);
      DoomedIs(memory, flights, what);
      UnnamedIs(memory, what);
      InvalidateFields(memory, what);
      clock := clock + 1;
      memory := Invalidate(memory, what);
    }

    /** `invalidatePath`: the operator's spelling, in the one keys are stored in. */
    method InvalidatePath(spelling: string) returns (dropped: nat)
      requires Valid()
      modifies this, cache, saver
      ensures Valid() && memory == Invalidate(old(memory), ByPath(RevalidatePath(spelling)))
      ensures Takes(old(memory), memory, ByPath(RevalidatePath(spelling)))
      ensures dropped == |old(cache.order)| - |cache.order|
    {
      hide PageCache.Valid, Saver.Valid, Sound, Invalidate, Takes, RevalidatePath;
      dropped := InvalidateNamed(ByPath(RevalidatePath(spelling)));
    }
  }
}
