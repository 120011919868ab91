/**
 What every section and every file operation keeps of the page cache's saves (isr.go).

 A generation in force is the cached copy's, scratch files hold what their save wrote, a meta on
 disk is one that was saved, and a pair not at large is the cached key's and current.
 */
module IsrSaves {
  import opened IsrDisk
  import opened IsrFreshness
  import opened IsrMemory
  import opened PageCache
  import opened Wrappers

  // ---- what every step keeps -----------------------------------------------------

  /** A generation in force belongs to the copy now in the cache. */
  ghost predicate GensSound(cache: seq<CacheItem>, d: Disk, build: string) {
    && (forall k :: k in d.saveGen ==>
          && d.saveGen[k] in d.saves && d.saves[d.saveGen[k]].item.key == k
          && Find(cache, k) == Some(d.saves[d.saveGen[k]].item.entry))
    && SavedSound(d, build)
  }

  ghost predicate SavedSound(d: Disk, build: string) {
    forall g :: g in d.saves ==>
      && g <= d.lastGen
      && SavedCopy(build, CacheItem(d.saves[g].item.key, Rounded(d.saves[g].item.entry))) in d.saved
  }

  /** A save's scratch files hold what it wrote, until they are renamed under the lock. */
  ghost predicate ScratchOf(d: Disk, g: nat, build: string)
    requires g in d.saves
  {
    var save := d.saves[g];
    && (save.phase in {BodyWritten, MetaWritten, Landing} ==>
          TmpBody(g) in d.files && d.files[TmpBody(g)] == Body(save.item.entry.body))
    && (save.phase in {MetaWritten, Landing, BodyLanded} ==>
          TmpMeta(g) in d.files && d.files[TmpMeta(g)] == Meta(MetaOf(save.item, build)))
    && (save.phase in {Landing, BodyLanded} <==> d.landing == Some(g))
    && (d.landing == Some(g) ==> Current(d, g))
  }

  ghost predicate ScratchSound(d: Disk, build: string) {
    && (forall g :: g in d.saves ==> ScratchOf(d, g, build))
    && (d.landing.Some? ==> d.landing.value in d.saves)
  }

  /** The meta of a key is one a save of that key wrote, in this build unless the boot could not read it. */
  ghost predicate MetasSound(d: Disk, build: string) {
    forall k :: MetaName(k) in d.files && d.files[MetaName(k)].Meta? ==>
      MetaSound(d.files[MetaName(k)].meta, k, d.saved) && (k in d.unread || d.files[MetaName(k)].meta.build == build)
  }

  ghost predicate MetaSound(meta: SavedMeta, k: string, saved: set<SavedCopy>) {
    meta.key == k && SavedCopy(meta.build, CopyOf(meta)) in saved && meta == MetaOf(CopyOf(meta), meta.build)
  }

  /** The meta of a key whose pair is not at large is of a cached key, and current. */
  ghost predicate PairsSound(m: Memory, d: Disk) {
    forall k :: MetaName(k) in d.files && d.files[MetaName(k)].Meta? ==>
      AtLarge(d, k) || StillGood(m, CopyOf(d.files[MetaName(k)].meta))
  }

  ghost predicate StillGood(m: Memory, item: CacheItem) {
    Find(m.cache, item.key).Some? && NewerThan(m.invalidations, item.key, item.entry.tags, item.entry.flight)
  }

  /** A key's tags are its page's, in the build that runs and in the one it was saved by. */
  ghost predicate TagsSound(cfg: Config, m: Memory, build: string, saved: set<SavedCopy>) {
    && CacheTags(cfg, m.cache, build)
    && FlightTags(cfg, m.flights, build)
    && (forall c :: c in saved ==> c.item.entry.tags == cfg.tagsOf(c.build, c.item.key))
  }

  predicate CacheTags(cfg: Config, cache: seq<CacheItem>, build: string) {
    forall item :: item in cache ==> item.entry.tags == cfg.tagsOf(build, item.key)
  }

  predicate FlightTags(cfg: Config, flights: map<nat, Flight>, build: string) {
    forall id :: id in flights ==> flights[id].tags == cfg.tagsOf(build, flights[id].key)
  }

  /** Only what was rendered before an invalidation can have outlived it. */
  predicate OutlivedSound(log: set<Invalidation>) {
    forall v, f :: v in log && f in v.outlived ==> f.flight <= v.at
  }

  ghost predicate SystemSound(cfg: Config, s: System) {
    && Sound(s.m) && OutlivedSound(s.m.invalidations)
    && TagsSound(cfg, s.m, s.build, s.d.saved)
    && GensSound(s.m.cache, s.d, s.build)
    && ScratchSound(s.d, s.build)
    && MetasSound(s.d, s.build)
    && PairsSound(s.m, s.d)
  }

  // ---- a step of the disk ----------------------------------------------------------

  /** A step of the disk moves phases and files; generations, copies and history stay. */
  ghost predicate SameSaves(d: Disk, d': Disk) {
    && d'.saveGen == d.saveGen && d'.lastGen == d.lastGen && d'.saved == d.saved
    && d'.saves.Keys == d.saves.Keys
    && forall g :: g in d.saves ==> d'.saves[g].item == d.saves[g].item
  }

  ghost predicate SameFile(files: map<FileName, File>, files': map<FileName, File>, name: FileName) {
    name in files ==> name in files' && files'[name] == files[name]
  }

  /** Of the saves and their scratch files, nothing but those of `g` is touched. */
  ghost predicate OnlySave(d: Disk, d': Disk, g: nat) {
    && g in d.saves && SameSaves(d, d')
    && (forall other :: other in d.saves && other != g ==>
          && d'.saves[other] == d.saves[other]
          && SameFile(d.files, d'.files, TmpBody(other)) && SameFile(d.files, d'.files, TmpMeta(other)))
    && (d'.landing == d.landing || (d'.landing.None? && d.landing == Some(g)) || (d'.landing == Some(g) && d.landing.None?))
  }

  lemma OnlySaveKeepsScratch(d: Disk, d': Disk, g: nat, build: string)
    requires ScratchSound(d, build) && OnlySave(d, d', g) && ScratchOf(d', g, build)
    ensures SameSaves(d, d') && ScratchSound(d', build)
  {
    forall other | other in d'.saves && other != g ensures ScratchOf(d', other, build) {
      assert ScratchOf(d, other, build);
      hide ScratchSound, MetaOf;
    }
  }

  /** The lock is taken by `g`, let go by `g`, or stays with whom it is. */
  predicate LockMoves(from: Option<nat>, to: Option<nat>, g: nat) {
    to == from || (to.None? && from == Some(g)) || (to == Some(g) && from.None?)
  }

  lemma AdvanceIsOnlySave(d: Disk, g: nat, phase: SavePhase, files: map<FileName, File>, landing: Option<nat>)
    requires g in d.saves && LockMoves(d.landing, landing, g)
    requires forall other: nat :: other != g ==>
               SameFile(d.files, files, TmpBody(other)) && SameFile(d.files, files, TmpMeta(other))
    ensures OnlySave(d, Advance(d, g, phase).(files := files, landing := landing), g)
  {
    hide SameFile;
  }

  lemma AdvanceKeeps(d: Disk, g: nat, phase: SavePhase, files: map<FileName, File>, landing: Option<nat>, build: string)
    requires ScratchSound(d, build) && g in d.saves && LockMoves(d.landing, landing, g)
    requires forall other: nat :: other != g ==>
               SameFile(d.files, files, TmpBody(other)) && SameFile(d.files, files, TmpMeta(other))
    requires ScratchOf(Advance(d, g, phase).(files := files, landing := landing), g, build)
    ensures var d' := Advance(d, g, phase).(files := files, landing := landing);
            SameSaves(d, d') && ScratchSound(d', build)
  {
    hide SameFile, ScratchOf, ScratchSound, OnlySave;
    AdvanceIsOnlySave(d, g, phase, files, landing);
    OnlySaveKeepsScratch(d, Advance(d, g, phase).(files := files, landing := landing), g, build);
  }

  lemma WriteKeeps(build: string, d: Disk, a: DiskAction)
    requires ScratchSound(d, build) && DiskEnabled(d, a) && (a.WriteBody? || a.WriteMeta? || a.RemoveScratch?)
    ensures SameSaves(d, DiskStep(build, d, a)) && ScratchSound(DiskStep(build, d, a), build)
  {
    var d' := DiskStep(build, d, a);
    assert ScratchOf(d, a.g, build);
    hide MetaOf, ScratchSound, SameSaves;
    assert d' == Advance(d, a.g, d'.saves[a.g].phase).(files := d'.files, landing := d'.landing);
    assert ScratchOf(d', a.g, build);
    hide ScratchOf, DiskStep;
    AdvanceKeeps(d, a.g, d'.saves[a.g].phase, d'.files, d'.landing, build);
  }

  lemma DecideKeeps(build: string, d: Disk, g: nat)
    requires ScratchSound(d, build) && DiskEnabled(d, Decide(g))
    ensures SameSaves(d, DiskStep(build, d, Decide(g))) && ScratchSound(DiskStep(build, d, Decide(g)), build)
  {
    var d' := DiskStep(build, d, Decide(g));
    assert ScratchOf(d, g, build);
    hide MetaOf, ScratchSound, SameSaves;
    assert ScratchOf(d', g, build);
    hide ScratchOf, DiskStep;
    AdvanceKeeps(d, g, d'.saves[g].phase, d'.files, d'.landing, build);
  }

  lemma LandBodyKeeps(build: string, d: Disk, g: nat, ok: bool)
    requires ScratchSound(d, build) && DiskEnabled(d, LandBody(g, ok))
    ensures SameSaves(d, DiskStep(build, d, LandBody(g, ok))) && ScratchSound(DiskStep(build, d, LandBody(g, ok)), build)
  {
    var d' := DiskStep(build, d, LandBody(g, ok));
    assert ScratchOf(d, g, build);
    hide MetaOf, ScratchSound, SameSaves;
    assert d' == Advance(d, g, d'.saves[g].phase).(files := d'.files, landing := d'.landing);
    assert ScratchOf(d', g, build);
    hide ScratchOf, DiskStep;
    AdvanceKeeps(d, g, d'.saves[g].phase, d'.files, d'.landing, build);
  }

  lemma LandMetaKeeps(build: string, d: Disk, g: nat, ok: bool)
    requires ScratchSound(d, build) && DiskEnabled(d, LandMeta(g, ok))
    ensures SameSaves(d, DiskStep(build, d, LandMeta(g, ok))) && ScratchSound(DiskStep(build, d, LandMeta(g, ok)), build)
  {
    var d' := DiskStep(build, d, LandMeta(g, ok));
    var moved := d'.(unread := d.unread);
    assert ScratchOf(d, g, build);
    hide MetaOf, ScratchSound, SameSaves;
    assert moved == Advance(d, g, d'.saves[g].phase).(files := d'.files, landing := d'.landing);
    assert ScratchOf(moved, g, build);
    hide ScratchOf, DiskStep;
    AdvanceKeeps(d, g, d'.saves[g].phase, d'.files, d'.landing, build);
    UnreadIsApart(d, moved, d'.unread, build);
  }

  lemma UnreadIsApart(d: Disk, d': Disk, unread: set<string>, build: string)
    requires SameSaves(d, d') && ScratchSound(d', build)
    ensures SameSaves(d, d'.(unread := unread)) && ScratchSound(d'.(unread := unread), build)
  {
    hide MetaOf;
    forall g | g in d'.saves ensures ScratchOf(d'.(unread := unread), g, build) {
      assert ScratchOf(d', g, build);
    }
  }

  lemma SweepingKeeps(build: string, d: Disk, a: DiskAction)
    requires ScratchSound(d, build) && DiskEnabled(d, a) && (a.TakeSweep? || a.SweepBody? || a.SweepMeta?)
    ensures SameSaves(d, DiskStep(build, d, a)) && ScratchSound(DiskStep(build, d, a), build)
  {
    hide MetaOf;
    var d' := DiskStep(build, d, a);
    forall g | g in d'.saves ensures ScratchOf(d', g, build) {
      assert ScratchOf(d, g, build);
      hide ScratchSound;
    }
  }

  lemma DiskStepKeepsSaves(build: string, d: Disk, a: DiskAction)
    requires ScratchSound(d, build) && DiskEnabled(d, a)
    ensures SameSaves(d, DiskStep(build, d, a)) && ScratchSound(DiskStep(build, d, a), build)
  {
    hide ScratchSound, DiskStep, DiskEnabled, SameSaves;
    match a
    case WriteBody(_, _) => WriteKeeps(build, d, a);
    case WriteMeta(_, _) => WriteKeeps(build, d, a);
    case RemoveScratch(_, _) => WriteKeeps(build, d, a);
    case Decide(g) => DecideKeeps(build, d, g);
    case LandBody(g, ok) => LandBodyKeeps(build, d, g, ok);
    case LandMeta(g, ok) => LandMetaKeeps(build, d, g, ok);
    case _ => SweepingKeeps(build, d, a);
  }

  lemma SameSavesKeepGens(cache: seq<CacheItem>, d: Disk, d': Disk, build: string)
    requires SameSaves(d, d') && GensSound(cache, d, build)
    ensures GensSound(cache, d', build)
  {
  }

  // ---- the metas on disk -----------------------------------------------------------

  /** The save whose meta lands in this step. */
  predicate Lands(a: DiskAction) {
    a.LandMeta? && a.ok
  }

  predicate LandsKey(d: Disk, a: DiskAction, k: string)
    requires Lands(a)
  {
    a.g in d.saves && d.saves[a.g].item.key == k
  }

  /** A meta is there because it was, or because its save has just landed. */
  lemma MetaWasThere(build: string, d: Disk, a: DiskAction, k: string)
    requires DiskEnabled(d, a) && MetaName(k) in DiskStep(build, d, a).files
    requires !(Lands(a) && LandsKey(d, a, k))
    ensures MetaName(k) in d.files && d.files[MetaName(k)] == DiskStep(build, d, a).files[MetaName(k)]
    ensures k in DiskStep(build, d, a).unread <==> k in d.unread
  {
    hide MetaOf, Current;
  }

  lemma LandedMeta(build: string, d: Disk, a: DiskAction)
    requires ScratchSound(d, build) && DiskEnabled(d, a) && Lands(a)
    ensures MetaName(d.saves[a.g].item.key) in DiskStep(build, d, a).files
    ensures DiskStep(build, d, a).files[MetaName(d.saves[a.g].item.key)] == Meta(MetaOf(d.saves[a.g].item, build))
    ensures d.landing == Some(a.g)
  {
    assert ScratchOf(d, a.g, build);
    hide MetaOf, Current, ScratchSound;
  }

  lemma MetaKeepsItem(item: CacheItem, build: string)
    ensures CopyOf(MetaOf(item, build)) == CacheItem(item.key, Rounded(item.entry))
    ensures MetaOf(item, build) == MetaOf(CopyOf(MetaOf(item, build)), build)
  {
  }

  lemma DiskStepKeepsMetas(build: string, cache: seq<CacheItem>, d: Disk, a: DiskAction)
    requires ScratchSound(d, build) && GensSound(cache, d, build) && MetasSound(d, build) && DiskEnabled(d, a)
    ensures MetasSound(DiskStep(build, d, a), build)
  {
    hide DiskStep, ScratchSound, SameSaves, MetaOf, CopyOf;
    DiskStepKeepsSaves(build, d, a);
    var d' := DiskStep(build, d, a);
    assert d'.saved == d.saved by {
      assert SameSaves(d, d');
      SameSavesKeepSaved(d, d');
    }
    forall k | MetaName(k) in d'.files && d'.files[MetaName(k)].Meta?
      ensures MetaSound(d'.files[MetaName(k)].meta, k, d.saved)
      ensures k in d'.unread || d'.files[MetaName(k)].meta.build == build
    {
      if Lands(a) && LandsKey(d, a, k) {
        LandedMeta(build, d, a);
        MetaKeepsItem(d.saves[a.g].item, build);
        MetaKey(d.saves[a.g].item, build);
      } else {
        MetaWasThere(build, d, a, k);
      }
    }
  }

  lemma SameSavesKeepSaved(d: Disk, d': Disk)
    requires SameSaves(d, d')
    ensures d'.saved == d.saved
  {
  }

  lemma MetaKey(item: CacheItem, build: string)
    ensures MetaOf(item, build).key == item.key && MetaOf(item, build).build == build
  {
  }

  /** The copy a landing save wrote is the one in the cache. */
  lemma LandingIsGood(cfg: Config, s: System, g: nat)
    requires SystemSound(cfg, s) && g in s.d.saves && s.d.landing == Some(g)
    ensures StillGood(s.m, s.d.saves[g].item)
  {
    assert ScratchOf(s.d, g, s.build);
    hide Names, NewerThan, TagsSound, MetasSound, PairsSound, ScratchSound, MetaOf;
    var item := s.d.saves[g].item;
    assert Find(s.m.cache, item.key) == Some(item.entry);
    assert CacheItem(item.key, item.entry) in s.m.cache;
  }

  /** A sweep is handed on until the meta is gone. */
  lemma SweepStaysPending(build: string, d: Disk, a: DiskAction, k: string)
    requires DiskEnabled(d, a) && PendingSweep(d, k) && MetaName(k) in DiskStep(build, d, a).files
    ensures PendingSweep(DiskStep(build, d, a), k)
  {
    hide MetaOf, Current;
    match a
    case TakeSweep(id) => TakenStaysPending(build, d, id, k);
    case SweepBody(id, key) => HeldStaysPending(build, d, a, k);
    case SweepMeta(id) => HeldStaysPending(build, d, a, k);
    case _ => assert DiskStep(build, d, a).drains == d.drains && DiskStep(build, d, a).sweep == d.sweep;
  }

  lemma TakenStaysPending(build: string, d: Disk, id: nat, k: string)
    requires DiskEnabled(d, TakeSweep(id)) && PendingSweep(d, k)
    ensures PendingSweep(DiskStep(build, d, TakeSweep(id)), k)
  {
    var d' := DiskStep(build, d, TakeSweep(id));
    if k in d.sweep {
      assert k in d'.drains[id].todo;
    } else {
      var held :| held in d.drains && k in d.drains[held].todo;
      assert k in d'.drains[held].todo;
    }
  }

  lemma HeldStaysPending(build: string, d: Disk, a: DiskAction, k: string)
    requires DiskEnabled(d, a) && (a.SweepBody? || a.SweepMeta?) && PendingSweep(d, k)
    requires MetaName(k) in DiskStep(build, d, a).files
    ensures PendingSweep(DiskStep(build, d, a), k)
  {
    var d' := DiskStep(build, d, a);
    if k !in d.sweep {
      var held :| held in d.drains && k in d.drains[held].todo;
      assert k in d'.drains[held].todo;
    }
  }

  lemma DiskStepKeepsPairs(cfg: Config, s: System, a: DiskAction)
    requires SystemSound(cfg, s) && DiskEnabled(s.d, a)
    ensures PairsSound(s.m, DiskStep(s.build, s.d, a))
  {
    hide DiskStep, DiskEnabled, Sound, TagsSound, GensSound, ScratchSound, MetasSound, StillGood, PendingSweep, MetaOf, CopyOf;
    var d' := DiskStep(s.build, s.d, a);
    forall k | MetaName(k) in d'.files && d'.files[MetaName(k)].Meta?
      ensures AtLarge(d', k) || StillGood(s.m, CopyOf(d'.files[MetaName(k)].meta))
    {
      if Lands(a) && LandsKey(s.d, a, k) {
        LandedMeta(s.build, s.d, a);
        LandingIsGood(cfg, s, a.g);
        RoundedIsGood(s.m, s.d.saves[a.g].item, s.build);
      } else {
        MetaWasThere(s.build, s.d, a, k);
        if PendingSweep(s.d, k) {
          SweepStaysPending(s.build, s.d, a, k);
        }
      }
    }
  }

  lemma RoundedIsGood(m: Memory, item: CacheItem, build: string)
    requires StillGood(m, item)
    ensures StillGood(m, CopyOf(MetaOf(item, build)))
  {
  }

  lemma OnDiskIsSound(cfg: Config, s: System, a: DiskAction)
    requires SystemSound(cfg, s) && DiskEnabled(s.d, a)
    ensures SystemSound(cfg, System(s.m, DiskStep(s.build, s.d, a), s.build))
  {
    hide DiskStep, DiskEnabled, Sound, GensSound, ScratchSound, MetasSound, PairsSound;
    DiskStepKeepsSaves(s.build, s.d, a);
    SameSavesKeepGens(s.m.cache, s.d, DiskStep(s.build, s.d, a), s.build);
    DiskStepKeepsMetas(s.build, s.m.cache, s.d, a);
    DiskStepKeepsPairs(cfg, s, a);
  }

  // ---- a section under the lock ------------------------------------------------------

  /** What a section does to the cache is what it tells the disk. */
  ghost predicate Told(cache: seq<CacheItem>, cache': seq<CacheItem>, e: Effect) {
    && (forall k :: k !in e.drops && !(e.saved.Some? && e.saved.value.key == k) ==> Find(cache', k) == Find(cache, k))
    && (e.saved.Some? ==>
          Find(cache', e.saved.value.key) == Some(e.saved.value.entry) && e.saved.value.key !in e.drops)
  }

  lemma FindIs(items: seq<CacheItem>, item: CacheItem)
    requires DistinctKeys(items) && item in items
    ensures Find(items, item.key) == Some(item.entry)
  {
    var entry := Find(items, item.key).value;
    assert CacheItem(item.key, entry) in items;
  }

  /** Two caches that hold the same copies of a key find the same. */
  lemma SameFind(a: seq<CacheItem>, b: seq<CacheItem>, k: string)
    requires DistinctKeys(a) && DistinctKeys(b)
    requires forall item: CacheItem :: item.key == k ==> (item in a <==> item in b)
    ensures Find(a, k) == Find(b, k)
  {
    if Find(a, k).Some? {
      FindIs(b, CacheItem(k, Find(a, k).value));
    } else if Find(b, k).Some? {
      FindIs(a, CacheItem(k, Find(b, k).value));
    }
  }

  lemma PutFinds(cache: seq<CacheItem>, key: string, page: CachedPage, k: string)
    requires DistinctKeys(cache)
    ensures DistinctKeys(Put(cache, key, page))
    ensures Find(Put(cache, key, page), k) == if k == key then Some(page) else Find(cache, k)
  {
    PutDistinct(cache, key, page);
    var put := Put(cache, key, page);
    if k == key {
      assert put[|put| - 1] == CacheItem(key, page);
      FindIs(put, CacheItem(key, page));
    } else {
      assert forall item :: item in put <==> item in Without(cache, {key}) || item == CacheItem(key, page);
      SameFind(put, cache, k);
    }
  }

  lemma WithoutFinds(cache: seq<CacheItem>, gone: set<string>, k: string)
    requires DistinctKeys(cache) && k !in gone
    ensures Find(Without(cache, gone), k) == Find(cache, k)
  {
    SameFind(Without(cache, gone), cache, k);
  }

  lemma NewestFinds(items: seq<CacheItem>, k: string)
    requires DistinctKeys(items)
    ensures k !in KeySeq(Evicted(items)) ==> Find(Newest(items), k) == Find(items, k)
    ensures items != [] && k == items[|items| - 1].key ==> k !in KeySeq(Evicted(items))
  {
    var kept, gone := Newest(items), Evicted(items);
    assert items == gone + kept;
    if k !in KeySeq(gone) {
      forall item: CacheItem | item.key == k && item in items ensures item in kept {
        assert item in gone ==> item.key in KeySeq(gone);
      }
      SameFind(kept, items, k);
    }
  }

  lemma FinishIsTold(m: Memory, id: nat, verdict: IsrMemory.Verdict, now: int, victim: Option<string>)
    requires DistinctKeys(m.cache) && CanFinish(m, id, verdict, now, victim)
    ensures Told(m.cache, Finish(m, id, verdict, now, victim).cache, FinishEffect(m, id, verdict))
  {
    hide Find, Put, Without, Newest, Evicted, KeySeq, DistinctKeys, TrimVictim, Trim;
    var key := m.flights[id].key;
    if !m.flights[id].doomed && verdict.Rendered? {
      StoreIsTold(m.cache, key, verdict.page);
    } else if !m.flights[id].doomed && verdict.Unstorable? {
      RemoveIsTold(m.cache, key);
    }
  }

  lemma StoreIsTold(cache: seq<CacheItem>, key: string, page: CachedPage)
    requires DistinctKeys(cache)
    ensures Told(cache, Newest(Put(cache, key, page)),
                 Effect(multiset(KeySeq(Evicted(Put(cache, key, page)))), Some(CacheItem(key, page))))
  {
    PutFinds(cache, key, page, key);
    var put := Put(cache, key, page);
    assert put[|put| - 1] == CacheItem(key, page);
    hide Find, Put, Without, Newest, Evicted, KeySeq, DistinctKeys;
    NewestFinds(put, key);
    forall k | k !in KeySeq(Evicted(put)) && k != key ensures Find(Newest(put), k) == Find(cache, k) {
      NewestFinds(put, k);
      PutFinds(cache, key, page, k);
    }
  }

  lemma RemoveIsTold(cache: seq<CacheItem>, key: string)
    requires DistinctKeys(cache)
    ensures Told(cache, Without(cache, {key}),
                 Effect(if Find(cache, key).Some? then multiset{key} else multiset{}, None))
  {
    hide Find, Without, DistinctKeys;
    if Find(cache, key).None? {
      NotFoundNotRemoved(cache, key);
    }
    forall k | k != key ensures Find(Without(cache, {key}), k) == Find(cache, k) {
      WithoutFinds(cache, {key}, k);
    }
  }

  lemma InvalidateIsTold(cache: seq<CacheItem>, gone: set<string>)
    requires DistinctKeys(cache)
    ensures Told(cache, Without(cache, gone), Effect(multiset(gone), None))
  {
    hide Find, Without, DistinctKeys;
    forall k | k !in gone ensures Find(Without(cache, gone), k) == Find(cache, k) {
      WithoutFinds(cache, gone, k);
    }
  }

  lemma TouchIsTold(cache: seq<CacheItem>, key: string)
    requires DistinctKeys(cache) && Find(cache, key).Some?
    ensures Told(cache, Put(cache, key, Find(cache, key).value), NO_EFFECT)
  {
    hide Find, Put, DistinctKeys;
    var page := Find(cache, key).value;
    forall k ensures Find(Put(cache, key, page), k) == Find(cache, k) {
      PutFinds(cache, key, page, k);
    }
  }

  lemma StepIsTold(m: Memory, a: Action)
    requires DistinctKeys(m.cache) && Enabled(m, a)
    ensures Told(m.cache, Step(m, a).cache, EffectOf(m, a))
  {
    hide Find, Put, Without, DistinctKeys, Finish, FinishEffect, CanFinish, CanCleanUp, CanDeliver, Held, Fresh, NamedCopies;
    match a
    case HandleRequest(key, policy, now) =>
      if Find(m.cache, key).Some? {
        TouchIsTold(m.cache, key);
      }
    case FinishRender(id, verdict, now, victim) => FinishIsTold(m, id, verdict, now, victim);
    case CleanUpFlight(_) =>
    case DeliverResult(_) =>
    case InvalidateTarget(what) => InvalidateIsTold(m.cache, NamedCopies(m.cache, what));
  }

  // ---- what such a section does to the saves -------------------------------------------

  /** The generations in force, but for one key. */
  ghost predicate GensBut(cache: seq<CacheItem>, d: Disk, but: Option<string>) {
    forall k :: k in d.saveGen && but != Some(k) ==>
      && d.saveGen[k] in d.saves && d.saves[d.saveGen[k]].item.key == k
      && Find(cache, k) == Some(d.saves[d.saveGen[k]].item.entry)
  }

  lemma ForgetKeepsGens(cache: seq<CacheItem>, cache': seq<CacheItem>, d: Disk, e: Effect, build: string)
    requires GensSound(cache, d, build) && Told(cache, cache', e)
    ensures GensBut(cache', Forget(d, e.drops), if e.saved.Some? then Some(e.saved.value.key) else None)
  {
    hide Find, Rounded;
  }

  lemma BeginSaveKeepsGens(cache: seq<CacheItem>, d: Disk, item: CacheItem, build: string)
    requires GensBut(cache, d, Some(item.key)) && Find(cache, item.key) == Some(item.entry)
    requires forall g :: g in d.saves ==> g <= d.lastGen
    ensures GensBut(cache, BeginSave(d, item, build), None)
  {
    hide Find, Rounded;
    forall k | k in d.saveGen && k != item.key ensures d.saveGen[k] in d.saves && d.saveGen[k] != d.lastGen + 1 {
    }
  }

  lemma ApplyKeepsGens(cache: seq<CacheItem>, cache': seq<CacheItem>, d: Disk, e: Effect, build: string)
    requires GensSound(cache, d, build) && Told(cache, cache', e)
    ensures GensSound(cache', Apply(d, e, build), build)
  {
    hide Find, Rounded, BeginSave, GensBut;
    ForgetKeepsGens(cache, cache', d, e, build);
    var d' := Forget(d, e.drops);
    if e.saved.Some? {
      BeginSaveKeepsGens(cache', d', e.saved.value, build);
      BeginSaveKeepsSaved(d', e.saved.value, build);
    }
    GensButNone(cache', Apply(d, e, build), build);
  }

  lemma BeginSaveKeepsSaved(d: Disk, item: CacheItem, build: string)
    requires SavedSound(d, build)
    ensures SavedSound(BeginSave(d, item, build), build)
  {
    hide Rounded;
  }

  lemma GensButNone(cache: seq<CacheItem>, d: Disk, build: string)
    requires GensBut(cache, d, None) && SavedSound(d, build)
    ensures GensSound(cache, d, build)
  {
    hide Find, Rounded;
  }

  lemma ApplyKeepsScratch(cache: seq<CacheItem>, d: Disk, e: Effect, build: string)
    requires ScratchSound(d, build) && GensSound(cache, d, build) && d.landing.None?
    ensures ScratchSound(Apply(d, e, build), build)
  {
    hide MetaOf, GensSound;
    var d' := Apply(d, e, build);
    forall g | g in d'.saves ensures ScratchOf(d', g, build) {
      if g in d.saves {
        assert ScratchOf(d, g, build);
      }
    }
  }

  lemma ApplyKeepsMetas(d: Disk, e: Effect, build: string)
    requires MetasSound(d, build)
    ensures MetasSound(Apply(d, e, build), build)
  {
    hide MetaOf, CopyOf;
  }

  lemma StaysPending(d: Disk, e: Effect, build: string, k: string)
    requires PendingSweep(d, k) || k in e.drops
    ensures PendingSweep(Apply(d, e, build), k)
  {
    if !(k in d.sweep || k in e.drops) {
      var id :| id in d.drains && k in d.drains[id].todo;
      assert id in Apply(d, e, build).drains;
    }
  }

  /** A copy that is not dropped stays good: an invalidation that names it would have dropped it. */
  lemma StaysGood(cfg: Config, build: string, m: Memory, a: Action, item: CacheItem)
    requires Sound(m) && Enabled(m, a) && StillGood(m, item)
    requires item.entry.tags == cfg.tagsOf(build, item.key) && Find(m.cache, item.key).value.tags == cfg.tagsOf(build, item.key)
    requires item.key !in EffectOf(m, a).drops
    ensures StillGood(Step(m, a), item)
  {
    hide Sound, Find, NewerThan, Names, Finish, Handle, CanFinish, Invalidate;
    StepIsTold(m, a) by { assert Sound(m); SoundIsDistinct(m); }
    if a.InvalidateTarget? {
      InvalidateSpares(m, a.what, item);
    } else {
      StepLogs(m, a);
    }
  }

  lemma SoundIsDistinct(m: Memory)
    requires Sound(m)
    ensures DistinctKeys(m.cache) && ClockSound(m)
  {
  }

  lemma InvalidateSpares(m: Memory, what: Target, item: CacheItem)
    requires Sound(m) && Find(m.cache, item.key).Some?
    requires NewerThan(m.invalidations, item.key, item.entry.tags, item.entry.flight)
    requires Find(m.cache, item.key).value.tags == item.entry.tags
    requires item.key !in NamedCopies(m.cache, what)
    ensures NewerThan(Invalidate(m, what).invalidations, item.key, item.entry.tags, item.entry.flight)
  {
    hide Names, NewerThan, NamedCopies, Sound, Find;
    SoundIsDistinct(m);
    var held := CacheItem(item.key, Find(m.cache, item.key).value);
    assert held in m.cache;
    NamedAreNamed(m.cache, what);
    LogGrows(m, what);
  }

  lemma UnderLockKeepsPairs(cfg: Config, s: System, a: Action)
    requires SystemSound(cfg, s) && Enabled(s.m, a)
    ensures PairsSound(Step(s.m, a), Apply(s.d, EffectOf(s.m, a), s.build))
  {
    hide Sound, ScratchSound, GensSound, PendingSweep, StillGood, Step, EffectOf, Enabled, MetaOf, CopyOf, Apply;
    var e := EffectOf(s.m, a);
    var d' := Apply(s.d, e, s.build);
    ApplyKeepsFiles(s.d, e, s.build);
    forall k | MetaName(k) in d'.files && d'.files[MetaName(k)].Meta?
      ensures AtLarge(d', k) || StillGood(Step(s.m, a), CopyOf(d'.files[MetaName(k)].meta))
    {
      if PendingSweep(s.d, k) || k in e.drops {
        StaysPending(s.d, e, s.build, k);
      } else if k !in s.d.unread {
        var copy := CopyOf(d'.files[MetaName(k)].meta);
        CopyHasKey(d'.files[MetaName(k)].meta);
        CachedHasTags(cfg, s, copy);
        StaysGood(cfg, s.build, s.m, a, copy);
      }
    }
  }

  lemma ApplyKeepsFiles(d: Disk, e: Effect, build: string)
    ensures Apply(d, e, build).files == d.files && Apply(d, e, build).unread == d.unread
  {
  }

  lemma CopyHasKey(meta: SavedMeta)
    ensures CopyOf(meta).key == meta.key
  {
  }

  lemma CachedHasTags(cfg: Config, s: System, copy: CacheItem)
    requires TagsSound(cfg, s.m, s.build, s.d.saved) && SavedCopy(s.build, copy) in s.d.saved && StillGood(s.m, copy)
    ensures Find(s.m.cache, copy.key).Some? && Find(s.m.cache, copy.key).value.tags == cfg.tagsOf(s.build, copy.key)
    ensures copy.entry.tags == cfg.tagsOf(s.build, copy.key)
  {
    assert CacheItem(copy.key, Find(s.m.cache, copy.key).value) in s.m.cache;
  }

  // ---- tags do not change ------------------------------------------------------------

  lemma HandleKeepsTags(cfg: Config, build: string, m: Memory, key: string, policy: Policy, now: int)
    requires CacheTags(cfg, m.cache, build) && FlightTags(cfg, m.flights, build) && policy.tags == cfg.tagsOf(build, key)
    ensures CacheTags(cfg, Handle(m, key, policy, now).cache, build) && FlightTags(cfg, Handle(m, key, policy, now).flights, build)
  {
    hide Held, Fresh, Find, Put;
    if Find(m.cache, key).Some? {
      FoundIsHeld(m.cache, key);
    }
  }

  lemma FinishKeepsTags(cfg: Config, build: string, m: Memory, id: nat, verdict: IsrMemory.Verdict, now: int, victim: Option<string>)
    requires CacheTags(cfg, m.cache, build) && FlightTags(cfg, m.flights, build) && CanFinish(m, id, verdict, now, victim)
    ensures CacheTags(cfg, Finish(m, id, verdict, now, victim).cache, build)
    ensures FlightTags(cfg, Finish(m, id, verdict, now, victim).flights, build)
    ensures FinishEffect(m, id, verdict).saved.Some? ==>
              var item := FinishEffect(m, id, verdict).saved.value; item.entry.tags == cfg.tagsOf(build, item.key)
  {
    hide Put, Newest, Evicted, TrimVictim, Trim, KeySeq, Find;
    if verdict.Rendered? {
      StoredIsHeldOrNew(m.cache, m.flights[id].key, verdict.page);
    }
  }

  lemma StepKeepsTags(cfg: Config, build: string, m: Memory, a: Action)
    requires CacheTags(cfg, m.cache, build) && FlightTags(cfg, m.flights, build) && Enabled(m, a)
    requires a.HandleRequest? ==> a.policy.tags == cfg.tagsOf(build, a.key)
    ensures CacheTags(cfg, Step(m, a).cache, build) && FlightTags(cfg, Step(m, a).flights, build)
    ensures EffectOf(m, a).saved.Some? ==>
              var item := EffectOf(m, a).saved.value; item.entry.tags == cfg.tagsOf(build, item.key)
  {
    hide Handle, Finish, FinishEffect, CanFinish, NamedCopies, Names;
    match a
    case HandleRequest(key, policy, now) => HandleKeepsTags(cfg, build, m, key, policy, now);
    case FinishRender(id, verdict, now, victim) => FinishKeepsTags(cfg, build, m, id, verdict, now, victim);
    case _ =>
  }

  lemma UnderLockKeepsTags(cfg: Config, s: System, a: Action)
    requires TagsSound(cfg, s.m, s.build, s.d.saved) && Enabled(s.m, a)
    requires a.HandleRequest? ==> a.policy.tags == cfg.tagsOf(s.build, a.key)
    ensures TagsSound(cfg, Step(s.m, a), s.build, Apply(s.d, EffectOf(s.m, a), s.build).saved)
  {
    hide Step, Enabled, EffectOf;
    StepKeepsTags(cfg, s.build, s.m, a);
  }

  lemma StepKeepsOutlived(m: Memory, a: Action)
    requires Enabled(m, a) && OutlivedSound(m.invalidations)
    ensures OutlivedSound(Step(m, a).invalidations)
  {
    hide Step, Enabled;
    StepLogs(m, a);
  }

  lemma UnderLockIsSound(cfg: Config, s: System, a: Action)
    requires SystemSound(cfg, s) && s.d.landing.None? && Enabled(s.m, a)
    requires a.HandleRequest? ==> a.policy.tags == cfg.tagsOf(s.build, a.key)
    ensures SystemSound(cfg, System(Step(s.m, a), Apply(s.d, EffectOf(s.m, a), s.build), s.build))
  {
    hide Step, Enabled, EffectOf, Apply, Sound, TagsSound, GensSound, ScratchSound, MetasSound, PairsSound, Told;
    var e := EffectOf(s.m, a);
    StepIsSound(s.m, a);
    SoundIsDistinct(s.m);
    StepIsTold(s.m, a);
    UnderLockKeepsTags(cfg, s, a);
    ApplyKeepsGens(s.m.cache, Step(s.m, a).cache, s.d, e, s.build);
    ApplyKeepsScratch(s.m.cache, s.d, e, s.build);
    ApplyKeepsMetas(s.d, e, s.build);
    StepKeepsOutlived(s.m, a);
    UnderLockKeepsPairs(cfg, s, a);
  }
}
