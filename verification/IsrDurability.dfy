/** What reaches the disk and what a boot can bring back, over every run with crashes in it. */
module IsrDurability {
  import opened IsrDisk
  import opened IsrFreshness
  import opened IsrMemory
  import opened IsrSaves
  import opened PageCache
  import opened Wrappers

  // ---- a boot --------------------------------------------------------------------------

  /** The pair of a key is one copy that was saved, by a process of this build. */
  ghost predicate SavedPair(files: map<FileName, File>, saved: set<SavedCopy>, build: string, k: string) {
    && MetaName(k) in files && files[MetaName(k)].Meta? && files[MetaName(k)].meta.key == k
    && SavedCopy(build, CopyOf(files[MetaName(k)].meta)) in saved
    && files[MetaName(k)].meta == MetaOf(CopyOf(files[MetaName(k)].meta), build)
  }

  /** A copy that is found was not invalidated since it was rendered, or its pair is at large. */
  ghost predicate Excused(s: System, item: CacheItem) {
    AtLarge(s.d, item.key) || NewerThan(s.m.invalidations, item.key, item.entry.tags, item.entry.flight)
  }

  /** What a boot of `build` asks of the files it finds. */
  ghost predicate PairsSaved(s: System, build: string, unread: set<string>) {
    && MayBeUnread(s.d.files, unread)
    && (forall k :: Loadable(s.d.files, k, build) ==> SavedPair(s.d.files, s.d.saved, build, k))
    && (forall k :: k in unread && s.d.files[MetaName(k)].Meta? ==> MetaSound(s.d.files[MetaName(k)].meta, k, s.d.saved))
  }

  /** What a boot of `build` asks of the state it starts from. */
  ghost predicate Bootable(cfg: Config, s: System, build: string, unread: set<string>, items: seq<CacheItem>) {
    && Found(s.d.files, build, unread, items) && PairsSaved(s, build, unread)
    && ClockSound(s.m) && OutlivedSound(s.m.invalidations) && AnswersSound(s.m.answers, s.m.invalidations)
    && (forall c :: c in s.d.saved ==> c.item.entry.tags == cfg.tagsOf(c.build, c.item.key))
    && (forall item :: item in items ==> Excused(s, item))
  }

  lemma LoadedIsCopy(files: map<FileName, File>, saved: set<SavedCopy>, build: string, key: string)
    requires Loadable(files, key, build) && SavedPair(files, saved, build, key)
    ensures CopyOf(files[MetaName(key)].meta) == CacheItem(key, ReadSaved(files, key, build).page)
    ensures SavedCopy(build, CacheItem(key, ReadSaved(files, key, build).page)) in saved
  {
  }

  lemma LoadableHasMeta(files: map<FileName, File>, key: string, build: string)
    requires Loadable(files, key, build)
    ensures MetaName(key) in files && files[MetaName(key)].Meta? && files[MetaName(key)].meta.build == build
    ensures BodyName(key) in files
  {
  }

  /** A pair that some build would load was saved by a process of it: the one that runs, unless its boot could not read it. */
  lemma LoadableIsSaved(cfg: Config, s: System, build: string, key: string)
    requires SystemSound(cfg, s) && Loadable(s.d.files, key, build)
    ensures build == s.build || key in s.d.unread
    ensures SavedPair(s.d.files, s.d.saved, build, key)
  {
    hide Sound, OutlivedSound, TagsSound, GensSound, ScratchSound, PairsSound, Loadable, CopyOf;
    LoadableHasMeta(s.d.files, key, build);
  }

  lemma LoadedIsFound(files: map<FileName, File>, build: string, unread: set<string>, items: seq<CacheItem>, key: string)
    requires Found(files, build, unread, items) && Loadable(files, key, build) && key !in unread
    ensures CacheItem(key, ReadSaved(files, key, build).page) in items
  {
    hide ReadSaved;
    var j :| 0 <= j < |items| && items[j].key == key;
    assert items[j] in items;
  }

  lemma RunningIsBootable(cfg: Config, s: System, build: string, unread: set<string>, items: seq<CacheItem>)
    requires SystemSound(cfg, s) && MayBeUnread(s.d.files, unread) && Found(s.d.files, build, unread, items)
    ensures Bootable(cfg, s, build, unread, items)
  {
    hide SystemSound, PairsSaved, Excused, ReadSaved, OutlivedSound, NewerThan;
    SystemParts(cfg, s);
    RunningPairsAreSaved(cfg, s, build, unread);
    forall item | item in items ensures Excused(s, item) {
      FoundIsExcused(cfg, s, build, unread, items, item);
    }
  }

  lemma RunningPairsAreSaved(cfg: Config, s: System, build: string, unread: set<string>)
    requires SystemSound(cfg, s) && MayBeUnread(s.d.files, unread)
    ensures PairsSaved(s, build, unread)
  {
    hide Sound, OutlivedSound, TagsSound, GensSound, ScratchSound, PairsSound, SavedPair, MetaSound, ReadSaved;
    forall k | Loadable(s.d.files, k, build) ensures SavedPair(s.d.files, s.d.saved, build, k) {
      LoadableIsSaved(cfg, s, build, k);
    }
  }

  lemma SystemParts(cfg: Config, s: System)
    requires SystemSound(cfg, s)
    ensures ClockSound(s.m) && OutlivedSound(s.m.invalidations) && AnswersSound(s.m.answers, s.m.invalidations)
    ensures forall c :: c in s.d.saved ==> c.item.entry.tags == cfg.tagsOf(c.build, c.item.key)
  {
    hide OutlivedSound, ClockSound, AnswersSound, GensSound, ScratchSound, MetasSound, PairsSound, CacheSound, FlightsSound;
  }

  lemma FoundIsExcused(cfg: Config, s: System, build: string, unread: set<string>, items: seq<CacheItem>, item: CacheItem)
    requires SystemSound(cfg, s) && Found(s.d.files, build, unread, items) && item in items
    ensures Excused(s, item)
  {
    hide Sound, OutlivedSound, TagsSound, GensSound, ScratchSound, MetasSound, NewerThan, ReadSaved, CopyOf, MetaOf, AtLarge;
    LoadableIsSaved(cfg, s, build, item.key);
    LoadedIsCopy(s.d.files, s.d.saved, build, item.key);
  }

  /** Written beside what it outlived, a copy that was at large is accounted for. */
  lemma RestoredIsNewer(s: System, build: string, unread: set<string>, items: seq<CacheItem>, item: CacheItem)
    requires item in items && Excused(s, item)
    ensures NewerThan(Reboot(s, build, unread, items).m.invalidations, item.key, item.entry.tags, item.entry.flight)
  {
    hide Names, AtLarge, Newest, Evicted, KeySeq, Cleaned;
  }

  lemma RebootLogIsSound(s: System, build: string, unread: set<string>, items: seq<CacheItem>)
    requires ClockSound(s.m) && OutlivedSound(s.m.invalidations) && AnswersSound(s.m.answers, s.m.invalidations)
    ensures var m := Reboot(s, build, unread, items).m;
            ClockSound(m) && OutlivedSound(m.invalidations) && AnswersSound(m.answers, m.invalidations)
  {
    hide Names, AtLarge, Newest, Evicted, KeySeq, Cleaned;
  }

  lemma RebootCacheIsSound(cfg: Config, s: System, build: string, unread: set<string>, items: seq<CacheItem>)
    requires Bootable(cfg, s, build, unread, items)
    ensures var s' := Reboot(s, build, unread, items);
            CacheSound(s'.m.cache, s'.m.invalidations) && TagsSound(cfg, s'.m, build, s'.d.saved)
  {
    hide SavedPair, MetaSound, ReadSaved, Excused, NewerThan, ClockSound, OutlivedSound, AnswersSound, Aged, Cleaned,
      OldestFirst, CopyOf, MetaOf, KeySeq, Evicted;
    var s' := Reboot(s, build, unread, items);
    NewestDistinct(items);
    forall item | item in Newest(items)
      ensures item.entry.tags == cfg.tagsOf(build, item.key)
      ensures NewerThan(s'.m.invalidations, item.key, item.entry.tags, item.entry.flight)
    {
      assert item in items;
      LoadedIsCopy(s.d.files, s.d.saved, build, item.key);
      RestoredIsNewer(s, build, unread, items, item);
    }
  }

  lemma RebootMemoryIsSound(cfg: Config, s: System, build: string, unread: set<string>, items: seq<CacheItem>)
    requires Bootable(cfg, s, build, unread, items)
    ensures Sound(Reboot(s, build, unread, items).m)
  {
    hide CacheSound, ClockSound, OutlivedSound, AnswersSound, NewerThan, Names, Found, PairsSaved, Excused, TagsSound, Aged,
      Cleaned, Newest, Evicted;
    RebootCacheIsSound(cfg, s, build, unread, items);
    RebootLogIsSound(s, build, unread, items);
  }

  lemma CleanedMetasAreSound(s: System, build: string, unread: set<string>, items: seq<CacheItem>)
    requires PairsSaved(s, build, unread)
    ensures MetasSound(Reboot(s, build, unread, items).d, build)
  {
    hide ReadSaved, MetaOf, CopyOf, Loadable, Aged, Newest, Evicted, KeySeq;
    forall k | Loadable(s.d.files, k, build)
      ensures MetaName(k) in s.d.files && s.d.files[MetaName(k)].Meta? && s.d.files[MetaName(k)].meta.build == build
    {
      LoadableHasMeta(s.d.files, k, build);
    }
  }

  lemma RebootPairsAreSound(cfg: Config, s: System, build: string, unread: set<string>, items: seq<CacheItem>)
    requires Bootable(cfg, s, build, unread, items)
    ensures PairsSound(Reboot(s, build, unread, items).m, Reboot(s, build, unread, items).d)
  {
    hide SavedPair, MetaSound, ReadSaved, Excused, NewerThan, ClockSound, OutlivedSound, AnswersSound, Aged, OldestFirst,
      CopyOf, MetaOf, KeySeq, Newest, Evicted;
    var s' := Reboot(s, build, unread, items);
    forall k | MetaName(k) in s'.d.files && s'.d.files[MetaName(k)].Meta?
      ensures AtLarge(s'.d, k) || StillGood(s'.m, CopyOf(s'.d.files[MetaName(k)].meta))
    {
      if k !in unread {
        assert Loadable(s.d.files, k, build);
        LoadedIsCopy(s.d.files, s.d.saved, build, k);
        LoadedIsFound(s.d.files, build, unread, items, k);
        RestoredIsGood(s, build, unread, items, CacheItem(k, ReadSaved(s.d.files, k, build).page));
      }
    }
  }

  lemma RestoredIsGood(s: System, build: string, unread: set<string>, items: seq<CacheItem>, item: CacheItem)
    requires DistinctKeys(items) && item in items && Excused(s, item)
    ensures var s' := Reboot(s, build, unread, items); item.key in s'.d.sweep || StillGood(s'.m, item)
  {
    hide Excused, NewerThan, Aged, KeySeq, Newest, Evicted, Cleaned;
    RestoredIsNewer(s, build, unread, items, item);
    if item.key !in KeySeq(Evicted(items)) {
      NewestFinds(items, item.key);
      FindIs(items, item);
    }
  }

  /** A boot, from whatever a crash left or from any directory, restores what every step keeps. */
  lemma RebootIsSound(cfg: Config, s: System, build: string, unread: set<string>, items: seq<CacheItem>)
    requires Bootable(cfg, s, build, unread, items)
    ensures SystemSound(cfg, Reboot(s, build, unread, items))
  {
    hide Sound, OutlivedSound, TagsSound, MetasSound, PairsSound, PairsSaved, Excused, Found, Aged, Loadable, Newest, Evicted,
      KeySeq, Cleaned;
    RebootMemoryIsSound(cfg, s, build, unread, items);
    RebootLogIsSound(s, build, unread, items);
    RebootCacheIsSound(cfg, s, build, unread, items);
    CleanedMetasAreSound(s, build, unread, items);
    RebootPairsAreSound(cfg, s, build, unread, items);
  }

  lemma WrittenIsSaved(cfg: Config, files: map<FileName, File>, k: string)
    requires MetaName(k) in files && files[MetaName(k)].Meta? && AsWritten(cfg, k, files[MetaName(k)].meta)
    ensures MetaSound(files[MetaName(k)].meta, k, SavedBefore(cfg, files))
  {
  }

  /** Whatever else lies in it, the first directory can be booted from. */
  lemma DirectoryIsBootable(cfg: Config, files: map<FileName, File>, clock: nat, build: string, unread: set<string>, items: seq<CacheItem>)
    requires Directory(cfg, files, build, unread) && Found(files, build, unread, items)
    ensures Bootable(cfg, Before(files, SavedBefore(cfg, files), clock), build, unread, items)
  {
    hide OldestFirst, KeysOf, AsWritten, MetaSound, ReadSaved;
    forall k | Loadable(files, k, build) ensures SavedPair(files, SavedBefore(cfg, files), build, k) {
      LoadableHasMeta(files, k, build);
      WrittenIsSaved(cfg, files, k);
      SoundIsPair(files, SavedBefore(cfg, files), build, k);
    }
    forall k | k in unread && files[MetaName(k)].Meta? ensures MetaSound(files[MetaName(k)].meta, k, SavedBefore(cfg, files)) {
      WrittenIsSaved(cfg, files, k);
    }
    SavedBeforeHasTags(cfg, files);
  }

  lemma SoundIsPair(files: map<FileName, File>, saved: set<SavedCopy>, build: string, k: string)
    requires MetaName(k) in files && files[MetaName(k)].Meta? && files[MetaName(k)].meta.build == build
    requires MetaSound(files[MetaName(k)].meta, k, saved)
    ensures SavedPair(files, saved, build, k)
  {
  }

  lemma SavedBeforeHasTags(cfg: Config, files: map<FileName, File>)
    ensures forall c :: c in SavedBefore(cfg, files) ==> c.item.entry.tags == cfg.tagsOf(c.build, c.item.key)
  {
  }

  lemma FirstBootIsSound(cfg: Config, s: System)
    requires FirstBoot(cfg, s)
    ensures SystemSound(cfg, s)
  {
    hide Directory, Found, Reboot, SystemSound, Bootable;
    var files, clock: nat, items :|
      Directory(cfg, files, s.build, s.d.unread) && Found(files, s.build, s.d.unread, items)
      && s == Reboot(Before(files, SavedBefore(cfg, files), clock), s.build, s.d.unread, items);
    DirectoryIsBootable(cfg, files, clock, s.build, s.d.unread, items);
    RebootIsSound(cfg, Before(files, SavedBefore(cfg, files), clock), s.build, s.d.unread, items);
  }

  // ---- over every run, with crashes in it -----------------------------------------------

  lemma SystemStepIsSound(cfg: Config, s: System, a: SystemAction)
    requires SystemSound(cfg, s) && SystemEnabled(cfg, s, a)
    ensures SystemSound(cfg, SystemStep(cfg, s, a))
  {
    hide SystemSound, Found, Enabled, DiskEnabled, Step, Apply, EffectOf, DiskStep, Reboot, Bootable, MayBeUnread;
    match a
    case UnderLock(act) => UnderLockIsSound(cfg, s, act);
    case OnDisk(op) => OnDiskIsSound(cfg, s, op);
    case CrashAndBoot(build, unread, items) =>
      RunningIsBootable(cfg, s, build, unread, items);
      RebootIsSound(cfg, s, build, unread, items);
  }

  lemma {:induction false} EverySystemIsSound(cfg: Config, trace: seq<System>, actions: seq<SystemAction>, i: nat)
    requires IsSystemRun(cfg, trace, actions) && i < |trace|
    ensures SystemSound(cfg, trace[i])
  {
    hide SystemSound, SystemEnabled, SystemStep, FirstBoot;
    if i == 0 {
      FirstBootIsSound(cfg, trace[0]);
    } else {
      EverySystemIsSound(cfg, trace, actions, i - 1);
      SystemStepIsSound(cfg, trace[i - 1], actions[i - 1]);
    }
  }

  // ---- nothing comes back, but what a crash left at large ----------------------------------

  /**
   The disk never resurrects what was swept: a pair that a boot would load is about to be swept, or
   the last boot could not read it, or it is of a key in the cache and every invalidation ever that
   names it came before its render - but for those it outlived because a crash left it at large.
   */
  lemma LoadableIsSweptOrFresh(cfg: Config, trace: seq<System>, actions: seq<SystemAction>, i: nat, key: string)
    requires IsSystemRun(cfg, trace, actions) && i < |trace| && Loadable(trace[i].d.files, key, trace[i].build)
    ensures var page := ReadSaved(trace[i].d.files, key, trace[i].build).page;
            || PendingSweep(trace[i].d, key) || key in trace[i].d.unread
            || (Find(trace[i].m.cache, key).Some? && NewerThan(trace[i].m.invalidations, key, page.tags, page.flight))
  {
    hide IsSystemRun, ReadSaved, CopyOf, NewerThan, Sound, TagsSound, GensSound, ScratchSound, MetasSound, PendingSweep, OutlivedSound;
    EverySystemIsSound(cfg, trace, actions, i);
    LoadableIsSaved(cfg, trace[i], trace[i].build, key);
    LoadedIsCopy(trace[i].d.files, trace[i].d.saved, trace[i].build, key);
  }

  /** A crash at `j` found the render's copy on disk, invalidated and its pair at large, and its boot loaded it. */
  ghost predicate BroughtBack(s: System, a: SystemAction, what: Target, at: nat, render: Render) {
    && a.CrashAndBoot? && AtLarge(s.d, render.key) && render.flight <= at
    && (exists v :: v in s.m.invalidations && v.what == what && v.at == at)
    && (exists item :: item in a.items && item.key == render.key && item.entry.flight == render.flight
                       && Names(what, item.key, item.entry.tags))
  }

  /** The log says of the render that it outlived an invalidation of `what` made at `at`. */
  ghost predicate Outlived(log: set<Invalidation>, what: Target, at: nat, render: Render) {
    exists v :: v in log && v.what == what && v.at == at && render in v.outlived
  }

  lemma StepOutlives(cfg: Config, s: System, a: SystemAction, what: Target, at: nat, render: Render)
    requires SystemEnabled(cfg, s, a)
    ensures Outlived(SystemStep(cfg, s, a).m.invalidations, what, at, render) <==>
            Outlived(s.m.invalidations, what, at, render) || BroughtBack(s, a, what, at, render)
  {
    hide Enabled, Step, DiskEnabled, DiskStep, Apply, EffectOf, Found, Names, AtLarge, BroughtBack;
    match a
    case CrashAndBoot(build, unread, items) => RebootOutlives(s, build, unread, items, what, at, render);
    case UnderLock(act) =>
      StepLogs(s.m, act);
      NoCrashNoReturn(s, a, what, at, render);
    case OnDisk(_) => NoCrashNoReturn(s, a, what, at, render);
  }

  lemma NoCrashNoReturn(s: System, a: SystemAction, what: Target, at: nat, render: Render)
    ensures !a.CrashAndBoot? ==> !BroughtBack(s, a, what, at, render)
  {
  }

  lemma RebootOutlives(s: System, build: string, unread: set<string>, items: seq<CacheItem>, what: Target, at: nat, render: Render)
    ensures Outlived(Reboot(s, build, unread, items).m.invalidations, what, at, render) <==>
            Outlived(s.m.invalidations, what, at, render) || BroughtBack(s, CrashAndBoot(build, unread, items), what, at, render)
  {
    hide Names, AtLarge, Newest, Evicted, KeySeq, Cleaned;
    var a, log := CrashAndBoot(build, unread, items), Reboot(s, build, unread, items).m.invalidations;
    if Outlived(log, what, at, render) {
      var v :| v in log && v.what == what && v.at == at && render in v.outlived;
      var u :| u in s.m.invalidations && v == Aged(u, s.d, items);
      if render !in u.outlived {
        var item :| item in items && Outlives(u, s.d, item) && Render(item.key, item.entry.flight) == render;
        assert item.key == render.key;
      }
    }
    if Outlived(s.m.invalidations, what, at, render) {
      var u :| u in s.m.invalidations && u.what == what && u.at == at && render in u.outlived;
      assert Aged(u, s.d, items) in log;
    }
    if BroughtBack(s, a, what, at, render) {
      var u :| u in s.m.invalidations && u.what == what && u.at == at;
      var item :| item in items && item.key == render.key && item.entry.flight == render.flight && Names(what, item.key, item.entry.tags);
      assert Outlives(u, s.d, item) && Aged(u, s.d, items) in log;
    }
  }

  /**
   Exactly what outlives an invalidation: what some crash brought back, its key waiting to be swept
   then, or unread.
   */
  lemma {:induction false} OutlivedIffBroughtBack(cfg: Config, trace: seq<System>, actions: seq<SystemAction>, i: nat,
                                                  what: Target, at: nat, render: Render)
    requires IsSystemRun(cfg, trace, actions) && i < |trace|
    ensures Outlived(trace[i].m.invalidations, what, at, render) <==>
            exists j: nat :: j < i && BroughtBack(trace[j], actions[j], what, at, render)
  {
    hide SystemEnabled, SystemStep, BroughtBack;
    FirstLogIsEmpty(cfg, trace[0]);
    if i > 0 {
      assert SystemEnabled(cfg, trace[i - 1], actions[i - 1]) && trace[i] == SystemStep(cfg, trace[i - 1], actions[i - 1]);
      hide FirstBoot, IsSystemRun, Outlived;
      StepOutlives(cfg, trace[i - 1], actions[i - 1], what, at, render);
      OutlivedIffBroughtBack(cfg, trace, actions, i - 1, what, at, render);
    }
  }

  /**
   Exactly when an invalidated page comes back: a loadable pair not at large is older than an
   invalidation naming it if and only if a crash came while that pair was at large, and the boot
   after it loaded it.
   */
  lemma StaleIffBroughtBack(cfg: Config, trace: seq<System>, actions: seq<SystemAction>, i: nat, key: string, v: Invalidation)
    requires IsSystemRun(cfg, trace, actions) && i < |trace| && Loadable(trace[i].d.files, key, trace[i].build)
    requires !AtLarge(trace[i].d, key) && v in trace[i].m.invalidations
    requires Names(v.what, key, ReadSaved(trace[i].d.files, key, trace[i].build).page.tags)
    ensures var page := ReadSaved(trace[i].d.files, key, trace[i].build).page;
            && Find(trace[i].m.cache, key).Some?
            && (page.flight <= v.at <==>
                  exists j: nat :: j < i && BroughtBack(trace[j], actions[j], v.what, v.at, Render(key, page.flight)))
  {
    hide IsSystemRun, ReadSaved, PendingSweep;
    LoadableIsSweptOrFresh(cfg, trace, actions, i, key);
    OutlivedIffBroughtBack(cfg, trace, actions, i, v.what, v.at, Render(key, ReadSaved(trace[i].d.files, key, trace[i].build).page.flight));
  }

  lemma FirstLogIsEmpty(cfg: Config, s: System)
    requires FirstBoot(cfg, s)
    ensures s.m.invalidations == {}
  {
    hide Directory, Found, Cleaned, Newest, Evicted;
  }

  /** No crash so far came while the key was waiting to be swept, or its pair unread. */
  ghost predicate NeverCutShort(trace: seq<System>, actions: seq<SystemAction>, i: nat, key: string)
    requires i <= |actions| < |trace|
  {
    forall j :: 0 <= j < i && actions[j].CrashAndBoot? ==> !AtLarge(trace[j].d, key)
  }

  /**
   Freshness across crashes, key by key: unless a crash came while the key's pair was at large, no
   answer to a later request, no copy and no loadable pair of it - pairs at large apart - is older
   than an invalidation ever made that names it, whatever happened to other keys.
   */
  lemma OtherKeysStayFresh(cfg: Config, trace: seq<System>, actions: seq<SystemAction>, i: nat, key: string, v: Invalidation)
    requires IsSystemRun(cfg, trace, actions) && i < |trace| && NeverCutShort(trace, actions, i, key)
    requires v in trace[i].m.invalidations
    ensures var s := trace[i];
            && (forall a :: a in s.m.answers && a.key == key && v.at < a.asked && Names(v.what, key, a.page.tags) ==>
                  v.at < a.page.flight)
            && (forall item :: item in s.m.cache && item.key == key && Names(v.what, key, item.entry.tags) ==>
                  v.at < item.entry.flight)
            && (Loadable(s.d.files, key, s.build) && !AtLarge(s.d, key)
                && Names(v.what, key, ReadSaved(s.d.files, key, s.build).page.tags) ==>
                  v.at < ReadSaved(s.d.files, key, s.build).page.flight)
  {
    hide IsSystemRun, ReadSaved, Loadable, TagsSound, GensSound, ScratchSound, MetasSound, PairsSound, PendingSweep, Names;
    EverySystemIsSound(cfg, trace, actions, i);
    forall flight: nat ensures Render(key, flight) !in v.outlived {
      OutlivedIffBroughtBack(cfg, trace, actions, i, v.what, v.at, Render(key, flight));
    }
    if Loadable(trace[i].d.files, key, trace[i].build) {
      LoadableIsSweptOrFresh(cfg, trace, actions, i, key);
    }
  }

  /** While nothing is queued for removal or held by a drain, a loadable pair that was read is of a cached key. */
  lemma QuietDiskIsCached(cfg: Config, trace: seq<System>, actions: seq<SystemAction>, i: nat, key: string)
    requires IsSystemRun(cfg, trace, actions) && i < |trace|
    requires Quiet(trace[i].d) && key !in trace[i].d.unread && Loadable(trace[i].d.files, key, trace[i].build)
    ensures var page := ReadSaved(trace[i].d.files, key, trace[i].build).page;
            && Find(trace[i].m.cache, key).Some?
            && NewerThan(trace[i].m.invalidations, key, page.tags, page.flight)
  {
    hide IsSystemRun, ReadSaved, NewerThan;
    LoadableIsSweptOrFresh(cfg, trace, actions, i, key);
  }

  // ---- what a boot loads, and leaves ---------------------------------------------------------

  /**
   Crash safety: what any build would load is one copy a process of that build saved, body and
   meta; and it is the build that runs, unless the last boot could not read the pair.
   */
  lemma OnlySavedPairsLoad(cfg: Config, trace: seq<System>, actions: seq<SystemAction>, i: nat, build: string, key: string)
    requires IsSystemRun(cfg, trace, actions) && i < |trace| && Loadable(trace[i].d.files, key, build)
    ensures SavedCopy(build, CacheItem(key, ReadSaved(trace[i].d.files, key, build).page)) in trace[i].d.saved
    ensures build == trace[i].build || key in trace[i].d.unread
  {
    hide IsSystemRun, SystemSound, ReadSaved, SavedPair;
    EverySystemIsSound(cfg, trace, actions, i);
    LoadableIsSaved(cfg, trace[i], build, key);
    LoadedIsCopy(trace[i].d.files, trace[i].d.saved, build, key);
  }

  /** Over every run a pair's meta holds the key its file is named for. */
  lemma PairsNameTheirKeys(cfg: Config, trace: seq<System>, actions: seq<SystemAction>, i: nat, build: string)
    requires IsSystemRun(cfg, trace, actions) && i < |trace|
    ensures NamedForTheirKeys(trace[i].d.files, build)
  {
    hide IsSystemRun, SystemSound, ReadSaved;
    EverySystemIsSound(cfg, trace, actions, i);
    forall key | Loadable(trace[i].d.files, key, build) ensures SavedPair(trace[i].d.files, trace[i].d.saved, build, key) {
      LoadableIsSaved(cfg, trace[i], build, key);
    }
  }

  /** A save of the copy began at `j`, in a process of its build. */
  ghost predicate SaveBeganAt(s: System, a: SystemAction, c: SavedCopy) {
    && a.UnderLock? && Enabled(s.m, a.a) && c.build == s.build
    && EffectOf(s.m, a.a).saved.Some?
    && var item := EffectOf(s.m, a.a).saved.value; c.item == CacheItem(item.key, Rounded(item.entry))
  }

  /** What counts as saved was there at the first boot, or is a copy a save of its build began with. */
  lemma {:induction false} SavedWasBegun(cfg: Config, trace: seq<System>, actions: seq<SystemAction>, i: nat, c: SavedCopy)
    requires IsSystemRun(cfg, trace, actions) && i < |trace| && c in trace[i].d.saved
    ensures c in trace[0].d.saved || exists j: nat :: j < i && SaveBeganAt(trace[j], actions[j], c)
  {
    hide SystemEnabled, SystemStep, FirstBoot, SaveBeganAt;
    if i > 0 {
      assert SystemEnabled(cfg, trace[i - 1], actions[i - 1]) && trace[i] == SystemStep(cfg, trace[i - 1], actions[i - 1]);
      if c in trace[i - 1].d.saved {
        SavedWasBegun(cfg, trace, actions, i - 1, c);
      } else {
        EverySystemIsSound(cfg, trace, actions, i - 1);
        NewlySaved(cfg, trace[i - 1], actions[i - 1], c);
      }
    }
  }

  lemma NewlySaved(cfg: Config, s: System, a: SystemAction, c: SavedCopy)
    requires SystemSound(cfg, s) && SystemEnabled(cfg, s, a) && c in SystemStep(cfg, s, a).d.saved && c !in s.d.saved
    ensures SaveBeganAt(s, a, c)
  {
    hide Enabled, Step, EffectOf, DiskEnabled, DiskStep, Rounded, ScratchSound, Found, Names;
    if a.OnDisk? {
      DiskStepKeepsSaves(s.build, s.d, a.op);
    }
  }

  /**
   After any crash a boot leaves the newest 512 of the copies it finds in the cache, oldest first,
   and on disk their pairs whole, those it is about to sweep, those it could not read, and nothing
   else. A pair is stale after it if and only if it was before.
   */
  lemma BootRestores(cfg: Config, trace: seq<System>, actions: seq<SystemAction>, i: nat)
    requires IsSystemRun(cfg, trace, actions) && i < |actions| && actions[i].CrashAndBoot?
    ensures var before, after, build, unread, items := trace[i], trace[i + 1], actions[i].build, actions[i].unread, actions[i].items;
            && after.build == build && after.d.unread == unread && Found(before.d.files, build, unread, items)
            && after.m.cache == Newest(items) && OldestFirst(after.m.cache) && |after.m.cache| <= MAX_CACHED_PAGES
            && (forall item :: item in after.m.cache ==> SavedCopy(build, item) in before.d.saved)
            && (forall key :: Loadable(before.d.files, key, build) ==>
                  (key in KeysOf(after.m.cache) || key in after.d.sweep || key in unread)
                  && ReadSaved(after.d.files, key, build) == ReadSaved(before.d.files, key, build)
                  && (StalePair(after, key) <==> StalePairOf(before, build, key)))
            && (forall name :: name in after.d.files ==>
                  (name.BodyName? || name.MetaName?) && (Loadable(before.d.files, name.key, build) || name.key in unread))
  {
    hide SystemSound, ReadSaved, Names;
    EverySystemIsSound(cfg, trace, actions, i);
    var build, unread, items := actions[i].build, actions[i].unread, actions[i].items;
    BootedCache(cfg, trace[i], build, unread, items);
    forall key | Loadable(trace[i].d.files, key, build)
      ensures key in KeysOf(trace[i + 1].m.cache) || key in trace[i + 1].d.sweep || key in unread
      ensures ReadSaved(trace[i + 1].d.files, key, build) == ReadSaved(trace[i].d.files, key, build)
      ensures StalePair(trace[i + 1], key) <==> StalePairOf(trace[i], build, key)
    {
      BootedPair(trace[i], build, unread, items, key);
      StaleStays(trace[i], build, unread, items, key);
    }
  }

  /** A loadable pair older than some invalidation ever made that names it. */
  ghost predicate StalePairOf(s: System, build: string, key: string) {
    && Loadable(s.d.files, key, build)
    && exists v :: v in s.m.invalidations
         && var page := ReadSaved(s.d.files, key, build).page; Names(v.what, key, page.tags) && page.flight <= v.at
  }

  ghost predicate StalePair(s: System, key: string) {
    StalePairOf(s, s.build, key)
  }

  lemma StaleStays(s: System, build: string, unread: set<string>, items: seq<CacheItem>, key: string)
    requires Loadable(s.d.files, key, build)
    ensures StalePair(Reboot(s, build, unread, items), key) <==> StalePairOf(s, build, key)
  {
    hide ReadSaved, Names, AtLarge, Newest, Evicted, KeySeq, Cleaned;
    CleaningKeepsPairs(s.d.files, key, build, unread);
    var s' := Reboot(s, build, unread, items);
    forall v | v in s.m.invalidations ensures exists v' :: v' in s'.m.invalidations && v'.what == v.what && v'.at == v.at {
      assert Aged(v, s.d, items) in s'.m.invalidations;
    }
  }

  lemma BootedCache(cfg: Config, s: System, build: string, unread: set<string>, items: seq<CacheItem>)
    requires SystemSound(cfg, s) && Found(s.d.files, build, unread, items)
    ensures OldestFirst(Newest(items)) && DistinctKeys(Newest(items)) && |Newest(items)| <= MAX_CACHED_PAGES
    ensures forall item :: item in Newest(items) ==> SavedCopy(build, item) in s.d.saved
  {
    hide SystemSound, ReadSaved, SavedPair;
    NewestDistinct(items);
    forall item | item in Newest(items) ensures SavedCopy(build, item) in s.d.saved {
      assert item in items;
      LoadableIsSaved(cfg, s, build, item.key);
      LoadedIsCopy(s.d.files, s.d.saved, build, item.key);
    }
  }

  lemma BootedPair(s: System, build: string, unread: set<string>, items: seq<CacheItem>, key: string)
    requires Found(s.d.files, build, unread, items) && Loadable(s.d.files, key, build)
    ensures key in KeysOf(Newest(items)) || key in KeySeq(Evicted(items)) || key in unread
    ensures ReadSaved(Cleaned(s.d.files, build, unread), key, build) == ReadSaved(s.d.files, key, build)
  {
    hide Found, ReadSaved, Newest, Evicted, KeySeq, KeysOf;
    CleaningKeepsPairs(s.d.files, key, build, unread);
    if key !in unread {
      LoadedIsFound(s.d.files, build, unread, items, key);
      KeptOrEvicted(items, CacheItem(key, ReadSaved(s.d.files, key, build).page));
    }
  }

  lemma CleaningKeepsPairs(files: map<FileName, File>, key: string, build: string, unread: set<string>)
    requires Loadable(files, key, build)
    ensures ReadSaved(Cleaned(files, build, unread), key, build) == ReadSaved(files, key, build)
  {
    assert MetaName(key) in Cleaned(files, build, unread) && BodyName(key) in Cleaned(files, build, unread);
  }

  lemma KeptOrEvicted(items: seq<CacheItem>, item: CacheItem)
    requires item in items
    ensures item.key in KeysOf(Newest(items)) || item.key in KeySeq(Evicted(items))
  {
    assert items == Evicted(items) + Newest(items);
    if item in Newest(items) {
      KeyIsHeld(Newest(items), item);
    }
  }

  /**
   A boot of another build may serve only what the boot before it could not read, and leaves
   nothing else on disk but what it cannot read itself: when every pair was read, nothing at all.
   */
  lemma OtherBuildStartsEmpty(cfg: Config, trace: seq<System>, actions: seq<SystemAction>, i: nat)
    requires IsSystemRun(cfg, trace, actions) && i < |actions| && actions[i].CrashAndBoot?
    requires actions[i].build != trace[i].build
    ensures forall item :: item in trace[i + 1].m.cache ==> item.key in trace[i].d.unread
    ensures forall name :: name in trace[i + 1].d.files ==>
              (name.BodyName? || name.MetaName?) && (name.key in trace[i].d.unread || name.key in actions[i].unread)
  {
    hide SystemSound, ReadSaved, SavedPair;
    EverySystemIsSound(cfg, trace, actions, i);
    var build, items := actions[i].build, actions[i].items;
    forall key ensures Loadable(trace[i].d.files, key, build) ==> key in trace[i].d.unread {
      if Loadable(trace[i].d.files, key, build) {
        LoadableIsSaved(cfg, trace[i], build, key);
      }
    }
    forall item | item in trace[i + 1].m.cache ensures Loadable(trace[i].d.files, item.key, build) {
      assert item in items;
    }
  }

  // ---- when a save lands ------------------------------------------------------------------------

  /** A section stores the key again, or drops it. */
  ghost predicate Moves(s: System, a: SystemAction, key: string) {
    a.UnderLock? && Enabled(s.m, a.a) && MovesKey(EffectOf(s.m, a.a), key)
  }

  predicate MovesKey(e: Effect, key: string) {
    key in e.drops || (e.saved.Some? && e.saved.value.key == key)
  }

  /** The save of `item` is generation `g`. */
  predicate HoldsSave(d: Disk, g: nat, item: CacheItem) {
    g in d.saves && d.saves[g].item == item && g <= d.lastGen
  }

  lemma ApplyMoves(d: Disk, e: Effect, build: string, g: nat, item: CacheItem)
    requires HoldsSave(d, g, item)
    ensures HoldsSave(Apply(d, e, build), g, item)
    ensures Current(Apply(d, e, build), g) <==> Current(d, g) && !MovesKey(e, item.key)
  {
  }

  lemma DiskMoves(build: string, d: Disk, a: DiskAction, g: nat, item: CacheItem)
    requires ScratchSound(d, build) && DiskEnabled(d, a) && HoldsSave(d, g, item)
    ensures HoldsSave(DiskStep(build, d, a), g, item)
    ensures Current(DiskStep(build, d, a), g) <==> Current(d, g)
  {
    hide DiskStep, DiskEnabled, ScratchSound;
    DiskStepKeepsSaves(build, d, a);
  }

  lemma StepMoves(cfg: Config, s: System, a: SystemAction, g: nat, item: CacheItem)
    requires SystemSound(cfg, s) && SystemEnabled(cfg, s, a) && !a.CrashAndBoot? && HoldsSave(s.d, g, item)
    ensures HoldsSave(SystemStep(cfg, s, a).d, g, item)
    ensures Current(SystemStep(cfg, s, a).d, g) <==> Current(s.d, g) && !Moves(s, a, item.key)
  {
    hide Step, Enabled, EffectOf, Apply, DiskStep, DiskEnabled, Current, HoldsSave, MovesKey, ScratchSound, Reboot, Found;
    match a
    case UnderLock(act) => ApplyMoves(s.d, EffectOf(s.m, act), s.build, g, item);
    case OnDisk(op) => DiskMoves(s.build, s.d, op, g, item);
  }

  lemma SaveBegins(cfg: Config, s: System, a: SystemAction, item: CacheItem)
    requires SystemEnabled(cfg, s, a) && a.UnderLock? && EffectOf(s.m, a.a).saved == Some(item)
    ensures var d := SystemStep(cfg, s, a).d; HoldsSave(d, d.lastGen, item) && Current(d, d.lastGen)
  {
    hide Step, Enabled, EffectOf;
  }

  lemma {:induction false} CurrentIffUnmoved(cfg: Config, trace: seq<System>, actions: seq<SystemAction>,
                                             began: nat, item: CacheItem, i: nat)
    requires IsSystemRun(cfg, trace, actions) && BeginsSave(trace, actions, began, item) && began < i < |trace|
    requires NoCrash(actions, began, i)
    ensures HoldsSave(trace[i].d, trace[began + 1].d.lastGen, item)
    ensures Current(trace[i].d, trace[began + 1].d.lastGen) <==> Unmoved(trace, actions, began, i, item.key)
    decreases i
  {
    hide SystemSound, SystemStep, SystemEnabled, FirstBoot, EffectOf, Enabled, HoldsSave, Current, Moves;
    assert SystemEnabled(cfg, trace[i - 1], actions[i - 1]) && trace[i] == SystemStep(cfg, trace[i - 1], actions[i - 1]);
    if i == began + 1 {
      SaveBegins(cfg, trace[began], actions[began], item);
    } else {
      CurrentIffUnmoved(cfg, trace, actions, began, item, i - 1);
      EverySystemIsSound(cfg, trace, actions, i - 1);
      StepMoves(cfg, trace[i - 1], actions[i - 1], trace[began + 1].d.lastGen, item);
      UnmovedNext(trace, actions, began, i - 1, item.key);
    }
  }

  ghost predicate BeginsSave(trace: seq<System>, actions: seq<SystemAction>, began: nat, item: CacheItem) {
    && began < |actions| < |trace| && actions[began].UnderLock? && Enabled(trace[began].m, actions[began].a)
    && EffectOf(trace[began].m, actions[began].a).saved == Some(item)
  }

  predicate NoCrash(actions: seq<SystemAction>, began: nat, i: nat) {
    forall j :: began < j < i && j < |actions| ==> !actions[j].CrashAndBoot?
  }

  /** No section between the two stored the key again, or dropped it. */
  ghost predicate Unmoved(trace: seq<System>, actions: seq<SystemAction>, began: nat, i: nat, key: string)
    requires i <= |actions| < |trace|
  {
    forall j :: began < j < i ==> !Moves(trace[j], actions[j], key)
  }

  lemma UnmovedNext(trace: seq<System>, actions: seq<SystemAction>, began: nat, i: nat, key: string)
    requires began < i < |actions| < |trace|
    ensures Unmoved(trace, actions, began, i + 1, key) <==>
            Unmoved(trace, actions, began, i, key) && !Moves(trace[i], actions[i], key)
  {
    hide Moves;
  }

  /**
   A save lands if and only if, since it began, its key was neither stored again nor dropped:
   its question under the lock is answered by the generation, and no generation repeats.
   */
  lemma SaveLandsIffUnmoved(cfg: Config, trace: seq<System>, actions: seq<SystemAction>,
                            began: nat, item: CacheItem, i: nat)
    requires IsSystemRun(cfg, trace, actions) && BeginsSave(trace, actions, began, item) && began < i < |actions|
    requires NoCrash(actions, began, i) && actions[i] == OnDisk(Decide(trace[began + 1].d.lastGen))
    ensures var g := trace[began + 1].d.lastGen;
            && g in trace[i + 1].d.saves
            && trace[i + 1].d.saves[g] == Save(item, if Unmoved(trace, actions, began, i, item.key) then Landing else Dropped)
  {
    CurrentIffUnmoved(cfg, trace, actions, began, item, i);
    assert SystemEnabled(cfg, trace[i], actions[i]) && trace[i + 1] == SystemStep(cfg, trace[i], actions[i]);
    hide Unmoved, BeginsSave, NoCrash, IsSystemRun, Enabled, EffectOf;
  }
}
