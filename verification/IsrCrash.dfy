/**
 The two ways an invalidated page comes back (isr.go), each as a run: a crash comes between the
 invalidation and the sweep; or a boot could not read the pair, and so the invalidation after it
 found nothing to sweep. The next boot serves the copy again.
 */
module IsrCrash {
  import opened IsrDisk
  import opened IsrDurability
  import opened IsrMemory
  import opened PageCache
  import opened Wrappers

  const KEY := "/"
  const TAG := "t"
  const BUILD := "b"
  const PAGE := CachedPage(1, "page", "", 200, [], 0, [TAG])
  const COPY := CacheItem(KEY, PAGE)
  const POLICY := Policy(true, 0, [TAG])

  /** What is on disk once the copy's save has landed. */
  const PAIR: map<FileName, File> := map[BodyName(KEY) := Body("page"), MetaName(KEY) := Meta(MetaOf(COPY, BUILD))]

  function FlightAs(doomed: bool, phase: Phase, result: Option<CachedPage>): Flight {
    Flight(KEY, [TAG], false, doomed, phase, result)
  }

  // ---- the memory, moment by moment -----------------------------------------------------

  const BOOTED := Memory([], map[], map[], map[], 1, {}, {}, {})
  const ASKED := Memory([], map[], map[KEY := 1], map[1 := FlightAs(false, Rendering, None)], 2, {}, {Waiter(1, 1)}, {})
  const STORED := Memory([COPY], map[], map[KEY := 1], map[1 := FlightAs(false, Answered, Some(PAGE))], 3, {}, {Waiter(1, 1)}, {})
  const DROPPED := Memory([], map[], map[KEY := 1], map[1 := FlightAs(true, Answered, Some(PAGE))], 4,
                          {Invalidation(ByTag(TAG), 3, {})}, {Waiter(1, 1)}, {})

  lemma Asks()
    ensures Step(BOOTED, HandleRequest(KEY, POLICY, 0)) == ASKED
    ensures EffectOf(BOOTED, HandleRequest(KEY, POLICY, 0)) == NO_EFFECT
  {
  }

  const ENDS := FinishRender(1, Rendered(PAGE), 0, None)

  lemma Stores()
    ensures Enabled(ASKED, ENDS) && Step(ASKED, ENDS) == STORED
    ensures EffectOf(ASKED, ENDS) == Effect(multiset{}, Some(COPY))
  {
    assert Without([], {KEY}) == [];
    assert Put([], KEY, PAGE) == [COPY];
    assert Newest([COPY]) == [COPY] && KeySeq(Evicted([COPY])) == [];
    assert multiset(KeySeq(Evicted([COPY]))) == multiset{};
    assert ASKED.flights[1 := FlightAs(false, Answered, Some(PAGE))] == STORED.flights;
  }

  lemma Drops()
    ensures Step(STORED, InvalidateTarget(ByTag(TAG))) == DROPPED
    ensures EffectOf(STORED, InvalidateTarget(ByTag(TAG))) == Effect(multiset{KEY}, None)
  {
    assert TaggedKeys([COPY], TAG) == {KEY};
    assert [COPY][1..] == [];
    assert Without([COPY], {KEY}) == [];
    assert Doomable(STORED, 1, ByTag(TAG));
  }

  // ---- the disk, moment by moment ----------------------------------------------------------

  function DiskAs(phase: SavePhase, landing: Option<nat>, files: map<FileName, File>): Disk {
    Disk(map[KEY := 1], 1, multiset{}, landing, map[1 := Save(COPY, phase)], map[], files, {}, {SavedCopy(BUILD, COPY)})
  }

  const EMPTY := Disk(map[], 0, multiset{}, None, map[], map[], map[], {}, {})
  const BODY := Body("page")
  const META := Meta(MetaOf(COPY, BUILD))
  const UNSWEPT := Disk(map[], 1, multiset{KEY}, None, map[1 := Save(COPY, Landed)], map[], PAIR, {}, {SavedCopy(BUILD, COPY)})

  lemma SaveBegins()
    ensures Apply(EMPTY, Effect(multiset{}, Some(COPY)), BUILD) == DiskAs(Started, None, map[])
  {
    assert KeysIn(multiset{}) == {};
    assert Rounded(PAGE) == PAGE;
  }

  const D0 := DiskAs(Started, None, map[])
  const D1 := DiskAs(BodyWritten, None, map[TmpBody(1) := BODY])
  const D2 := DiskAs(MetaWritten, None, map[TmpBody(1) := BODY, TmpMeta(1) := META])
  const D3 := DiskAs(Landing, Some(1), map[TmpBody(1) := BODY, TmpMeta(1) := META])
  const D4 := DiskAs(BodyLanded, Some(1), map[TmpMeta(1) := META, BodyName(KEY) := BODY])
  const D5 := DiskAs(Landed, None, PAIR)

  lemma WritesBody()
    ensures DiskEnabled(D0, WriteBody(1, true)) && DiskStep(BUILD, D0, WriteBody(1, true)) == D1
  {
  }

  lemma WritesMeta()
    ensures DiskEnabled(D1, WriteMeta(1, true)) && DiskStep(BUILD, D1, WriteMeta(1, true)) == D2
  {
    hide MetaOf;
  }

  lemma Decides()
    ensures DiskEnabled(D2, Decide(1)) && DiskStep(BUILD, D2, Decide(1)) == D3
  {
    hide MetaOf;
  }

  lemma LandsBody()
    ensures DiskEnabled(D3, LandBody(1, true)) && DiskStep(BUILD, D3, LandBody(1, true)) == D4
  {
    hide MetaOf;
  }

  lemma LandsMeta()
    ensures DiskEnabled(D4, LandMeta(1, true)) && DiskStep(BUILD, D4, LandMeta(1, true)) == D5
  {
    hide MetaOf;
  }

  lemma SweepQueued()
    ensures Apply(DiskAs(Landed, None, PAIR), Effect(multiset{KEY}, None), BUILD) == UNSWEPT
  {
    assert KeysIn(multiset{KEY}) == {KEY};
  }

  // ---- the boot after the crash --------------------------------------------------------------

  lemma PairLoads()
    ensures ReadSaved(PAIR, KEY, BUILD) == Load(PAGE)
    ensures Found(PAIR, BUILD, {}, [COPY]) && Cleaned(PAIR, BUILD, {}) == PAIR
  {
    assert Rounded(PAGE) == PAGE;
    assert forall key :: MetaName(key) in PAIR <==> key == KEY;
    assert [COPY][0].key == KEY;
  }

  const CRASHED := System(DROPPED, UNSWEPT, BUILD)
  const BACK := System(
    Memory([COPY], map[], map[], map[], 5, {Invalidation(ByTag(TAG), 3, {Render(KEY, 1)})}, {}, {}),
    Disk(map[], 0, multiset{}, None, map[], map[], PAIR, {}, {SavedCopy(BUILD, COPY)}), BUILD)

  lemma ComesBack()
    ensures Reboot(CRASHED, BUILD, {}, [COPY]) == BACK
  {
    PairLoads();
    var v := Invalidation(ByTag(TAG), 3, {});
    assert COPY in [COPY] && Outlives(v, UNSWEPT, COPY);
    assert Aged(v, UNSWEPT, [COPY]).outlived == {Render(KEY, 1)};
    assert Newest([COPY]) == [COPY] && KeySeq(Evicted([COPY])) == [];
    assert multiset(KeySeq(Evicted([COPY]))) == multiset{};
  }

  // ---- the run -------------------------------------------------------------------------------

  const TRACE := [
    System(BOOTED, EMPTY, BUILD), System(ASKED, EMPTY, BUILD), System(STORED, D0, BUILD), System(STORED, D1, BUILD),
    System(STORED, D2, BUILD), System(STORED, D3, BUILD), System(STORED, D4, BUILD), System(STORED, D5, BUILD), CRASHED, BACK]

  const ACTIONS := [
    UnderLock(HandleRequest(KEY, POLICY, 0)), UnderLock(ENDS), OnDisk(WriteBody(1, true)), OnDisk(WriteMeta(1, true)),
    OnDisk(Decide(1)), OnDisk(LandBody(1, true)), OnDisk(LandMeta(1, true)), UnderLock(InvalidateTarget(ByTag(TAG))),
    CrashAndBoot(BUILD, {}, [COPY])]

  lemma EmptyDirectory(cfg: Config)
    ensures FirstBoot(cfg, System(BOOTED, EMPTY, BUILD))
  {
    var files: map<FileName, File> := map[];
    assert Directory(cfg, files, BUILD, {}) && Found(files, BUILD, {}, []);
    assert SavedBefore(cfg, files) == {};
    assert Newest([]) == [] && KeySeq(Evicted([])) == [] && multiset(KeySeq(Evicted([]))) == multiset{};
    assert Cleaned(files, BUILD, {}) == map[];
    assert Reboot(Before(files, {}, 0), BUILD, {}, []) == System(BOOTED, EMPTY, BUILD);
  }

  lemma LockSteps(cfg: Config)
    requires cfg.tagsOf(BUILD, KEY) == [TAG]
    ensures SystemEnabled(cfg, TRACE[0], ACTIONS[0]) && SystemStep(cfg, TRACE[0], ACTIONS[0]) == TRACE[1]
    ensures SystemEnabled(cfg, TRACE[1], ACTIONS[1]) && SystemStep(cfg, TRACE[1], ACTIONS[1]) == TRACE[2]
    ensures SystemEnabled(cfg, TRACE[7], ACTIONS[7]) && SystemStep(cfg, TRACE[7], ACTIONS[7]) == TRACE[8]
  {
    hide Step, EffectOf, Apply, CanFinish, MetaOf;
    Asks();
    NothingApplied();
    Stores();
    SaveBegins();
    Drops();
    SweepQueued();
  }

  lemma NothingApplied()
    ensures Apply(EMPTY, NO_EFFECT, BUILD) == EMPTY
  {
    assert KeysIn(multiset{}) == {};
  }

  lemma DiskSteps(cfg: Config)
    ensures forall i :: 2 <= i < 7 ==> SystemEnabled(cfg, TRACE[i], ACTIONS[i]) && SystemStep(cfg, TRACE[i], ACTIONS[i]) == TRACE[i + 1]
  {
    hide DiskStep, DiskEnabled, MetaOf;
    WritesBody();
    WritesMeta();
    Decides();
    LandsBody();
    LandsMeta();
  }

  /**
   A request, its render, the save that lands, a Revalidate, and a crash before the sweep: after
   the boot the page is cached, its pair loads, nothing is queued, and it is older than the
   invalidation that dropped it.
   */
  lemma CrashBeforeTheSweepBringsBack(cfg: Config)
    requires cfg.tagsOf(BUILD, KEY) == [TAG]
    ensures IsSystemRun(cfg, TRACE, ACTIONS)
    ensures PendingSweep(TRACE[8].d, KEY) && Find(TRACE[8].m.cache, KEY) == None
    ensures Quiet(TRACE[9].d) && Find(TRACE[9].m.cache, KEY) == Some(PAGE) && StalePair(TRACE[9], KEY)
  {
    hide SystemEnabled, SystemStep, FirstBoot, Found, ReadSaved, Cleaned, MetaOf, Reboot;
    EmptyDirectory(cfg);
    LockSteps(cfg);
    DiskSteps(cfg);
    CrashStep(cfg);
    IsStale();
  }

  lemma CrashStep(cfg: Config)
    ensures SystemEnabled(cfg, TRACE[8], ACTIONS[8]) && SystemStep(cfg, TRACE[8], ACTIONS[8]) == TRACE[9]
  {
    hide Found, Reboot, ReadSaved, MetaOf;
    PairLoads();
    ComesBack();
  }

  lemma IsStale()
    ensures StalePair(BACK, KEY)
  {
    PairLoads();
    hide ReadSaved;
    assert Invalidation(ByTag(TAG), 3, {Render(KEY, 1)}) in BACK.m.invalidations;
  }

  // ---- a pair that one boot could not read ------------------------------------------------------

  const AWAY := Disk(map[], 0, multiset{}, None, map[], map[], PAIR, {KEY}, {SavedCopy(BUILD, COPY)})
  const NAMED := Memory([], map[], map[], map[], 3, {Invalidation(ByTag(TAG), 2, {})}, {}, {})
  const RETURNED := System(
    Memory([COPY], map[], map[], map[], 4, {Invalidation(ByTag(TAG), 2, {Render(KEY, 1)})}, {}, {}),
    Disk(map[], 0, multiset{}, None, map[], map[], PAIR, {}, {SavedCopy(BUILD, COPY)}), BUILD)

  const UNREAD_TRACE := [System(Memory([], map[], map[], map[], 2, {}, {}, {}), AWAY, BUILD), System(NAMED, AWAY, BUILD), RETURNED]
  const UNREAD_ACTIONS := [UnderLock(InvalidateTarget(ByTag(TAG))), CrashAndBoot(BUILD, {}, [COPY])]

  lemma PairIsDirectory(cfg: Config)
    requires cfg.tagsOf(BUILD, KEY) == [TAG]
    ensures Directory(cfg, PAIR, BUILD, {KEY}) && SavedBefore(cfg, PAIR) == {SavedCopy(BUILD, COPY)}
    ensures Found(PAIR, BUILD, {KEY}, []) && Cleaned(PAIR, BUILD, {KEY}) == PAIR
  {
    assert Rounded(PAGE) == PAGE;
    assert forall key :: MetaName(key) in PAIR <==> key == KEY;
    assert CopyOf(MetaOf(COPY, BUILD)) == COPY;
    assert MetaName(KEY) in PAIR && AsWritten(cfg, KEY, PAIR[MetaName(KEY)].meta);
  }

  lemma BootsWithoutIt(cfg: Config)
    requires cfg.tagsOf(BUILD, KEY) == [TAG]
    ensures FirstBoot(cfg, UNREAD_TRACE[0])
  {
    hide Directory, SavedBefore, Found, Cleaned;
    PairIsDirectory(cfg);
    assert Newest([]) == [] && KeySeq(Evicted([])) == [] && multiset(KeySeq(Evicted([]))) == multiset{};
    assert Reboot(Before(PAIR, SavedBefore(cfg, PAIR), 1), BUILD, {KEY}, []) == UNREAD_TRACE[0];
  }

  lemma NamesNothing()
    ensures Step(UNREAD_TRACE[0].m, InvalidateTarget(ByTag(TAG))) == NAMED
    ensures Apply(AWAY, EffectOf(UNREAD_TRACE[0].m, InvalidateTarget(ByTag(TAG))), BUILD) == AWAY
  {
    assert TaggedKeys([], TAG) == {};
    assert Without([], {}) == [];
    assert KeysIn(multiset{}) == {};
  }

  lemma Returns()
    ensures Reboot(System(NAMED, AWAY, BUILD), BUILD, {}, [COPY]) == RETURNED
  {
    PairLoads();
    var v := Invalidation(ByTag(TAG), 2, {});
    assert COPY in [COPY] && Outlives(v, AWAY, COPY);
    assert Aged(v, AWAY, [COPY]).outlived == {Render(KEY, 1)};
    assert Newest([COPY]) == [COPY] && KeySeq(Evicted([COPY])) == [];
    assert multiset(KeySeq(Evicted([COPY]))) == multiset{};
  }

  /**
   A boot that cannot read the pair, a Revalidate, and another boot that can: nothing was queued in
   between, and the page is cached again, older than the invalidation.
   */
  lemma UnreadPairComesBack(cfg: Config)
    requires cfg.tagsOf(BUILD, KEY) == [TAG]
    ensures IsSystemRun(cfg, UNREAD_TRACE, UNREAD_ACTIONS)
    ensures Quiet(UNREAD_TRACE[1].d) && KEY in UNREAD_TRACE[1].d.unread
    ensures Quiet(UNREAD_TRACE[2].d) && Find(UNREAD_TRACE[2].m.cache, KEY) == Some(PAGE) && StalePair(UNREAD_TRACE[2], KEY)
  {
    hide FirstBoot, Found, ReadSaved, Cleaned, MetaOf, Reboot, Step, EffectOf, Apply;
    BootsWithoutIt(cfg);
    NamesNothing();
    Returns();
    PairLoads();
    ReturnsStale();
  }

  lemma ReturnsStale()
    ensures StalePair(RETURNED, KEY)
  {
    PairLoads();
    hide ReadSaved;
    assert Invalidation(ByTag(TAG), 2, {Render(KEY, 1)}) in RETURNED.m.invalidations;
  }
}
