/** A pair on disk (isr.go): which files each operation touches, what loads, and that a save which lands is what loads. */
module IsrPairs {
  import opened IsrDisk
  import opened IsrDurability
  import opened IsrMemory
  import opened IsrSaves
  import opened PageCache
  import opened Wrappers

  // ---- what each operation touches -----------------------------------------------------

  /** The files an operation may touch: a save's own, and the pair of its key or of the key swept. */
  function Touches(d: Disk, a: DiskAction): set<FileName>
    requires DiskEnabled(d, a)
  {
    match a
    case WriteBody(g, _) => {TmpBody(g)}
    case WriteMeta(g, _) => {TmpMeta(g)}
    case Decide(_) => {}
    case LandBody(g, _) => {TmpBody(g), BodyName(d.saves[g].item.key)}
    case LandMeta(g, _) => {TmpMeta(g), MetaName(d.saves[g].item.key)}
    case RemoveScratch(g, _) => {TmpBody(g), TmpMeta(g)}
    case TakeSweep(_) => {}
    case SweepBody(_, key) => {BodyName(key)}
    case SweepMeta(id) => {MetaName(d.drains[id].bodyGone.value)}
  }

  lemma StepTouches(build: string, d: Disk, a: DiskAction, name: FileName)
    requires DiskEnabled(d, a) && name !in Touches(d, a)
    ensures name in DiskStep(build, d, a).files <==> name in d.files
    ensures name in d.files ==> DiskStep(build, d, a).files[name] == d.files[name]
  {
    hide MetaOf, Current;
  }

  /** The files it takes away. */
  function Removes(d: Disk, a: DiskAction): set<FileName>
    requires DiskEnabled(d, a)
  {
    match a
    case LandBody(g, ok) => if ok then {TmpBody(g)} else {}
    case LandMeta(g, ok) => if ok then {TmpMeta(g)} else {}
    case RemoveScratch(_, name) => {name}
    case SweepBody(_, key) => {BodyName(key)}
    case SweepMeta(id) => {MetaName(d.drains[id].bodyGone.value)}
    case _ => {}
  }

  lemma StepRemoves(build: string, d: Disk, a: DiskAction, name: FileName)
    requires DiskEnabled(d, a) && name in Touches(d, a)
    ensures name in Removes(d, a) ==> name !in DiskStep(build, d, a).files
    ensures name !in Removes(d, a) && name in d.files ==> name in DiskStep(build, d, a).files
  {
    hide MetaOf, Current;
  }

  /** A pair that could not be read stays so until its meta is replaced or swept. */
  lemma UnreadUntilTouched(build: string, d: Disk, a: DiskAction, key: string)
    requires DiskEnabled(d, a)
    ensures key in DiskStep(build, d, a).unread <==>
              key in d.unread && !(MetaName(key) in Touches(d, a) && (a.LandMeta? ==> a.ok))
  {
    hide MetaOf, Current;
  }

  // ---- what loads ------------------------------------------------------------------------

  /** A body and the meta that vouches for it: its length, its hash, the build, a key and a status. */
  predicate Vouched(meta: SavedMeta, body: string, build: string) {
    && meta.bytes == |body| && meta.sum == Digest(body)
    && meta.build == build && meta.key != "" && meta.page.status != 0
  }

  /** Exactly what a boot can load of a key, and as what: the copy of the meta, with that body. */
  lemma LoadsIs(files: map<FileName, File>, key: string, build: string, page: CachedPage)
    ensures ReadSaved(files, key, build) == Load(page) <==>
              exists meta, body ::
                && MetaName(key) in files && files[MetaName(key)] == Meta(meta)
                && BodyName(key) in files && files[BodyName(key)] == Body(body)
                && Vouched(meta, body, build) && page == meta.page.(body := body)
  {
  }

  // ---- a save that lands ------------------------------------------------------------------

  /** The body of generation `g` is in place, and its meta is to follow. */
  ghost predicate HalfLanded(d: Disk, g: nat, item: CacheItem) {
    && g in d.saves && d.saves[g] == Save(item, BodyLanded) && d.landing == Some(g)
    && BodyName(item.key) in d.files && d.files[BodyName(item.key)] == Body(item.entry.body)
  }

  /** A sweep that takes the key's body away. */
  predicate SweepsBodyOf(a: SystemAction, key: string) {
    a.OnDisk? && a.op.SweepBody? && a.op.key == key
  }

  lemma BodyLands(cfg: Config, s: System, g: nat)
    requires SystemSound(cfg, s) && SystemEnabled(cfg, s, OnDisk(LandBody(g, true)))
    ensures HalfLanded(SystemStep(cfg, s, OnDisk(LandBody(g, true))).d, g, s.d.saves[g].item)
  {
    assert ScratchOf(s.d, g, s.build);
    hide MetaOf, Sound, TagsSound, GensSound, ScratchSound, MetasSound, PairsSound, OutlivedSound, Current;
  }

  lemma StaysHalfLanded(cfg: Config, s: System, a: SystemAction, g: nat, item: CacheItem)
    requires SystemSound(cfg, s) && SystemEnabled(cfg, s, a) && HalfLanded(s.d, g, item)
    requires !a.CrashAndBoot? && !SweepsBodyOf(a, item.key)
    ensures HalfLanded(SystemStep(cfg, s, a).d, g, item) || (a.OnDisk? && a.op.LandMeta? && a.op.g == g)
  {
    hide Sound, TagsSound, GensSound, MetasSound, PairsSound, OutlivedSound, Step, Enabled, EffectOf, Apply, MetaOf, Current;
    if a.OnDisk? {
      HalfLandedOnDisk(s.build, s.d, a.op, g, item);
    }
  }

  lemma HalfLandedOnDisk(build: string, d: Disk, a: DiskAction, g: nat, item: CacheItem)
    requires ScratchSound(d, build) && DiskEnabled(d, a) && HalfLanded(d, g, item)
    requires !(a.SweepBody? && a.key == item.key)
    ensures HalfLanded(DiskStep(build, d, a), g, item) || (a.LandMeta? && a.g == g)
  {
    if a.LandBody? || a.LandMeta? {
      assert ScratchOf(d, a.g, build);
    }
    hide MetaOf, Current, ScratchSound, ScratchOf;
  }

  /** No crash, and no sweep of the key's body, between the two. */
  predicate Undisturbed(actions: seq<SystemAction>, from: nat, to: nat, key: string) {
    forall j :: from <= j < to && j < |actions| ==> !actions[j].CrashAndBoot? && !SweepsBodyOf(actions[j], key)
  }

  predicate NotYetLanded(actions: seq<SystemAction>, from: nat, to: nat, g: nat) {
    forall j :: from <= j < to && j < |actions| ==> !(actions[j].OnDisk? && actions[j].op.LandMeta? && actions[j].op.g == g)
  }

  lemma {:induction false} HalfLandedUntil(cfg: Config, trace: seq<System>, actions: seq<SystemAction>, i: nat, j: nat, g: nat, item: CacheItem)
    requires IsSystemRun(cfg, trace, actions) && i < j <= |actions| && actions[i] == OnDisk(LandBody(g, true))
    requires g in trace[i].d.saves && trace[i].d.saves[g].item == item
    requires Undisturbed(actions, i, j, item.key) && NotYetLanded(actions, i, j, g)
    ensures HalfLanded(trace[j].d, g, item)
    decreases j
  {
    hide SystemSound, SystemEnabled, SystemStep, FirstBoot, HalfLanded;
    var m := j - 1;
    EverySystemIsSound(cfg, trace, actions, m);
    assert SystemEnabled(cfg, trace[m], actions[m]) && trace[j] == SystemStep(cfg, trace[m], actions[m]);
    if m == i {
      BodyLands(cfg, trace[i], g);
    } else {
      HalfLandedUntil(cfg, trace, actions, i, m, g, item);
      StaysHalfLanded(cfg, trace[m], actions[m], g, item);
    }
  }

  lemma MetaLands(cfg: Config, s: System, g: nat, item: CacheItem)
    requires SystemSound(cfg, s) && SystemEnabled(cfg, s, OnDisk(LandMeta(g, true))) && HalfLanded(s.d, g, item)
    requires item.key != "" && item.entry.status != 0
    ensures ReadSaved(SystemStep(cfg, s, OnDisk(LandMeta(g, true))).d.files, item.key, s.build) ==
            Load(item.entry.(storedAt := item.entry.storedAt - item.entry.storedAt % 1_000_000))
  {
    hide Sound, TagsSound, GensSound, MetasSound, PairsSound, OutlivedSound, Current, ReadSaved, DiskStep, DiskEnabled;
    MetaLandsOnDisk(s.build, s.d, g, item);
    WholePairLoads(DiskStep(s.build, s.d, LandMeta(g, true)).files, item, s.build);
  }

  lemma MetaLandsOnDisk(build: string, d: Disk, g: nat, item: CacheItem)
    requires ScratchSound(d, build) && DiskEnabled(d, LandMeta(g, true)) && HalfLanded(d, g, item)
    ensures var files := DiskStep(build, d, LandMeta(g, true)).files;
            && MetaName(item.key) in files && files[MetaName(item.key)] == Meta(MetaOf(item, build))
            && BodyName(item.key) in files && files[BodyName(item.key)] == Body(item.entry.body)
  {
    assert ScratchOf(d, g, build);
    hide MetaOf, Current, ScratchSound;
  }

  lemma WholePairLoads(files: map<FileName, File>, item: CacheItem, build: string)
    requires item.key != "" && item.entry.status != 0
    requires MetaName(item.key) in files && files[MetaName(item.key)] == Meta(MetaOf(item, build))
    requires BodyName(item.key) in files && files[BodyName(item.key)] == Body(item.entry.body)
    ensures ReadSaved(files, item.key, build) ==
            Load(item.entry.(storedAt := item.entry.storedAt - item.entry.storedAt % 1_000_000))
  {
  }

  /**
   Durability: a save whose body and meta both land is what a boot of its build loads, as it was
   stored and with its time in milliseconds - unless a sweep of the same key took the body in between.
   */
  lemma LandedIsLoaded(cfg: Config, trace: seq<System>, actions: seq<SystemAction>, i: nat, j: nat, g: nat, item: CacheItem)
    requires IsSystemRun(cfg, trace, actions) && i < j < |actions|
    requires actions[i] == OnDisk(LandBody(g, true)) && actions[j] == OnDisk(LandMeta(g, true))
    requires g in trace[i].d.saves && trace[i].d.saves[g].item == item && item.key != "" && item.entry.status != 0
    requires Undisturbed(actions, i, j, item.key) && NotYetLanded(actions, i, j, g)
    ensures ReadSaved(trace[j + 1].d.files, item.key, trace[j].build) ==
            Load(item.entry.(storedAt := item.entry.storedAt - item.entry.storedAt % 1_000_000))
  {
    hide SystemSound, SystemEnabled, SystemStep, FirstBoot, HalfLanded, ReadSaved, Undisturbed, NotYetLanded;
    HalfLandedUntil(cfg, trace, actions, i, j, g, item);
    EverySystemIsSound(cfg, trace, actions, j);
    assert SystemEnabled(cfg, trace[j], actions[j]) && trace[j + 1] == SystemStep(cfg, trace[j], actions[j]);
    MetaLands(cfg, trace[j], g, item);
  }

  // ---- nothing is ever stuck -----------------------------------------------------------------

  /** What a save can do next, in each of its phases; one that has its files waits only while another lands. */
  ghost predicate GoesOn(d: Disk, g: nat, ok: bool)
    requires g in d.saves
  {
    match d.saves[g].phase
    case Started => DiskEnabled(d, WriteBody(g, ok))
    case BodyWritten => DiskEnabled(d, WriteMeta(g, ok))
    case MetaWritten => DiskEnabled(d, Decide(g)) || exists h :: Lands(d, h, ok) && h != g
    case Landing => DiskEnabled(d, LandBody(g, ok))
    case BodyLanded => DiskEnabled(d, LandMeta(g, ok))
    case Landed => true
    case Dropped => DiskEnabled(d, RemoveScratch(g, TmpBody(g))) && DiskEnabled(d, RemoveScratch(g, TmpMeta(g)))
  }

  predicate Lands(d: Disk, h: nat, ok: bool) {
    DiskEnabled(d, LandBody(h, ok)) || DiskEnabled(d, LandMeta(h, ok))
  }

  lemma LandingLands(d: Disk, build: string, ok: bool)
    requires ScratchSound(d, build) && d.landing.Some?
    ensures d.landing.value in d.saves && d.saves[d.landing.value].phase in {Landing, BodyLanded} && Lands(d, d.landing.value, ok)
  {
    assert ScratchOf(d, d.landing.value, build);
    hide MetaOf, Current;
  }

  lemma SaveGoesOn(d: Disk, build: string, g: nat, ok: bool)
    requires ScratchSound(d, build) && g in d.saves
    ensures GoesOn(d, g, ok)
  {
    assert ScratchOf(d, g, build);
    if d.landing.Some? {
      LandingLands(d, build, ok);
    }
    hide MetaOf, Current, ScratchSound, Lands;
  }

  /** Over every run: a save goes on, whether its operations fail or not. */
  lemma SavesGoOn(cfg: Config, trace: seq<System>, actions: seq<SystemAction>, i: nat, g: nat, ok: bool)
    requires IsSystemRun(cfg, trace, actions) && i < |trace| && g in trace[i].d.saves
    ensures GoesOn(trace[i].d, g, ok)
  {
    hide IsSystemRun, GoesOn, ScratchSound, Sound, TagsSound, GensSound, MetasSound, PairsSound, OutlivedSound;
    EverySystemIsSound(cfg, trace, actions, i);
    SaveGoesOn(trace[i].d, trace[i].build, g, ok);
  }

  /** A drain between the two halves of a pair still holds its key. */
  ghost predicate DrainsSound(d: Disk) {
    forall id :: id in d.drains && d.drains[id].bodyGone.Some? ==> d.drains[id].bodyGone.value in d.drains[id].todo
  }

  lemma DrainsStaySound(cfg: Config, s: System, a: SystemAction)
    requires DrainsSound(s.d) && SystemEnabled(cfg, s, a)
    ensures DrainsSound(SystemStep(cfg, s, a).d)
  {
    hide MetaOf, Current, Step, Enabled, EffectOf, DiskStep, DiskEnabled;
    if a.OnDisk? {
      DrainsStaySoundOnDisk(s.build, s.d, a.op);
    }
  }

  lemma DrainsStaySoundOnDisk(build: string, d: Disk, a: DiskAction)
    requires DrainsSound(d) && DiskEnabled(d, a)
    ensures DrainsSound(DiskStep(build, d, a))
  {
    hide MetaOf, Current, InPhase;
  }

  lemma {:induction false} DrainsAreSound(cfg: Config, trace: seq<System>, actions: seq<SystemAction>, i: nat)
    requires IsSystemRun(cfg, trace, actions) && i < |trace|
    ensures DrainsSound(trace[i].d)
  {
    hide SystemStep, SystemEnabled, DrainsSound;
    if i == 0 {
      FirstDrains(cfg, trace[0]);
    } else {
      var m := i - 1;
      assert SystemEnabled(cfg, trace[m], actions[m]) && trace[i] == SystemStep(cfg, trace[m], actions[m]);
      DrainsAreSound(cfg, trace, actions, m);
      DrainsStaySound(cfg, trace[m], actions[m]);
    }
  }

  lemma FirstDrains(cfg: Config, s: System)
    requires FirstBoot(cfg, s)
    ensures DrainsSound(s.d)
  {
  }

  /** Over every run: what is queued for sweeping can be taken as soon as no save lands, and a drain goes on until all it took is gone. */
  lemma DrainsGoOn(cfg: Config, trace: seq<System>, actions: seq<SystemAction>, i: nat, id: nat)
    requires IsSystemRun(cfg, trace, actions) && i < |trace|
    ensures trace[i].d.landing.None? && id !in trace[i].d.drains ==> DiskEnabled(trace[i].d, TakeSweep(id))
    ensures id in trace[i].d.drains && trace[i].d.drains[id].todo != multiset{} ==>
              || DiskEnabled(trace[i].d, SweepMeta(id))
              || exists key :: DiskEnabled(trace[i].d, SweepBody(id, key))
  {
    DrainsAreSound(cfg, trace, actions, i);
    var d := trace[i].d;
    hide IsSystemRun;
    if id in d.drains && d.drains[id].todo != multiset{} && d.drains[id].bodyGone.None? {
      var key :| key in d.drains[id].todo;
      assert DiskEnabled(d, SweepBody(id, key));
    }
  }

  // ---- a sweep ---------------------------------------------------------------------------------

  /** A step of this drain's, or the end of it. */
  predicate SweepsOf(a: SystemAction, id: nat) {
    a.CrashAndBoot? || (a.OnDisk? && (a.op.SweepBody? || a.op.SweepMeta?) && a.op.id == id)
  }

  /** The last this drain did was to remove the body of `key`. */
  ghost predicate HalfSwept(actions: seq<SystemAction>, i: nat, j: nat, id: nat, key: string) {
    && i < j <= |actions| && actions[i] == OnDisk(SweepBody(id, key))
    && forall m :: i < m < j ==> !SweepsOf(actions[m], id)
  }

  predicate BodyGone(d: Disk, id: nat, key: string) {
    id in d.drains && d.drains[id].bodyGone == Some(key)
  }

  lemma BodyGoneNext(cfg: Config, s: System, a: SystemAction, id: nat, key: string)
    requires SystemEnabled(cfg, s, a)
    ensures BodyGone(SystemStep(cfg, s, a).d, id, key) <==>
              a == OnDisk(SweepBody(id, key)) || (BodyGone(s.d, id, key) && !SweepsOf(a, id))
  {
    hide MetaOf, Current, Step, Enabled, EffectOf, DiskStep, DiskEnabled;
    if a.OnDisk? {
      BodyGoneOnDisk(s.build, s.d, a.op, id, key);
    }
  }

  lemma BodyGoneOnDisk(build: string, d: Disk, a: DiskAction, id: nat, key: string)
    requires DiskEnabled(d, a)
    ensures BodyGone(DiskStep(build, d, a), id, key) <==>
              a == SweepBody(id, key) || (BodyGone(d, id, key) && !((a.SweepBody? || a.SweepMeta?) && a.id == id))
  {
    hide MetaOf, Current, InPhase;
  }

  lemma NoneGone(cfg: Config, s: System, id: nat, key: string)
    requires FirstBoot(cfg, s)
    ensures !BodyGone(s.d, id, key)
  {
  }

  lemma {:induction false} GoneIffHalfSwept(cfg: Config, trace: seq<System>, actions: seq<SystemAction>, j: nat, id: nat, key: string)
    requires IsSystemRun(cfg, trace, actions) && j < |trace|
    ensures BodyGone(trace[j].d, id, key) <==> exists i: nat :: HalfSwept(actions, i, j, id, key)
  {
    hide SystemStep, SystemEnabled, BodyGone;
    if j == 0 {
      NoneGone(cfg, trace[0], id, key);
    } else {
      var m := j - 1;
      assert SystemEnabled(cfg, trace[m], actions[m]) && trace[j] == SystemStep(cfg, trace[m], actions[m]);
      GoneIffHalfSwept(cfg, trace, actions, m, id, key);
      BodyGoneNext(cfg, trace[m], actions[m], id, key);
      if BodyGone(trace[m].d, id, key) && !SweepsOf(actions[m], id) {
        var i: nat :| HalfSwept(actions, i, m, id, key);
        assert HalfSwept(actions, i, j, id, key);
      } else if actions[m] == OnDisk(SweepBody(id, key)) {
        assert HalfSwept(actions, m, j, id, key);
      }
      if i: nat :| HalfSwept(actions, i, j, id, key) {
        if i < m {
          assert HalfSwept(actions, i, m, id, key);
        }
      }
    }
  }

  /** Over every run: a drain removes the meta of the pair whose body it removed last, and then is done with that key. */
  lemma MetaFollowsBody(cfg: Config, trace: seq<System>, actions: seq<SystemAction>, j: nat, id: nat)
    requires IsSystemRun(cfg, trace, actions) && j < |actions| && actions[j] == OnDisk(SweepMeta(id))
    ensures exists i: nat, key :: HalfSwept(actions, i, j, id, key) && DoneWith(trace[j].d, trace[j + 1].d, id, key)
  {
    var d, build := trace[j].d, trace[j].build;
    assert DiskEnabled(d, SweepMeta(id)) && trace[j + 1].d == DiskStep(build, d, SweepMeta(id)) by {
      assert SystemEnabled(cfg, trace[j], actions[j]) && trace[j + 1] == SystemStep(cfg, trace[j], actions[j]);
    }
    hide IsSystemRun, HalfSwept;
    var key := d.drains[id].bodyGone.value;
    GoneIffHalfSwept(cfg, trace, actions, j, id, key);
    var i: nat :| HalfSwept(actions, i, j, id, key);
    MetaGoes(build, d, id);
  }

  ghost predicate DoneWith(d: Disk, d': Disk, id: nat, key: string) {
    && MetaName(key) !in d'.files && id in d.drains && id in d'.drains
    && key in d.drains[id].todo && d'.drains[id].todo == d.drains[id].todo - multiset{key}
  }

  lemma MetaGoes(build: string, d: Disk, id: nat)
    requires DiskEnabled(d, SweepMeta(id))
    ensures DoneWith(d, DiskStep(build, d, SweepMeta(id)), id, d.drains[id].bodyGone.value)
  {
  }

  /** And one pair at a time: it removes no other body before that. */
  lemma OnePairAtATime(cfg: Config, trace: seq<System>, actions: seq<SystemAction>, j: nat, id: nat, key: string)
    requires IsSystemRun(cfg, trace, actions) && j < |actions| && actions[j] == OnDisk(SweepBody(id, key))
    ensures forall i: nat, k :: !HalfSwept(actions, i, j, id, k)
  {
    assert DiskEnabled(trace[j].d, SweepBody(id, key)) by {
      assert SystemEnabled(cfg, trace[j], actions[j]);
    }
    hide IsSystemRun, HalfSwept;
    forall i: nat, k ensures !HalfSwept(actions, i, j, id, k) {
      GoneIffHalfSwept(cfg, trace, actions, j, id, k);
    }
  }

  /** How often a key waits for its sweep, in the queue or with this drain. */
  function Waiting(d: Disk, id: nat, key: string): nat {
    d.sweep[key] + if id in d.drains then d.drains[id].todo[key] else 0
  }

  /** What is queued for sweeping is taken whole, and neither lost nor done twice: a key stops waiting only when its meta goes. */
  lemma QueueIsConserved(build: string, d: Disk, a: DiskAction, id: nat, key: string)
    requires DiskEnabled(d, a) && (a.TakeSweep? ==> a.id == id)
    ensures Waiting(DiskStep(build, d, a), id, key) ==
            Waiting(d, id, key) - if a == SweepMeta(id) && BodyGone(d, id, key) then 1 else 0
    ensures DiskStep(build, d, a).sweep == if a.TakeSweep? then multiset{} else d.sweep
  {
    hide MetaOf, Current, InPhase;
  }

  // ---- what a boot keeps ---------------------------------------------------------------------

  /** Past 512 copies the oldest are left out: none that is left out was stored after one that is kept. */
  lemma BootKeepsTheNewest(cfg: Config, trace: seq<System>, actions: seq<SystemAction>, i: nat, kept: CacheItem, out: CacheItem)
    requires IsSystemRun(cfg, trace, actions) && i < |actions| && actions[i].CrashAndBoot?
    requires kept in trace[i + 1].m.cache && out in actions[i].items && out !in trace[i + 1].m.cache
    ensures |trace[i + 1].m.cache| == 512 && out.entry.storedAt <= kept.entry.storedAt
  {
    BootRestores(cfg, trace, actions, i);
    var items := actions[i].items;
    hide IsSystemRun, ReadSaved, Names, Loadable, StalePair, StalePairOf;
    var x :| 0 <= x < |items| && items[x] == out;
    var y :| 0 <= y < |Newest(items)| && Newest(items)[y] == kept;
  }
}
