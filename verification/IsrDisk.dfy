/** The page cache on disk (isr.go): saves, sweeps, crashes and boots, one file operation a step. */
module IsrDisk {
  import opened IsrMemory
  import opened PageCache
  import opened Wrappers

  /** The body's hash, as an injective function: it carries what it is the hash of. */
  datatype Digest = Digest(of: string)

  /** The json half of a pair: the copy without its body, and what vouches for the body. */
  datatype SavedMeta = SavedMeta(key: string, page: CachedPage, build: string, bytes: nat, sum: Digest)

  /** A copy as a boot would see it: the moment it was stored is written in milliseconds. */
  function Rounded(page: CachedPage): CachedPage {
    page.(storedAt := page.storedAt - page.storedAt % 1_000_000)
  }

  function MetaOf(item: CacheItem, build: string): SavedMeta {
    SavedMeta(item.key, Rounded(item.entry).(body := ""), build, |item.entry.body|, Digest(item.entry.body))
  }

  /** The copy a meta was written for. */
  function CopyOf(meta: SavedMeta): CacheItem {
    CacheItem(meta.key, meta.page.(body := meta.sum.of))
  }

  datatype File = Body(bytes: string) | Meta(meta: SavedMeta) | Torn

  /** A key's pair lies under the hash of the key; a save's scratch files under its generation. */
  datatype FileName = BodyName(key: string) | MetaName(key: string) | TmpBody(gen: nat) | TmpMeta(gen: nat)

  datatype SavePhase = Started | BodyWritten | MetaWritten | Landing | BodyLanded | Landed | Dropped

  datatype Save = Save(item: CacheItem, phase: SavePhase)

  /** A drain holds the keys it took until both files of each are gone. */
  datatype Drain = Drain(todo: multiset<string>, bodyGone: Option<string>)

  /** History: a copy a save of this build's process began with. */
  datatype SavedCopy = SavedCopy(build: string, item: CacheItem)

  /** The tags of a page, in a build: a page's tags do not change while its build runs. */
  datatype Config = Config(tagsOf: (string, string) -> seq<string>)

  datatype Disk = Disk(
    saveGen: map<string, nat>,
    lastGen: nat,
    sweep: multiset<string>,
    landing: Option<nat>,          // the save that holds the lock between its renames
    saves: map<nat, Save>,
    drains: map<nat, Drain>,
    files: map<FileName, File>,
    unread: set<string>,           // the keys whose pairs the last boot could not read, until one is replaced or swept
    saved: set<SavedCopy>)         // history: every copy a save began with, rounded

  /** The process that runs, and its disk. */
  datatype System = System(m: Memory, d: Disk, build: string)

  // ---- what a step under the lock leaves to the disk ------------------------------

  function KeysIn(drops: multiset<string>): (r: set<string>)
    ensures forall k :: k in r <==> k in drops
  {
    set k | k in drops
  }

  /** `forgetSaved`, for every key dropped. */
  function Forget(d: Disk, drops: multiset<string>): Disk {
    d.(saveGen := d.saveGen - KeysIn(drops), sweep := d.sweep + drops)
  }

  /** `saveEntry`, for the copy stored. */
  function BeginSave(d: Disk, item: CacheItem, build: string): Disk {
    var gen := d.lastGen + 1;
    d.(lastGen := gen,
       saveGen := d.saveGen[item.key := gen],
       saves := d.saves[gen := Save(item, Started)],
       saved := d.saved + {SavedCopy(build, CacheItem(item.key, Rounded(item.entry)))})
  }

  function Apply(d: Disk, e: Effect, build: string): Disk {
    var forgotten := Forget(d, e.drops);
    if e.saved.Some? then BeginSave(forgotten, e.saved.value, build) else forgotten
  }

  // ---- a save ----------------------------------------------------------------------

  function Advance(d: Disk, g: nat, phase: SavePhase): Disk
    requires g in d.saves
  {
    d.(saves := d.saves[g := d.saves[g].(phase := phase)])
  }

  /** The lock-held question of a landing: is the key still on this generation? */
  predicate Current(d: Disk, g: nat)
    requires g in d.saves
  {
    d.saves[g].item.key in d.saveGen && d.saveGen[d.saves[g].item.key] == g
  }

  datatype DiskAction =
    | WriteBody(g: nat, ok: bool)
    | WriteMeta(g: nat, ok: bool)
    | Decide(g: nat)
    | LandBody(g: nat, ok: bool)
    | LandMeta(g: nat, ok: bool)
    | RemoveScratch(g: nat, name: FileName)
    | TakeSweep(id: nat)
    | SweepBody(id: nat, key: string)
    | SweepMeta(id: nat)

  predicate InPhase(d: Disk, g: nat, phase: SavePhase) {
    g in d.saves && d.saves[g].phase == phase
  }

  predicate DiskEnabled(d: Disk, a: DiskAction) {
    match a
    case WriteBody(g, _) => InPhase(d, g, Started)
    case WriteMeta(g, _) => InPhase(d, g, BodyWritten)
    case Decide(g) => InPhase(d, g, MetaWritten) && d.landing.None?
    case LandBody(g, _) => InPhase(d, g, Landing) && TmpBody(g) in d.files
    case LandMeta(g, _) => InPhase(d, g, BodyLanded) && TmpMeta(g) in d.files
    case RemoveScratch(g, name) => InPhase(d, g, Dropped) && (name == TmpBody(g) || name == TmpMeta(g))
    case TakeSweep(id) => d.landing.None? && id !in d.drains
    case SweepBody(id, key) => id in d.drains && key in d.drains[id].todo && d.drains[id].bodyGone.None?
    case SweepMeta(id) => id in d.drains && d.drains[id].bodyGone.Some? && d.drains[id].bodyGone.value in d.drains[id].todo
  }

  function DiskStep(build: string, d: Disk, a: DiskAction): Disk
    requires DiskEnabled(d, a)
  {
    match a
    case WriteBody(g, ok) =>
      Advance(d, g, if ok then BodyWritten else Dropped).(
        files := d.files[TmpBody(g) := if ok then Body(d.saves[g].item.entry.body) else Torn])
    case WriteMeta(g, ok) =>
      Advance(d, g, if ok then MetaWritten else Dropped).(
        files := d.files[TmpMeta(g) := if ok then Meta(MetaOf(d.saves[g].item, build)) else Torn])
    case Decide(g) =>
      if Current(d, g) then Advance(d, g, Landing).(landing := Some(g)) else Advance(d, g, Dropped)
    case LandBody(g, ok) =>
      if ok then Advance(d, g, BodyLanded).(
                   files := (d.files - {TmpBody(g)})[BodyName(d.saves[g].item.key) := d.files[TmpBody(g)]])
      else Advance(d, g, Dropped).(landing := None)
    case LandMeta(g, ok) =>
      if ok then Advance(d, g, Landed).(
                   landing := None, unread := d.unread - {d.saves[g].item.key},
                   files := (d.files - {TmpMeta(g)})[MetaName(d.saves[g].item.key) := d.files[TmpMeta(g)]])
      else Advance(d, g, Dropped).(landing := None)
    case RemoveScratch(g, name) =>
      d.(files := d.files - {name})
    case TakeSweep(id) =>
      d.(sweep := multiset{}, drains := d.drains[id := Drain(d.sweep, None)])
    case SweepBody(id, key) =>
      d.(files := d.files - {BodyName(key)}, drains := d.drains[id := d.drains[id].(bodyGone := Some(key))])
    case SweepMeta(id) =>
      var key := d.drains[id].bodyGone.value;
      d.(files := d.files - {MetaName(key)}, unread := d.unread - {key},
         drains := d.drains[id := Drain(d.drains[id].todo - multiset{key}, None)])
  }

  // ---- a boot -----------------------------------------------------------------------

  datatype Verdict = Load(page: CachedPage) | Sweep

  /** `readSaved`, on a disk that can be read: wrong build, malformed, torn or mismatched goes. */
  function ReadSaved(files: map<FileName, File>, key: string, build: string): Verdict {
    if MetaName(key) !in files || !files[MetaName(key)].Meta? then Sweep
    else
      var meta := files[MetaName(key)].meta;
      if meta.build != build || meta.key == "" || meta.page.status == 0 then Sweep
      else if BodyName(key) !in files || !files[BodyName(key)].Body? then Sweep
      else
        var body := files[BodyName(key)].bytes;
        if |body| != meta.bytes || Digest(body) != meta.sum then Sweep
        else Load(meta.page.(body := body))
  }

  predicate Loadable(files: map<FileName, File>, key: string, build: string) {
    ReadSaved(files, key, build).Load?
  }

  /** The pairs that would load hold the keys their files are named for. */
  ghost predicate NamedForTheirKeys(files: map<FileName, File>, build: string) {
    forall key :: Loadable(files, key, build) ==> files[MetaName(key)].meta.key == key
  }

  predicate OldestFirst(items: seq<CacheItem>) {
    forall i, j :: 0 <= i < j < |items| ==> items[i].entry.storedAt <= items[j].entry.storedAt
  }

  /** Any pair may fail to be read for a while; a body alone is not looked at. */
  predicate MayBeUnread(files: map<FileName, File>, unread: set<string>) {
    forall key :: key in unread ==> MetaName(key) in files
  }

  /** The copies a boot finds, in the order it stores them: all it would load, of the pairs it can read. */
  ghost predicate Found(files: map<FileName, File>, build: string, unread: set<string>, items: seq<CacheItem>) {
    && DistinctKeys(items) && OldestFirst(items)
    && (forall item :: item in items ==> item.key !in unread && ReadSaved(files, item.key, build) == Load(item.entry))
    && (forall key :: Loadable(files, key, build) && key !in unread ==> key in KeysOf(items))
  }

  /** What is left on disk: the pairs that were loaded, those that could not be read, and nothing else. */
  predicate Kept(files: map<FileName, File>, build: string, unread: set<string>, name: FileName) {
    match name
    case BodyName(key) => Loadable(files, key, build) || key in unread
    case MetaName(key) => Loadable(files, key, build) || key in unread
    case _ => false
  }

  function Cleaned(files: map<FileName, File>, build: string, unread: set<string>): map<FileName, File> {
    map name | name in files && Kept(files, build, unread, name) :: files[name]
  }

  /** Nothing queued for removal, and nothing held by a drain. */
  predicate Quiet(d: Disk) {
    d.sweep == multiset{} && forall id :: id in d.drains ==> d.drains[id].todo == multiset{}
  }

  ghost predicate PendingSweep(d: Disk, k: string) {
    k in d.sweep || exists id :: id in d.drains && k in d.drains[id].todo
  }

  /** The key's pair may lie on disk without being the cached copy's: it waits to be swept, or was not read. */
  ghost predicate AtLarge(d: Disk, k: string) {
    PendingSweep(d, k) || k in d.unread
  }

  /** A copy that was invalidated, whose pair a crash left at large. */
  ghost predicate Outlives(v: Invalidation, d: Disk, item: CacheItem) {
    AtLarge(d, item.key) && Names(v.what, item.key, item.entry.tags) && item.entry.flight <= v.at
  }

  /** What a boot brings back, written beside the invalidation it outlived. */
  ghost function Aged(v: Invalidation, d: Disk, items: seq<CacheItem>): Invalidation {
    v.(outlived := v.outlived + set item | item in items && Outlives(v, d, item) :: Render(item.key, item.entry.flight))
  }

  /**
   A crash at any moment, and the boot after it, of the same build or of another. The log of
   invalidations and the answers given are history, and stay.
   */
  ghost function Reboot(s: System, build: string, unread: set<string>, items: seq<CacheItem>): System {
    System(
      Memory(Newest(items), map[], map[], map[], s.m.clock + 1,
             set v | v in s.m.invalidations :: Aged(v, s.d, items), {}, s.m.answers),
      Disk(map[], 0, multiset(KeySeq(Evicted(items))), None, map[], map[], Cleaned(s.d.files, build, unread), unread, s.d.saved),
      build)
  }

  // ---- the whole system -----------------------------------------------------------

  datatype SystemAction =
    | UnderLock(a: Action)
    | OnDisk(op: DiskAction)
    | CrashAndBoot(build: string, unread: set<string>, items: seq<CacheItem>)

  ghost predicate SystemEnabled(cfg: Config, s: System, a: SystemAction) {
    match a
    case UnderLock(act) =>
      && s.d.landing.None? && Enabled(s.m, act)
      && (act.HandleRequest? ==> act.policy.tags == cfg.tagsOf(s.build, act.key))
    case OnDisk(op) => DiskEnabled(s.d, op)
    case CrashAndBoot(build, unread, items) => MayBeUnread(s.d.files, unread) && Found(s.d.files, build, unread, items)
  }

  ghost function SystemStep(cfg: Config, s: System, a: SystemAction): System
    requires SystemEnabled(cfg, s, a)
  {
    match a
    case UnderLock(act) => System(Step(s.m, act), Apply(s.d, EffectOf(s.m, act), s.build), s.build)
    case OnDisk(op) => System(s.m, DiskStep(s.build, s.d, op), s.build)
    case CrashAndBoot(build, unread, items) => Reboot(s, build, unread, items)
  }

  /** No process: a directory as somebody left it, and what is taken to have been saved there. */
  function Before(files: map<FileName, File>, saved: set<SavedCopy>, clock: nat): System {
    System(Memory([], map[], map[], map[], clock, {}, {}, {}),
           Disk(map[], 0, multiset{}, None, map[], map[], files, {}, saved), "")
  }

  /** A meta as a save spells it: under its own key's name, its time in milliseconds, no body but its length and hash. */
  predicate AsWritten(cfg: Config, key: string, meta: SavedMeta) {
    && meta.key == key && meta.page.body == "" && meta.page.storedAt % 1_000_000 == 0
    && meta.page.tags == cfg.tagsOf(meta.build, key) && meta.bytes == |meta.sum.of|
  }

  /** Anything may lie in the directory; what the build would load is a pair of that build, and what is not read one of some build. */
  ghost predicate Directory(cfg: Config, files: map<FileName, File>, build: string, unread: set<string>) {
    && MayBeUnread(files, unread)
    && (forall k :: Loadable(files, k, build) ==> AsWritten(cfg, k, files[MetaName(k)].meta))
    && (forall k :: k in unread && files[MetaName(k)].Meta? ==> AsWritten(cfg, k, files[MetaName(k)].meta))
  }

  /** The copies of the metas in the directory, as far as they are metas. */
  function SavedBefore(cfg: Config, files: map<FileName, File>): set<SavedCopy> {
    set name | name in files && name.MetaName? && files[name].Meta? && AsWritten(cfg, name.key, files[name].meta) ::
      SavedCopy(files[name].meta.build, CopyOf(files[name].meta))
  }

  /** The first boot, over any directory: the pairs it finds are taken to have been saved before. */
  ghost predicate FirstBoot(cfg: Config, s: System) {
    exists files, clock: nat, items ::
      && Directory(cfg, files, s.build, s.d.unread) && Found(files, s.build, s.d.unread, items)
      && s == Reboot(Before(files, SavedBefore(cfg, files), clock), s.build, s.d.unread, items)
  }

  ghost predicate IsSystemRun(cfg: Config, trace: seq<System>, actions: seq<SystemAction>) {
    && |trace| == |actions| + 1
    && FirstBoot(cfg, trace[0])
    && forall i :: 0 <= i < |actions| ==>
         SystemEnabled(cfg, trace[i], actions[i]) && trace[i + 1] == SystemStep(cfg, trace[i], actions[i])
  }
}
