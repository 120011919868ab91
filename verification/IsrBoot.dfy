/**
 `loadSaved` (isr.go): a boot reads the directory it finds.

 It keeps the pairs that are whole and of this build and those it cannot read, removes everything
 else, and stores the copies oldest first. The passes are the source's: scratch files and pairs by
 their metas, then the bodies left without one, then the copies in order.
 */
module IsrBoot {
  import opened IsrDisk
  import opened IsrFreshness
  import opened PageCache

  // ---- sorting by the moment a copy was stored ---------------------------------------

  function InsertByTime(items: seq<CacheItem>, item: CacheItem): seq<CacheItem> {
    if items == [] || item.entry.storedAt < items[0].entry.storedAt then [item] + items
    else [items[0]] + InsertByTime(items[1..], item)
  }

  function SortByTime(items: seq<CacheItem>): seq<CacheItem> {
    if items == [] then [] else InsertByTime(SortByTime(items[1..]), items[0])
  }

  lemma {:induction false} InsertKeepsCopies(items: seq<CacheItem>, item: CacheItem)
    ensures multiset(InsertByTime(items, item)) == multiset(items) + multiset{item}
  {
    if items != [] && item.entry.storedAt >= items[0].entry.storedAt {
      InsertKeepsCopies(items[1..], item);
      assert items == [items[0]] + items[1..];
    }
  }

  predicate NoneOlder(items: seq<CacheItem>, than: CacheItem) {
    forall j :: 0 <= j < |items| ==> than.entry.storedAt <= items[j].entry.storedAt
  }

  lemma {:induction false} InsertKeepsOrder(items: seq<CacheItem>, item: CacheItem)
    requires OldestFirst(items)
    ensures OldestFirst(InsertByTime(items, item))
    ensures forall first :: NoneOlder(items, first) && first.entry.storedAt <= item.entry.storedAt ==>
              NoneOlder(InsertByTime(items, item), first)
  {
    if items != [] && item.entry.storedAt >= items[0].entry.storedAt {
      InsertKeepsOrder(items[1..], item);
      assert NoneOlder(items[1..], items[0]);
    }
  }

  lemma {:induction false} SortedByTime(items: seq<CacheItem>)
    ensures OldestFirst(SortByTime(items)) && multiset(SortByTime(items)) == multiset(items)
  {
    if items != [] {
      SortedByTime(items[1..]);
      InsertKeepsOrder(SortByTime(items[1..]), items[0]);
      InsertKeepsCopies(SortByTime(items[1..]), items[0]);
      assert items == [items[0]] + items[1..];
    }
  }

  lemma SameCopiesDistinct(a: seq<CacheItem>, b: seq<CacheItem>)
    requires multiset(a) == multiset(b) && DistinctKeys(a)
    ensures DistinctKeys(b) && forall item :: item in b <==> item in a
  {
    forall item ensures item in b <==> item in a {
      assert item in multiset(a) <==> item in multiset(b);
    }
    forall i, j | 0 <= i < j < |b| ensures b[i].key != b[j].key {
      if b[i].key == b[j].key {
        var x, y := b[i], b[j];
        assert x in a && y in a;
        assert x == y;
        assert b == b[..i] + [b[i]] + b[i + 1..j] + [b[j]] + b[j + 1..];
        assert multiset(b)[x] >= 2;
        OnceInDistinct(a, x);
        assert false;
      }
    }
  }

  lemma {:induction false} OnceInDistinct(items: seq<CacheItem>, x: CacheItem)
    requires DistinctKeys(items)
    ensures multiset(items)[x] <= 1
  {
    if items != [] {
      assert items == [items[0]] + items[1..];
      OnceInDistinct(items[1..], x);
      if items[0] == x {
        assert x !in items[1..];
      }
    }
  }

  // ---- storing what was found --------------------------------------------------------

  /** One copy more, of a key not stored yet. */
  lemma StoreNext(items: seq<CacheItem>, j: nat)
    requires DistinctKeys(items) && j < |items|
    ensures var put := Put(Newest(items[..j]), items[j].key, items[j].entry);
            && Newest(put) == Newest(items[..j + 1])
            && KeySeq(Evicted(items[..j])) + KeySeq(Evicted(put)) == KeySeq(Evicted(items[..j + 1]))
  {
    var kept := Newest(items[..j]);
    assert Put(kept, items[j].key, items[j].entry) == kept + [items[j]] by {
      WithoutNothing(kept, {items[j].key});
    }
    assert items[..j + 1] == items[..j] + [items[j]];
    hide Put, Newest, Evicted, KeySeq, DistinctKeys;
    NewestNext(items[..j], items[j]);
  }

  lemma NewestNext(before: seq<CacheItem>, item: CacheItem)
    ensures var put := Newest(before) + [item];
            && Newest(put) == Newest(before + [item])
            && KeySeq(Evicted(before)) + KeySeq(Evicted(put)) == KeySeq(Evicted(before + [item]))
  {
    assert Evicted(before) + Newest(before) == before;
    var put := Newest(before) + [item];
    assert Evicted(before) + Evicted(put) == Evicted(before + [item]);
  }

  /** Storing the copies one after the other, whatever their keys. */
  function Stored(items: seq<CacheItem>): seq<CacheItem> {
    if items == [] then []
    else
      var before, last := items[..|items| - 1], items[|items| - 1];
      Newest(Put(Stored(before), last.key, last.entry))
  }

  lemma StoredNext(items: seq<CacheItem>, j: nat)
    requires j < |items|
    ensures Stored(items[..j + 1]) == Newest(Put(Stored(items[..j]), items[j].key, items[j].entry))
  {
    assert items[..j + 1][..j] == items[..j];
  }

  method StoreAll(cache: PageCache, items: seq<CacheItem>)
    requires cache.Valid() && cache.order == [] && cache.dropped == []
    modifies cache
    ensures cache.Valid() && cache.order == Stored(items)
    ensures DistinctKeys(items) ==> cache.order == Newest(items) && cache.dropped == KeySeq(Evicted(items))
  {
    hide PageCache.Valid, Put, Newest, Evicted, KeySeq, DistinctKeys, Stored;
    StoreNothing(items);
    for j := 0 to |items|
      invariant cache.Valid() && cache.order == Stored(items[..j])
      invariant DistinctKeys(items) ==> cache.order == Newest(items[..j]) && cache.dropped == KeySeq(Evicted(items[..j]))
    {
      if DistinctKeys(items) {
        StoreNext(items, j);
      }
      StoredNext(items, j);
      cache.Store(items[j].key, items[j].entry);
    }
    assert items[..|items|] == items;
  }

  lemma StoreNothing(items: seq<CacheItem>)
    ensures Newest(items[..0]) == [] && KeySeq(Evicted(items[..0])) == [] && Stored(items[..0]) == []
  {
  }

  // ---- reading the directory -----------------------------------------------------------

  /** Every name once, as a directory lists them. */
  predicate Lists(names: seq<FileName>, files: map<FileName, File>) {
    && (forall name :: name in files ==> name in names)
    && (forall j :: 0 <= j < |names| ==> names[j] in files)
    && (forall i, j :: 0 <= i < j < |names| ==> names[i] != names[j])
  }

  /** A meta the body is looked at for. */
  predicate MetaFits(files: map<FileName, File>, key: string, build: string)
    requires MetaName(key) in files
  {
    && files[MetaName(key)].Meta?
    && var meta := files[MetaName(key)].meta; meta.build == build && meta.key != "" && meta.page.status != 0
  }

  /** The pair is there and cannot be read: the meta, or the body of a meta that can and fits. */
  predicate Unreadable(files: map<FileName, File>, bad: set<FileName>, key: string, build: string) {
    && MetaName(key) in files
    && (MetaName(key) in bad || (MetaFits(files, key, build) && BodyName(key) in files && BodyName(key) in bad))
  }

  /** Exactly when a pair is left for another boot: its meta is, or it would load but for a body that cannot be read. */
  lemma UnreadableIs(files: map<FileName, File>, bad: set<FileName>, key: string, build: string)
    ensures Unreadable(files, bad, key, build) <==>
              || (MetaName(key) in files && MetaName(key) in bad)
              || (BodyName(key) in files && BodyName(key) in bad
                  && exists meta, body: string :: Loadable(files[MetaName(key) := Meta(meta)][BodyName(key) := Body(body)], key, build)
                       && MetaName(key) in files && files[MetaName(key)].Meta? && Excusable(files[MetaName(key)].meta, meta))
  {
    if MetaName(key) in files && files[MetaName(key)].Meta? {
      var meta := files[MetaName(key)].meta;
      if MetaFits(files, key, build) {
        var whole := meta.(bytes := 0, sum := Digest(""));
        assert Loadable(files[MetaName(key) := Meta(whole)][BodyName(key) := Body("")], key, build) && Excusable(meta, whole);
      }
    }
  }

  /** The metas differ in what they say of the body, and in nothing else. */
  predicate Excusable(meta: SavedMeta, other: SavedMeta) {
    other == meta.(bytes := other.bytes, sum := other.sum)
  }

  function UnreadKeys(files: map<FileName, File>, bad: set<FileName>, build: string): set<string> {
    set name | name in files && name.MetaName? && Unreadable(files, bad, name.key, build) :: name.key
  }

  /** What the first pass keeps of a pair: one it loads, or one it cannot read. */
  predicate Spared(files: map<FileName, File>, bad: set<FileName>, key: string, build: string) {
    Loadable(files, key, build) || Unreadable(files, bad, key, build)
  }

  predicate Loads(files: map<FileName, File>, bad: set<FileName>, key: string, build: string) {
    Loadable(files, key, build) && !Unreadable(files, bad, key, build)
  }

  /** What is stored for a pair: the copy, under the key the meta holds. */
  function Copy(files: map<FileName, File>, key: string, build: string): CacheItem
    requires Loadable(files, key, build)
  {
    CacheItem(files[MetaName(key)].meta.key, ReadSaved(files, key, build).page)
  }

  /** What the first pass leaves of a file, once it has looked at these names. */
  predicate Stays(files: map<FileName, File>, bad: set<FileName>, build: string, names: seq<FileName>, name: FileName) {
    match name
    case BodyName(key) => MetaName(key) in names ==> Spared(files, bad, key, build)
    case MetaName(key) => name in names ==> Spared(files, bad, key, build)
    case _ => name !in names
  }

  ghost predicate Passed(files: map<FileName, File>, left: map<FileName, File>, bad: set<FileName>, build: string, names: seq<FileName>) {
    && (forall name :: name in left <==> name in files && Stays(files, bad, build, names, name))
    && (forall name :: name in left ==> left[name] == files[name])
  }

  predicate Distinct(keys: seq<string>) {
    forall i, j :: 0 <= i < j < |keys| ==> keys[i] != keys[j]
  }

  /** The copies of these pairs, in order. */
  ghost predicate CopiesOf(files: map<FileName, File>, build: string, keys: seq<string>, found: seq<CacheItem>) {
    && |found| == |keys|
    && forall j :: 0 <= j < |keys| ==> Loadable(files, keys[j], build) && found[j] == Copy(files, keys[j], build)
  }

  /** Of the names looked at: the bases of the metas, and the pairs that loaded, each once. */
  ghost predicate Collected(files: map<FileName, File>, bad: set<FileName>, build: string, names: seq<FileName>,
                            found: seq<CacheItem>, keys: seq<string>, bases: set<string>) {
    && (forall key :: key in bases <==> MetaName(key) in names)
    && Distinct(keys) && CopiesOf(files, build, keys, found)
    && (forall key :: key in keys <==> MetaName(key) in names && Loads(files, bad, key, build))
  }

  /** What is read of a pair does not change before its own turn. */
  lemma ReadAlike(files: map<FileName, File>, left: map<FileName, File>, bad: set<FileName>, build: string,
                  names: seq<FileName>, key: string)
    requires Passed(files, left, bad, build, names) && MetaName(key) !in names
    ensures ReadSaved(left, key, build) == ReadSaved(files, key, build)
    ensures Unreadable(left, bad, key, build) <==> Unreadable(files, bad, key, build)
    ensures Loadable(files, key, build) ==> Copy(left, key, build) == Copy(files, key, build)
  {
    assert MetaName(key) in left <==> MetaName(key) in files;
    assert BodyName(key) in left <==> BodyName(key) in files;
  }

  function AfterName(left: map<FileName, File>, bad: set<FileName>, name: FileName, build: string): map<FileName, File> {
    match name
    case BodyName(_) => left
    case MetaName(key) => if Spared(left, bad, key, build) then left else left - {MetaName(key), BodyName(key)}
    case _ => left - {name}
  }

  lemma PassNext(files: map<FileName, File>, left: map<FileName, File>, bad: set<FileName>, build: string,
                 names: seq<FileName>, name: FileName)
    requires Passed(files, left, bad, build, names) && name !in names && name in files
    ensures Passed(files, AfterName(left, bad, name, build), bad, build, names + [name])
  {
    hide ReadSaved, Unreadable;
    if name.MetaName? {
      ReadAlike(files, left, bad, build, names, name.key);
    }
  }

  lemma CollectName(files: map<FileName, File>, left: map<FileName, File>, bad: set<FileName>, build: string, names: seq<FileName>,
                    name: FileName, found: seq<CacheItem>, keys: seq<string>, bases: set<string>)
    requires Passed(files, left, bad, build, names) && Collected(files, bad, build, names, found, keys, bases) && name !in names
    ensures !name.MetaName? ==> Collected(files, bad, build, names + [name], found, keys, bases)
    ensures name.MetaName? && !Loads(left, bad, name.key, build) ==>
              Collected(files, bad, build, names + [name], found, keys, bases + {name.key})
    ensures name.MetaName? && Loads(left, bad, name.key, build) ==>
              Collected(files, bad, build, names + [name], found + [Copy(left, name.key, build)], keys + [name.key], bases + {name.key})
  {
    hide ReadSaved, Unreadable, Passed;
    if name.MetaName? {
      ReadAlike(files, left, bad, build, names, name.key);
    }
  }

  method FirstPass(names: seq<FileName>, files: map<FileName, File>, bad: set<FileName>, build: string)
    returns (left: map<FileName, File>, found: seq<CacheItem>, bases: set<string>, ghost keys: seq<string>)
    requires Lists(names, files)
    ensures Passed(files, left, bad, build, names) && Collected(files, bad, build, names, found, keys, bases)
  {
    hide ReadSaved, Unreadable, Passed, Collected;
    NothingPassed(files, bad, build);
    left, found, bases, keys := files, [], {}, [];
    for i := 0 to |names|
      invariant Passed(files, left, bad, build, names[..i]) && Collected(files, bad, build, names[..i], found, keys, bases)
    {
      var name := names[i];
      assert names[..i + 1] == names[..i] + [name];
      PassNext(files, left, bad, build, names[..i], name);
      CollectName(files, left, bad, build, names[..i], name, found, keys, bases);
      match name
      case TmpBody(_) =>
        left := left - {name};
      case TmpMeta(_) =>
        left := left - {name};
      case BodyName(_) =>
      case MetaName(key) =>
        bases := bases + {key};
        if !Unreadable(left, bad, key, build) {
          match ReadSaved(left, key, build)
          case Sweep =>
            left := left - {MetaName(key), BodyName(key)};
          case Load(page) =>
            LoadableHasItsMeta(left, key, build);
            found, keys := found + [CacheItem(left[MetaName(key)].meta.key, page)], keys + [key];
        }
    }
    assert names[..|names|] == names;
  }

  lemma LoadableHasItsMeta(files: map<FileName, File>, key: string, build: string)
    requires Loadable(files, key, build)
    ensures MetaName(key) in files && files[MetaName(key)].Meta?
  {
  }

  lemma NothingPassed(files: map<FileName, File>, bad: set<FileName>, build: string)
    ensures Passed(files, files, bad, build, []) && Collected(files, bad, build, [], [], [], {})
  {
    hide ReadSaved, Unreadable;
  }

  /** The second pass: a body whose meta was not among the names goes. */
  method RemoveOrphans(names: seq<FileName>, left: map<FileName, File>, bases: set<string>) returns (kept: map<FileName, File>)
    ensures kept == map name | name in left && !(name in names && name.BodyName? && name.key !in bases) :: left[name]
  {
    kept := left;
    for i := 0 to |names|
      invariant kept == map name | name in left && !(name in names[..i] && name.BodyName? && name.key !in bases) :: left[name]
    {
      assert names[..i + 1] == names[..i] + [names[i]];
      match names[i]
      case BodyName(key) =>
        if key !in bases {
          kept := kept - {names[i]};
        }
      case _ =>
    }
    assert names[..|names|] == names;
  }

  /**
   The boot: what it stores is the copies of the pairs that load and can be read, oldest first, each
   under the key its meta holds; what it leaves on disk is those pairs and the ones it could not
   read. Where every pair's files are named for its key, these are the copies a boot finds.
   */
  method LoadSaved(cache: PageCache, names: seq<FileName>, files: map<FileName, File>, bad: set<FileName>, build: string)
    returns (left: map<FileName, File>, items: seq<CacheItem>, ghost keys: seq<string>)
    requires cache.Valid() && cache.order == [] && cache.dropped == [] && Lists(names, files)
    modifies cache
    ensures cache.Valid() && cache.order == Stored(items)
    ensures Distinct(keys) && forall key :: key in keys <==> Loads(files, bad, key, build)
    ensures OldestFirst(items) && exists found :: CopiesOf(files, build, keys, found) && multiset(items) == multiset(found)
    ensures left == Cleaned(files, build, UnreadKeys(files, bad, build))
    ensures NamedForTheirKeys(files, build) ==>
              Found(files, build, UnreadKeys(files, bad, build), items)
              && cache.order == Newest(items) && cache.dropped == KeySeq(Evicted(items))
  {
    hide PageCache.Valid, ReadSaved, KeysOf, Passed, Collected, CopiesOf, Newest, Evicted, KeySeq, Found, Stored, Distinct, Unreadable;
    var found, bases;
    left, found, bases, keys := FirstPass(names, files, bad, build);
    ghost var passed := left;
    left := RemoveOrphans(names, left, bases);
    OnlyPairsAreLeft(names, files, passed, bad, build, found, keys, bases);
    AllAreCollected(names, files, bad, build, found, keys, bases);
    items := SortByTime(found);
    SortedByTime(found);
    if NamedForTheirKeys(files, build) {
      AllAreFound(files, bad, build, found, keys);
    }
    StoreAll(cache, items);
  }

  lemma AllAreCollected(names: seq<FileName>, files: map<FileName, File>, bad: set<FileName>, build: string,
                        found: seq<CacheItem>, keys: seq<string>, bases: set<string>)
    requires Lists(names, files) && Collected(files, bad, build, names, found, keys, bases)
    ensures Distinct(keys) && CopiesOf(files, build, keys, found)
    ensures forall key :: key in keys <==> Loads(files, bad, key, build)
  {
    hide ReadSaved, Unreadable, CopiesOf, Distinct;
    forall key | Loads(files, bad, key, build) ensures MetaName(key) in names {
      LoadableHasItsMeta(files, key, build);
    }
  }

  lemma OnlyPairsAreLeft(names: seq<FileName>, files: map<FileName, File>, left: map<FileName, File>, bad: set<FileName>, build: string,
                         found: seq<CacheItem>, keys: seq<string>, bases: set<string>)
    requires Lists(names, files) && Passed(files, left, bad, build, names)
    requires Collected(files, bad, build, names, found, keys, bases)
    ensures (map name | name in left && !(name in names && name.BodyName? && name.key !in bases) :: left[name])
            == Cleaned(files, build, UnreadKeys(files, bad, build))
  {
    hide ReadSaved, Loadable, CopiesOf, Distinct;
    var unread := UnreadKeys(files, bad, build);
    forall key ensures key in unread <==> Unreadable(files, bad, key, build) {
      if Unreadable(files, bad, key, build) {
        assert MetaName(key) in files;
      }
    }
    forall name | name in files
      ensures Stays(files, bad, build, names, name) && !(name.BodyName? && name.key !in bases) <==> Kept(files, build, unread, name)
    {
      if name.BodyName? && Loadable(files, name.key, build) {
        LoadableHasItsMeta(files, name.key, build);
      }
    }
  }

  lemma AllAreFound(files: map<FileName, File>, bad: set<FileName>, build: string, found: seq<CacheItem>, keys: seq<string>)
    requires NamedForTheirKeys(files, build) && Distinct(keys) && CopiesOf(files, build, keys, found)
    requires forall key :: key in keys <==> Loads(files, bad, key, build)
    ensures Found(files, build, UnreadKeys(files, bad, build), SortByTime(found)) && DistinctKeys(SortByTime(found))
  {
    hide KeysOf, ReadSaved, Loadable, Unreadable;
    var items := SortByTime(found);
    SortedByTime(found);
    forall j | 0 <= j < |found| ensures found[j].key == keys[j] && keys[j] in keys {
    }
    SameCopiesDistinct(found, items);
    forall item | item in items
      ensures item.key !in UnreadKeys(files, bad, build) && ReadSaved(files, item.key, build) == Load(item.entry)
    {
      var j :| 0 <= j < |found| && found[j] == item;
      LoadIs(files, keys[j], build);
    }
    forall key | Loadable(files, key, build) && key !in UnreadKeys(files, bad, build) ensures key in KeysOf(items) {
      ReadKeyLoads(files, bad, key, build);
      var j :| 0 <= j < |keys| && keys[j] == key;
      KeyIsHeld(items, found[j]);
    }
  }

  lemma LoadIs(files: map<FileName, File>, key: string, build: string)
    requires Loadable(files, key, build)
    ensures ReadSaved(files, key, build) == Load(ReadSaved(files, key, build).page)
  {
    hide ReadSaved;
  }

  lemma ReadKeyLoads(files: map<FileName, File>, bad: set<FileName>, key: string, build: string)
    requires Loadable(files, key, build) && key !in UnreadKeys(files, bad, build)
    ensures Loads(files, bad, key, build)
  {
    hide ReadSaved;
    LoadableHasItsMeta(files, key, build);
    assert MetaName(key) in files;
  }
}
