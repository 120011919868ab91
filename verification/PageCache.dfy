/**
 The shared page cache of isr.go: a recency list, a map into it and an inverted tag index, kept
 as three views of one recency-ordered sequence of at most 512 copies.
 */
module PageCache {
  import opened CacheKeys
  import opened Wrappers

  const MAX_CACHED_PAGES := 512

  /**
   A stored copy. `flight` names the render that produced it; the source's copy carries no such
   field, and nothing the cache does depends on it.
   */
  datatype CachedPage = CachedPage(
    flight: nat, body: string, nonce: string, status: int, headers: seq<(string, string)>,
    storedAt: int, tags: seq<string>)

  datatype CacheItem = CacheItem(key: string, entry: CachedPage)

  // ---- the sequence the three structures stand for ------------------------------

  predicate DistinctKeys(items: seq<CacheItem>) {
    forall i, j :: 0 <= i < j < |items| ==> items[i].key != items[j].key
  }

  function KeysOf(items: seq<CacheItem>): (r: set<string>)
    ensures forall k :: k in r <==> exists j :: 0 <= j < |items| && items[j].key == k
  {
    set j | 0 <= j < |items| :: items[j].key
  }

  function Without(items: seq<CacheItem>, gone: set<string>): (r: seq<CacheItem>)
    ensures forall item :: item in r <==> item in items && item.key !in gone
    ensures DistinctKeys(items) ==> DistinctKeys(r)
  {
    if items == [] then []
    else
      var rest := Without(items[1..], gone);
      if items[0].key in gone then rest else [items[0]] + rest
  }

  /** The copy stored under a key: keys are distinct, so there is one at most. */
  function Find(items: seq<CacheItem>, key: string): (r: Option<CachedPage>)
    ensures r.Some? ==> CacheItem(key, r.value) in items
    ensures r.None? ==> forall item :: item in items ==> item.key != key
  {
    if items == [] then None
    else if items[0].key == key then Some(items[0].entry)
    else Find(items[1..], key)
  }

  function Put(items: seq<CacheItem>, key: string, entry: CachedPage): seq<CacheItem> {
    Without(items, {key}) + [CacheItem(key, entry)]
  }

  /** The least recently used leave first, until 512 are left. */
  function Newest(items: seq<CacheItem>): seq<CacheItem> {
    if |items| > MAX_CACHED_PAGES then items[|items| - MAX_CACHED_PAGES..] else items
  }

  function Evicted(items: seq<CacheItem>): seq<CacheItem> {
    if |items| > MAX_CACHED_PAGES then items[..|items| - MAX_CACHED_PAGES] else []
  }

  function KeySeq(items: seq<CacheItem>): (r: seq<string>)
    ensures |r| == |items| && forall j :: 0 <= j < |items| ==> r[j] == items[j].key
  {
    seq(|items|, j requires 0 <= j < |items| => items[j].key)
  }

  function MatchingKeys(items: seq<CacheItem>, path: string): set<string> {
    set k | k in KeysOf(items) && PathMatchesKey(path, k)
  }

  function TaggedKeys(items: seq<CacheItem>, tag: string): set<string> {
    set item | item in items && tag in item.entry.tags :: item.key
  }

  lemma {:induction false} WithoutNothing(items: seq<CacheItem>, gone: set<string>)
    requires forall item :: item in items ==> item.key !in gone
    ensures Without(items, gone) == items
  {
    if items != [] {
      WithoutNothing(items[1..], gone);
      assert [items[0]] + items[1..] == items;
    }
  }

  lemma {:induction false} WithoutTwice(items: seq<CacheItem>, a: set<string>, b: set<string>)
    ensures Without(Without(items, a), b) == Without(items, a + b)
  {
    if items != [] {
      WithoutTwice(items[1..], a, b);
      if items[0].key !in a {
        var rest := Without(items[1..], a);
        assert ([items[0]] + rest)[1..] == rest;
      }
    }
  }

  lemma {:induction false} WithoutCount(items: seq<CacheItem>, gone: set<string>)
    requires DistinctKeys(items) && gone <= KeysOf(items)
    ensures |Without(items, gone)| == |items| - |gone|
  {
    if items == [] {
      assert gone == {};
    } else {
      var k := items[0].key;
      forall x | x in gone - {k} ensures x in KeysOf(items[1..]) {
        var j :| 0 <= j < |items| && items[j].key == x;
        assert items[1..][j - 1].key == x;
      }
      WithoutCount(items[1..], gone - {k});
      if k in gone {
        forall item | item in items[1..] ensures item.key != k {
        }
        WithoutSame(items[1..], gone, gone - {k});
      } else {
        assert gone - {k} == gone;
      }
    }
  }

  lemma {:induction false} WithoutSame(items: seq<CacheItem>, a: set<string>, b: set<string>)
    requires forall item :: item in items ==> (item.key in a <==> item.key in b)
    ensures Without(items, a) == Without(items, b)
  {
    if items != [] {
      WithoutSame(items[1..], a, b);
    }
  }

  lemma WithoutFirst(items: seq<CacheItem>)
    requires items != [] && DistinctKeys(items)
    ensures Without(items, {items[0].key}) == items[1..]
  {
    forall item | item in items[1..] ensures item.key != items[0].key {
    }
    WithoutNothing(items[1..], {items[0].key});
  }

  lemma TaggedWithout(items: seq<CacheItem>, gone: set<string>, tag: string)
    ensures TaggedKeys(Without(items, gone), tag) == TaggedKeys(items, tag) - gone
  {
    var left := Without(items, gone);
    forall k | k in TaggedKeys(items, tag) - gone ensures k in TaggedKeys(left, tag) {
      var item :| item in items && tag in item.entry.tags && item.key == k;
      assert item in left;
    }
  }

  lemma TaggedAppend(items: seq<CacheItem>, last: CacheItem, tag: string)
    ensures TaggedKeys(items + [last], tag) ==
            TaggedKeys(items, tag) + if tag in last.entry.tags then {last.key} else {}
  {
    var all := items + [last];
    assert forall item :: item in all <==> item in items || item == last;
    forall k | k in TaggedKeys(items, tag) ensures k in TaggedKeys(all, tag) {
      var item :| item in items && tag in item.entry.tags && item.key == k;
      assert item in all;
    }
  }

  // ---- the structures themselves ----------------------------------------------------

  function Lookup(byTag: map<string, set<string>>, tag: string): set<string> {
    if tag in byTag then byTag[tag] else {}
  }

  ghost predicate Mapped(order: seq<CacheItem>, pages: map<string, CachedPage>) {
    && (forall item :: item in order ==> item.key in pages && pages[item.key] == item.entry)
    && (forall k :: k in pages ==> CacheItem(k, pages[k]) in order)
  }

  /** `byTag` is exactly the inverse of the copies' tags, with no tag left empty. */
  ghost predicate Indexed(order: seq<CacheItem>, byTag: map<string, set<string>>) {
    && (forall tag :: Lookup(byTag, tag) == TaggedKeys(order, tag))
    && (forall tag :: tag in byTag ==> byTag[tag] != {})
  }

  predicate TouchedBefore(touched: map<string, nat>, a: string, b: string) {
    a in touched && b in touched && touched[a] < touched[b]
  }

  /** Whatever is in `gone` was last touched before anything in `kept`. */
  predicate OlderThan(touched: map<string, nat>, gone: seq<CacheItem>, kept: seq<CacheItem>) {
    forall x, y :: x in gone && y in kept ==> TouchedBefore(touched, x.key, y.key)
  }

  /** The list is ordered by when each key was last stored or served. */
  ghost predicate ByRecency(order: seq<CacheItem>, touched: map<string, nat>, clock: nat) {
    && (forall item :: item in order ==> item.key in touched && touched[item.key] < clock)
    && (forall i, j :: 0 <= i < j < |order| ==> TouchedBefore(touched, order[i].key, order[j].key))
  }

  /** The three structures agree, on at most 512 copies in order of recency. */
  ghost predicate Views(order: seq<CacheItem>, pages: map<string, CachedPage>, byTag: map<string, set<string>>,
                        touched: map<string, nat>, clock: nat) {
    && DistinctKeys(order)
    && Mapped(order, pages)
    && Indexed(order, byTag)
    && ByRecency(order, touched, clock)
  }

  // ---- what one change to the list does to the other views -----------------------

  lemma PutDistinct(order: seq<CacheItem>, key: string, entry: CachedPage)
    requires DistinctKeys(order)
    ensures DistinctKeys(Put(order, key, entry))
    ensures KeysOf(Put(order, key, entry)) == KeysOf(order) + {key}
  {
    hide Without;
    var rest, item := Without(order, {key}), CacheItem(key, entry);
    assert forall i :: 0 <= i < |rest| ==> rest[i] in rest;
    var put := rest + [item];
    forall k | k in KeysOf(order) + {key} ensures k in KeysOf(put) {
      if k == key {
        assert put[|rest|].key == k;
      } else {
        var j :| 0 <= j < |order| && order[j].key == k;
        assert order[j] in rest;
        var x :| 0 <= x < |rest| && rest[x] == order[j];
        assert put[x].key == k;
      }
    }
    forall j | 0 <= j < |put| ensures put[j].key in KeysOf(order) + {key} {
      if j < |rest| {
        assert put[j] in order;
      }
    }
  }

  lemma PutMapped(order: seq<CacheItem>, key: string, entry: CachedPage, pages: map<string, CachedPage>)
    requires DistinctKeys(order) && Mapped(order, pages)
    ensures Mapped(Put(order, key, entry), pages[key := entry])
  {
    var rest, item := Without(order, {key}), CacheItem(key, entry);
    assert forall x :: x in rest + [item] <==> x in rest || x == item;
  }

  lemma WithoutMapped(order: seq<CacheItem>, gone: set<string>, pages: map<string, CachedPage>)
    requires Mapped(order, pages)
    ensures Mapped(Without(order, gone), pages - gone)
  {
  }

  lemma {:induction false} WithoutByRecency(order: seq<CacheItem>, gone: set<string>, touched: map<string, nat>, clock: nat)
    requires ByRecency(order, touched, clock)
    ensures ByRecency(Without(order, gone), touched, clock)
  {
    if order != [] {
      var tail := order[1..];
      assert ByRecency(tail, touched, clock);
      WithoutByRecency(tail, gone, touched, clock);
      var rest := Without(tail, gone);
      forall x | x in rest ensures TouchedBefore(touched, order[0].key, x.key) {
        var j :| 0 <= j < |tail| && tail[j] == x;
        assert TouchedBefore(touched, order[0].key, order[j + 1].key);
      }
    }
  }

  lemma PutByRecency(order: seq<CacheItem>, key: string, entry: CachedPage, touched: map<string, nat>, clock: nat)
    requires ByRecency(order, touched, clock)
    ensures ByRecency(Put(order, key, entry), touched[key := clock], clock + 1)
  {
    var rest := Without(order, {key});
    WithoutByRecency(order, {key}, touched, clock);
    var put, later := Put(order, key, entry), touched[key := clock];
    assert forall i :: 0 <= i < |rest| ==> put[i] == rest[i] && rest[i] in rest;
    forall i, j | 0 <= i < j < |put| ensures TouchedBefore(later, put[i].key, put[j].key) {
      if j < |rest| {
        assert TouchedBefore(touched, rest[i].key, rest[j].key);
      }
    }
  }

  lemma TouchIndexed(order: seq<CacheItem>, key: string, entry: CachedPage, byTag: map<string, set<string>>)
    requires DistinctKeys(order) && Indexed(order, byTag) && CacheItem(key, entry) in order
    ensures Indexed(Put(order, key, entry), byTag)
  {
    var item := CacheItem(key, entry);
    forall tag ensures Lookup(byTag, tag) == TaggedKeys(Put(order, key, entry), tag) {
      TaggedWithout(order, {key}, tag);
      TaggedAppend(Without(order, {key}), item, tag);
      if key in TaggedKeys(order, tag) {
        var other :| other in order && tag in other.entry.tags && other.key == key;
        assert other == item;
      }
    }
  }

  lemma FindIsLookup(order: seq<CacheItem>, pages: map<string, CachedPage>, byTag: map<string, set<string>>,
                     touched: map<string, nat>, clock: nat, key: string)
    requires Views(order, pages, byTag, touched, clock)
    ensures Find(order, key) == if key in pages then Some(pages[key]) else None
  {
    if key in pages {
      assert CacheItem(key, pages[key]) in order;
    }
  }

  lemma TouchKeepsViews(order: seq<CacheItem>, pages: map<string, CachedPage>, byTag: map<string, set<string>>,
                        touched: map<string, nat>, clock: nat, key: string)
    requires Views(order, pages, byTag, touched, clock) && key in pages
    ensures Views(Put(order, key, pages[key]), pages, byTag, touched[key := clock], clock + 1)
    ensures |Put(order, key, pages[key])| == |order|
  {
    var page := pages[key];
    PutDistinct(order, key, page);
    PutMapped(order, key, page, pages);
    assert pages[key := page] == pages;
    PutByRecency(order, key, page, touched, clock);
    TouchIndexed(order, key, page, byTag);
    assert CacheItem(key, page) in order;
    WithoutCount(order, {key});
  }

  /** Taking a key out of one tag's set, and the tag out of the index when that empties it. */
  function DropFromTag(byTag: map<string, set<string>>, tag: string, key: string): map<string, set<string>> {
    if tag !in byTag then byTag
    else if byTag[tag] - {key} == {} then byTag - {tag}
    else byTag[tag := byTag[tag] - {key}]
  }

  ghost predicate NoTagEmpty(byTag: map<string, set<string>>) {
    forall tag :: tag in byTag ==> byTag[tag] != {}
  }

  ghost predicate Unindexed(index: map<string, set<string>>, byTag: map<string, set<string>>, tags: seq<string>, key: string) {
    && NoTagEmpty(byTag)
    && forall tag :: Lookup(byTag, tag) == Lookup(index, tag) - if tag in tags then {key} else {}
  }

  lemma DropNextTag(index: map<string, set<string>>, byTag: map<string, set<string>>, tags: seq<string>, i: nat, key: string)
    requires i < |tags| && Unindexed(index, byTag, tags[..i], key)
    ensures Unindexed(index, DropFromTag(byTag, tags[i], key), tags[..i + 1], key)
  {
    assert tags[..i + 1] == tags[..i] + [tags[i]];
  }

  ghost predicate Reindexed(index: map<string, set<string>>, byTag: map<string, set<string>>, tags: seq<string>, key: string) {
    && NoTagEmpty(byTag)
    && forall tag :: Lookup(byTag, tag) == Lookup(index, tag) + if tag in tags then {key} else {}
  }

  lemma AddNextTag(index: map<string, set<string>>, byTag: map<string, set<string>>, tags: seq<string>, i: nat, key: string)
    requires i < |tags| && Reindexed(index, byTag, tags[..i], key)
    ensures Reindexed(index, byTag[tags[i] := Lookup(byTag, tags[i]) + {key}], tags[..i + 1], key)
  {
    assert tags[..i + 1] == tags[..i] + [tags[i]];
  }

  lemma RemoveKeepsViews(order: seq<CacheItem>, pages: map<string, CachedPage>, byTag: map<string, set<string>>,
                         byTag': map<string, set<string>>, touched: map<string, nat>, clock: nat, key: string)
    requires Views(order, pages, byTag, touched, clock) && key in pages
    requires Unindexed(byTag, byTag', pages[key].tags, key)
    ensures Views(Without(order, {key}), pages - {key}, byTag', touched, clock)
  {
    WithoutMapped(order, {key}, pages);
    WithoutByRecency(order, {key}, touched, clock);
    var item := CacheItem(key, pages[key]);
    forall tag ensures Lookup(byTag', tag) == TaggedKeys(Without(order, {key}), tag) {
      TaggedWithout(order, {key}, tag);
      if key in TaggedKeys(order, tag) {
        var other :| other in order && tag in other.entry.tags && other.key == key;
        assert other == item;
      }
    }
  }

  lemma AppendKeepsViews(order: seq<CacheItem>, pages: map<string, CachedPage>, byTag: map<string, set<string>>,
                         byTag': map<string, set<string>>, touched: map<string, nat>, clock: nat, key: string, entry: CachedPage)
    requires Views(order, pages, byTag, touched, clock) && key !in pages
    requires Reindexed(byTag, byTag', entry.tags, key)
    ensures Views(order + [CacheItem(key, entry)], pages[key := entry], byTag', touched[key := clock], clock + 1)
  {
    WithoutNothing(order, {key});
    PutDistinct(order, key, entry);
    PutMapped(order, key, entry, pages);
    PutByRecency(order, key, entry, touched, clock);
    forall tag ensures Lookup(byTag', tag) == TaggedKeys(order + [CacheItem(key, entry)], tag) {
      TaggedAppend(order, CacheItem(key, entry), tag);
    }
  }

  class PageCache {
    var order: seq<CacheItem>             // the list, least recently used first
    var pages: map<string, CachedPage>    // the map into it
    var byTag: map<string, set<string>>   // the inverted index
    var dropped: seq<string>              // the keys onDrop was called with, in order
    ghost var touched: map<string, nat>   // when each key was last stored or served
    ghost var clock: nat

    ghost predicate Consistent()
      reads this
    {
      Views(order, pages, byTag, touched, clock)
    }

    ghost predicate Valid()
      reads this
    {
      Consistent() && |order| <= MAX_CACHED_PAGES
    }

    constructor ()
      ensures Valid() && order == [] && dropped == []
    {
      order, pages, byTag, dropped := [], map[], map[], [];
      touched, clock := map[], 0;
    }

    /** A copy that is served moves to the back of the list. */
    method Get(key: string) returns (entry: Option<CachedPage>)
      requires Valid()
      modifies this`order, this`touched, this`clock
      ensures Valid()
      ensures entry == Find(old(order), key)
      ensures order == if entry.Some? then Put(old(order), key, entry.value) else old(order)
    {
      hide Views, Put, Find;
      FindIsLookup(order, pages, byTag, touched, clock, key);
      if key !in pages {
        return None;
      }
      TouchKeepsViews(order, pages, byTag, touched, clock, key);
      entry := Some(pages[key]);
      order := Put(order, key, pages[key]);
      touched, clock := touched[key := clock], clock + 1;
    }

    method Remove(key: string, notify: bool)
      requires Consistent()
      modifies this`order, this`pages, this`byTag, this`dropped
      ensures Consistent()
      ensures order == Without(old(order), {key})
      ensures dropped == if notify && Find(old(order), key).Some? then old(dropped) + [key] else old(dropped)
    {
      hide Views, Find, Without, DropFromTag, Unindexed;
      FindIsLookup(order, pages, byTag, touched, clock, key);
      if key !in pages {
        NotFoundNotRemoved(order, key);
        return;
      }
      var entry := pages[key];
      ghost var index := byTag;
      NothingUnindexed(order, pages, byTag, touched, clock, key);
      order := Without(order, {key});
      pages := pages - {key};
      for i := 0 to |entry.tags|
        invariant order == Without(old(order), {key}) && pages == old(pages) - {key} && dropped == old(dropped)
        invariant Unindexed(index, byTag, entry.tags[..i], key)
      {
        DropNextTag(index, byTag, entry.tags, i, key);
        byTag := DropFromTag(byTag, entry.tags[i], key);
      }
      assert entry.tags[..|entry.tags|] == entry.tags;
      RemoveKeepsViews(old(order), old(pages), index, byTag, touched, clock, key);
      if notify {
        dropped := dropped + [key];
      }
    }

    /** PushBack, and the tags of the new copy. */
    method Append(key: string, entry: CachedPage)
      requires Consistent() && Find(order, key).None?
      modifies this`order, this`pages, this`byTag, this`touched, this`clock
      ensures Consistent() && order == old(order) + [CacheItem(key, entry)]
    {
      hide Views, Find, Without, Reindexed;
      FindIsLookup(order, pages, byTag, touched, clock, key);
      NothingReindexed(order, pages, byTag, touched, clock, key);
      order := order + [CacheItem(key, entry)];
      pages := pages[key := entry];
      for i := 0 to |entry.tags|
        invariant order == old(order) + [CacheItem(key, entry)] && pages == old(pages)[key := entry]
        invariant touched == old(touched) && clock == old(clock)
        invariant Reindexed(old(byTag), byTag, entry.tags[..i], key)
      {
        AddNextTag(old(byTag), byTag, entry.tags, i, key);
        byTag := byTag[entry.tags[i] := Lookup(byTag, entry.tags[i]) + {key}];
      }
      assert entry.tags[..|entry.tags|] == entry.tags;
      AppendKeepsViews(old(order), old(pages), old(byTag), byTag, touched, clock, key, entry);
      touched, clock := touched[key := clock], clock + 1;
    }

    /** The least recently used leave until 512 are left. */
    method Evict()
      requires Consistent()
      modifies this`order, this`pages, this`byTag, this`dropped
      ensures Valid()
      ensures order == Newest(old(order))
      ensures dropped == old(dropped) + KeySeq(Evicted(old(order)))
      ensures OlderThan(touched, Evicted(old(order)), order)
    {
      hide Views, Find, Without, OlderThan, Newest, Evicted, KeySeq;
      EvictedAreOldest(order, pages, byTag, touched, clock);
      ghost var n := 0;
      while |order| > MAX_CACHED_PAGES
        invariant Consistent()
        invariant n <= |old(order)| && n <= |Evicted(old(order))| && order == old(order)[n..]
        invariant dropped == old(dropped) + KeySeq(old(order)[..n])
        decreases |order|
      {
        EvictOldest(order, pages, byTag, touched, clock);
        EvictedNext(old(order), n);
        Remove(order[0].key, true);
        n := n + 1;
      }
      AllEvicted(old(order), n);
    }

    method Store(key: string, entry: CachedPage)
      requires Valid()
      modifies this
      ensures Valid()
      ensures order == Newest(Put(old(order), key, entry))
      ensures dropped == old(dropped) + KeySeq(Evicted(Put(old(order), key, entry)))
      ensures OlderThan(touched, Evicted(Put(old(order), key, entry)), order)
    {
      hide Views, Find, Without, Newest, Evicted, OlderThan;
      FindIsLookup(order, pages, byTag, touched, clock, key);
      if key in pages {
        Remove(key, false);
      } else {
        NotFoundNotRemoved(order, key);
      }
      RemovedIsNotFound(old(order), key);
      Append(key, entry);
      Evict();
    }

    /** One key more out of `was`, with `gone` out already. */
    method RemoveNext(ghost was: seq<CacheItem>, ghost gone: set<string>, key: string)
      requires Consistent() && order == Without(was, gone) && key in KeysOf(was) && key !in gone
      modifies this`order, this`pages, this`byTag, this`dropped
      ensures Consistent() && order == Without(was, gone + {key})
      ensures dropped == old(dropped) + [key]
    {
      hide *;
      StillFound(was, gone, key);
      WithoutTwice(was, gone, {key});
      Remove(key, true);
    }

    /** Drops exactly the copies a Revalidate path names, and returns their number. */
    method InvalidatePath(path: string) returns (count: nat)
      requires Valid()
      modifies this`order, this`pages, this`byTag, this`dropped
      ensures Valid()
      ensures order == Without(old(order), MatchingKeys(old(order), path))
      ensures count == |old(order)| - |order|
      ensures DroppedOnce(old(dropped), dropped, MatchingKeys(old(order), path))
    {
      hide Views, Without, KeysOf, MatchingKeys, PathMatchesKey, DroppedOnce;
      KeysAreMapped(order, pages, byTag, touched, clock);
      NothingRemoved(order, dropped);
      count := 0;
      var todo, gone: set<string> := pages.Keys, {};
      while todo != {}
        invariant Consistent() && order == Without(old(order), gone)
        invariant todo <= KeysOf(old(order)) && todo !! gone
        invariant forall k :: k in gone <==> k in KeysOf(old(order)) && k !in todo && PathMatchesKey(path, k)
        invariant count == |gone| && DroppedOnce(old(dropped), dropped, gone)
        decreases todo
      {
        var key :| key in todo;
        todo := todo - {key};
        if PathMatchesKey(path, key) {
          DroppedNext(old(dropped), dropped, gone, key);
          RemoveNext(old(order), gone, key);
          count := count + 1;
          gone := gone + {key};
        }
      }
      MatchingIs(old(order), path, gone);
      RemovedCount(old(order), old(pages), old(byTag), old(touched), old(clock), gone);
    }

    /** Drops exactly the copies a tag names, and returns their number. */
    method InvalidateTag(tag: string) returns (count: nat)
      requires Valid()
      modifies this`order, this`pages, this`byTag, this`dropped
      ensures Valid()
      ensures order == Without(old(order), TaggedKeys(old(order), tag))
      ensures count == |old(order)| - |order|
      ensures DroppedOnce(old(dropped), dropped, TaggedKeys(old(order), tag))
    {
      hide Views, Without, KeysOf, TaggedKeys, Lookup, DroppedOnce;
      TagIsIndexed(order, pages, byTag, touched, clock, tag);
      NothingRemoved(order, dropped);
      count := 0;
      var todo, gone: set<string> := Lookup(byTag, tag), {};
      while todo != {}
        invariant Consistent() && order == Without(old(order), gone)
        invariant todo + gone == TaggedKeys(old(order), tag) && todo !! gone
        invariant count == |gone| && DroppedOnce(old(dropped), dropped, gone)
        decreases todo
      {
        var key :| key in todo;
        todo := todo - {key};
        DroppedNext(old(dropped), dropped, gone, key);
        RemoveNext(old(order), gone, key);
        count := count + 1;
        gone := gone + {key};
      }
      RemovedCount(old(order), old(pages), old(byTag), old(touched), old(clock), gone);
    }
  }

  /** onDrop was called once for each of the keys, and for no other. */
  predicate DroppedOnce(before: seq<string>, after: seq<string>, keys: set<string>) {
    before <= after && multiset(after[|before|..]) == multiset(keys)
  }

  lemma NothingRemoved(order: seq<CacheItem>, dropped: seq<string>)
    ensures Without(order, {}) == order && DroppedOnce(dropped, dropped, {})
  {
    WithoutNothing(order, {});
  }

  lemma DroppedNext(before: seq<string>, after: seq<string>, keys: set<string>, key: string)
    requires DroppedOnce(before, after, keys) && key !in keys
    ensures DroppedOnce(before, after + [key], keys + {key})
  {
    assert (after + [key])[|before|..] == after[|before|..] + [key];
    assert multiset(keys + {key}) == multiset(keys) + multiset{key};
  }

  lemma MatchingIs(items: seq<CacheItem>, path: string, keys: set<string>)
    requires forall k :: k in keys <==> k in KeysOf(items) && PathMatchesKey(path, k)
    ensures keys == MatchingKeys(items, path) && keys <= KeysOf(items)
  {
  }

  lemma EvictedNext(order: seq<CacheItem>, n: nat)
    requires n <= |order| && |order| - n > MAX_CACHED_PAGES
    ensures n < |Evicted(order)| && order[n..][1..] == order[n + 1..]
    ensures KeySeq(order[..n + 1]) == KeySeq(order[..n]) + [order[n..][0].key]
  {
  }

  lemma AllEvicted(order: seq<CacheItem>, n: nat)
    requires n <= |Evicted(order)| && |order| - n <= MAX_CACHED_PAGES
    ensures n == |Evicted(order)| && order[n..] == Newest(order) && order[..n] == Evicted(order)
  {
  }

  lemma RemovedCount(order: seq<CacheItem>, pages: map<string, CachedPage>, byTag: map<string, set<string>>,
                     touched: map<string, nat>, clock: nat, gone: set<string>)
    requires Views(order, pages, byTag, touched, clock) && gone <= KeysOf(order)
    ensures |Without(order, gone)| == |order| - |gone|
  {
    WithoutCount(order, gone);
  }

  lemma KeysAreMapped(order: seq<CacheItem>, pages: map<string, CachedPage>, byTag: map<string, set<string>>,
                      touched: map<string, nat>, clock: nat)
    requires Views(order, pages, byTag, touched, clock)
    ensures pages.Keys == KeysOf(order)
  {
    forall k | k in pages ensures k in KeysOf(order) {
      var j :| 0 <= j < |order| && order[j] == CacheItem(k, pages[k]);
      assert order[j].key == k;
    }
  }

  lemma TagIsIndexed(order: seq<CacheItem>, pages: map<string, CachedPage>, byTag: map<string, set<string>>,
                     touched: map<string, nat>, clock: nat, tag: string)
    requires Views(order, pages, byTag, touched, clock)
    ensures Lookup(byTag, tag) == TaggedKeys(order, tag)
    ensures TaggedKeys(order, tag) <= KeysOf(order)
  {
  }

  lemma StillFound(order: seq<CacheItem>, gone: set<string>, key: string)
    requires key in KeysOf(order) && key !in gone
    ensures Find(Without(order, gone), key).Some?
  {
    var j :| 0 <= j < |order| && order[j].key == key;
    assert order[j] in Without(order, gone);
  }

  lemma {:induction false} WithoutIsShorter(order: seq<CacheItem>, gone: set<string>)
    ensures |Without(order, gone)| <= |order|
  {
    if order != [] {
      WithoutIsShorter(order[1..], gone);
    }
  }

  lemma EvictedAreOldest(order: seq<CacheItem>, pages: map<string, CachedPage>, byTag: map<string, set<string>>,
                         touched: map<string, nat>, clock: nat)
    requires Views(order, pages, byTag, touched, clock)
    ensures OlderThan(touched, Evicted(order), Newest(order))
  {
    forall x, y | x in Evicted(order) && y in Newest(order) ensures TouchedBefore(touched, x.key, y.key) {
      var i :| 0 <= i < |Evicted(order)| && Evicted(order)[i] == x;
      var j :| 0 <= j < |Newest(order)| && Newest(order)[j] == y;
      assert TouchedBefore(touched, order[i].key, order[|order| - MAX_CACHED_PAGES + j].key);
    }
  }

  lemma NotFoundNotRemoved(order: seq<CacheItem>, key: string)
    requires Find(order, key).None?
    ensures Without(order, {key}) == order
  {
    WithoutNothing(order, {key});
  }

  lemma RemovedIsNotFound(order: seq<CacheItem>, key: string)
    ensures Find(Without(order, {key}), key).None?
  {
  }

  lemma NothingUnindexed(order: seq<CacheItem>, pages: map<string, CachedPage>, byTag: map<string, set<string>>,
                         touched: map<string, nat>, clock: nat, key: string)
    requires Views(order, pages, byTag, touched, clock)
    ensures Unindexed(byTag, byTag, [], key)
  {
  }

  lemma NothingReindexed(order: seq<CacheItem>, pages: map<string, CachedPage>, byTag: map<string, set<string>>,
                         touched: map<string, nat>, clock: nat, key: string)
    requires Views(order, pages, byTag, touched, clock)
    ensures Reindexed(byTag, byTag, [], key)
  {
  }

  lemma EvictOldest(order: seq<CacheItem>, pages: map<string, CachedPage>, byTag: map<string, set<string>>,
                    touched: map<string, nat>, clock: nat)
    requires Views(order, pages, byTag, touched, clock) && order != []
    ensures Without(order, {order[0].key}) == order[1..] && Find(order, order[0].key).Some?
  {
    WithoutFirst(order);
  }
}
