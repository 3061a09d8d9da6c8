/**
 * ThumbnailLoader: the worker object that owns the thumbnail cache. Its
 * fields are the scheduling inputs the UI sets, the metadata map, and the
 * contents of the cache directory (the thumbnail files and the JSON record).
 */
module ThumbnailWorker {
  import opened Wrappers
  import opened Json
  import opened ThumbnailCache
  import opened ThumbnailScheduler
  import Sorting

  /** How one pass of process()'s forever loop ended. */
  datatype Pass =
    | Aborted
    | NoPaths
    | Finished(emitted: seq<Emission>, workDone: bool, visited: nat)

  /** A sorted copy keeps the pairs of an LRU list, so it is the LRU list of the same map. */
  lemma SortedIsLru(items: seq<(int, string)>, sorted: seq<(int, string)>, m: Metadata)
    requires Listed(items, m, m.Keys)
    requires multiset(sorted) == multiset(items)
    requires Sorting.SortedBy(sorted, AccessLe)
    ensures LruOrder(sorted, m)
  {
    forall i | 0 <= i < |sorted| ensures sorted[i] in items {
      assert sorted[i] in multiset(items);
    }
    assert Sorting.Distinct(items);
    Sorting.DistinctPermutation(items, sorted);
    forall k | k in m ensures exists i :: 0 <= i < |sorted| && sorted[i].1 == k {
      var i :| 0 <= i < |items| && items[i].1 == k;
      assert items[i] in multiset(sorted);
      var j :| 0 <= j < |sorted| && sorted[j] == items[i];
    }
  }

  /** The loop of loadCacheMetadata: each member of root replaces the entry of its key. */
  method MergeEntries(m: Metadata, root: map<string, Value>) returns (r: Metadata)
    ensures r == m + DecodeAll(root)
  {
    r := m;
    var pending := root.Keys;
    MergeNone(m, root);
    while pending != {}
      invariant pending <= root.Keys
      invariant r == m + DecodeAll(Restrict(root, root.Keys - pending))
      decreases pending
    {
      var key :| key in pending;
      MergeOneMore(m, root, pending, key);
      r := r[key := DecodeEntry(root[key])];
      pending := pending - {key};
    }
    MergeAll(m, root);
  }

  lemma MergeNone(m: Metadata, root: map<string, Value>)
    ensures m + DecodeAll(Restrict(root, root.Keys - root.Keys)) == m
  {
    assert Restrict(root, root.Keys - root.Keys) == map[];
  }

  lemma MergeAll(m: Metadata, root: map<string, Value>)
    ensures m + DecodeAll(Restrict(root, root.Keys - {})) == m + DecodeAll(root)
  {
    assert Restrict(root, root.Keys - {}) == root;
  }

  /** Taking one more pending key into the merge updates exactly that key. */
  lemma MergeOneMore(m: Metadata, root: map<string, Value>, pending: set<string>, key: string)
    requires key in pending && pending <= root.Keys
    ensures m + DecodeAll(Restrict(root, root.Keys - (pending - {key})))
         == (m + DecodeAll(Restrict(root, root.Keys - pending)))[key := DecodeEntry(root[key])]
  {
    var before := Restrict(root, root.Keys - pending);
    MembersOneMore(root, pending, key);
    DecodeAllUpdate(before, key, root[key]);
    UnionUpdate(m, DecodeAll(before), key, DecodeEntry(root[key]));
  }

  lemma MembersOneMore(root: map<string, Value>, pending: set<string>, key: string)
    requires key in pending && pending <= root.Keys
    ensures Restrict(root, root.Keys - (pending - {key})) == Restrict(root, root.Keys - pending)[key := root[key]]
  {
  }

  lemma DecodeAllUpdate(root: map<string, Value>, key: string, v: Value)
    ensures DecodeAll(root[key := v]) == DecodeAll(root)[key := DecodeEntry(v)]
  {
  }

  lemma UnionUpdate<K, V>(a: map<K, V>, b: map<K, V>, key: K, v: V)
    ensures a + b[key := v] == (a + b)[key := v]
  {
  }

  /** The loop of saveCacheMetadata: one JSON object per entry, under the entry's path. */
  method EncodeEntries(m: Metadata) returns (root: map<string, Value>)
    ensures root == EncodeAll(m)
  {
    root := map[];
    var pending := m.Keys;
    while pending != {}
      invariant pending <= m.Keys
      invariant root.Keys == m.Keys - pending
      invariant forall k :: k in root ==> root[k] == EncodeEntry(m[k])
      decreases pending
    {
      var key :| key in pending;
      root := root[key := EncodeEntry(m[key])];
      pending := pending - {key};
    }
  }

  /**
   * The first loop of cleanCache: the sum of all sizes, and one
   * (lastAccess, path) pair per entry.
   */
  method CollectEntries(m: Metadata) returns (total: int, items: seq<(int, string)>)
    ensures total == TotalBytes(m)
    ensures Listed(items, m, m.Keys)
  {
    total, items := 0, [];
    var pending := m.Keys;
    ghost var done: set<string> := {};
    CollectedNone(m);
    while pending != {}
      invariant pending == m.Keys - done
      invariant Collected(m, done, total, items)
      decreases pending
    {
      var key :| key in pending;
      CollectedOneMore(m, done, total, items, key);
      total := total + m[key].sizeBytes;
      items := items + [(m[key].lastAccess, key)];
      pending := pending - {key};
      done := done + {key};
    }
    CollectedAll(m, done, total, items);
  }

  /** The state of the first loop of cleanCache once the keys of done have been summed and listed. */
  ghost predicate Collected(m: Metadata, done: set<string>, total: int, items: seq<(int, string)>) {
    done <= m.Keys && total == TotalBytes(Restrict(m, done)) && Listed(items, m, done)
  }

  lemma CollectedNone(m: Metadata)
    ensures Collected(m, {}, 0, [])
  {
    assert Restrict(m, {}) == map[];
  }

  lemma CollectedOneMore(m: Metadata, done: set<string>, total: int, items: seq<(int, string)>, key: string)
    requires Collected(m, done, total, items) && key in m && key !in done
    ensures Collected(m, done + {key}, total + m[key].sizeBytes, items + [(m[key].lastAccess, key)])
  {
    RestrictAdd(m, done, key);
    ListedAppend(items, m, done, key);
  }

  lemma CollectedAll(m: Metadata, done: set<string>, total: int, items: seq<(int, string)>)
    requires Collected(m, done, total, items) && m.Keys - done == {}
    ensures total == TotalBytes(m) && Listed(items, m, m.Keys)
  {
    forall k | k in m ensures k in done {
      assert k !in m.Keys - done;
    }
    assert Restrict(m, done) == m;
  }

  /** items holds one (lastAccess, key) pair for each key of done, and nothing else. */
  predicate Listed(items: seq<(int, string)>, m: Metadata, done: set<string>) {
    && KeysIn(items, m)
    && (forall i :: 0 <= i < |items| ==> items[i].0 == m[items[i].1].lastAccess && items[i].1 in done)
    && (forall k :: k in done ==> exists i :: 0 <= i < |items| && items[i].1 == k)
  }

  lemma ListedAppend(items: seq<(int, string)>, m: Metadata, done: set<string>, key: string)
    requires Listed(items, m, done) && key in m && key !in done
    ensures Listed(items + [(m[key].lastAccess, key)], m, done + {key})
  {
    var items' := items + [(m[key].lastAccess, key)];
    forall k | k in done + {key} ensures exists i :: 0 <= i < |items'| && items'[i].1 == k {
      if k == key {
        assert items'[|items|].1 == k;
      } else {
        var i :| 0 <= i < |items| && items[i].1 == k;
        assert items'[i].1 == k;
      }
    }
  }

  lemma RestrictAdd(m: Metadata, done: set<string>, key: string)
    requires key in m && key !in done
    ensures TotalBytes(Restrict(m, done + {key})) == TotalBytes(Restrict(m, done)) + m[key].sizeBytes
  {
    assert Restrict(m, done + {key}) == Restrict(m, done)[key := m[key]];
    TotalBytesAdd(Restrict(m, done), key, m[key]);
  }

  lemma AccessLeIsTotalPreorder()
    ensures Sorting.TotalPreorder(AccessLe)
  {
  }

  class ThumbnailLoader {
    /** m_cacheDir and the hash behind getCacheFilePath. */
    const layout: Layout
    /** m_abort. */
    var abort: bool
    /** m_paths, m_currentPage, m_thumbsPerPage: what the UI last sent. */
    var paths: seq<string>
    var currentPage: int
    var thumbsPerPage: int
    /** m_metadata. */
    var metadata: Metadata
    /** The files of the cache directory other than the record, with their sizes. */
    var thumbs: Thumbs
    /** cache_metadata.json. */
    var record: File

    /** The scheduling fields, for stating that an operation leaves them alone. */
    ghost function Schedule(): (bool, seq<string>, int, int)
      reads this
    {
      (abort, paths, currentPage, thumbsPerPage)
    }

    /**
     * The constructor: page 0, 20 per page, not stopped, and the metadata
     * read from the record in the cache directory under configLocation.
     */
    constructor (configLocation: string, sha256: string -> Digest, files: Thumbs, saved: File)
      ensures layout == Layout(CacheDirIn(configLocation), sha256)
      ensures !abort && paths == [] && currentPage == 0 && thumbsPerPage == 20
      ensures thumbs == files && record == saved
      ensures metadata == LoadedFrom(map[], saved)
    {
      layout := Layout(CacheDirIn(configLocation), sha256);
      abort := false;
      paths := [];
      currentPage := 0;
      thumbsPerPage := 20;
      metadata := map[];
      thumbs := files;
      record := saved;
      new;
      LoadCacheMetadata();
    }

    /** stop(): the walk ends at its next check. */
    method Stop()
      modifies this
      ensures abort
      ensures paths == old(paths) && currentPage == old(currentPage) && thumbsPerPage == old(thumbsPerPage)
      ensures metadata == old(metadata) && thumbs == old(thumbs) && record == old(record)
    {
      abort := true;
    }

    /** setPaths(paths). */
    method SetPaths(newPaths: seq<string>)
      modifies this
      ensures paths == newPaths
      ensures abort == old(abort) && currentPage == old(currentPage) && thumbsPerPage == old(thumbsPerPage)
      ensures metadata == old(metadata) && thumbs == old(thumbs) && record == old(record)
    {
      paths := newPaths;
    }

    /** updatePriority(page, thumbsPerPage). */
    method UpdatePriority(page: int, perPage: int)
      modifies this
      ensures currentPage == page && thumbsPerPage == perPage
      ensures abort == old(abort) && paths == old(paths)
      ensures metadata == old(metadata) && thumbs == old(thumbs) && record == old(record)
    {
      currentPage := page;
      thumbsPerPage := perPage;
    }

    /** The body of the walk for one index: a skip, a cache hit or a regeneration. */
    method VisitIndex(w: World, idx: int, path: string, now: int) returns (emitted: Option<Emission>, generated: bool)
      modifies this
      ensures var v := Visit(Store(old(metadata), old(thumbs)), layout, w, idx, path, now);
        && metadata == v.store.metadata && thumbs == v.store.thumbs
        && emitted == v.emitted && generated == v.generated
      ensures Schedule() == old(Schedule()) && record == old(record)
    {
      emitted, generated := None, false;
      var cachePath := layout.CachePath(path);
      if !w.sources.present(path) {
        return;
      }
      var mtime := w.sources.lastModified(path);
      var cachedParamsMatch := false;
      if path in metadata {
        if metadata[path].lastModified == mtime && cachePath in thumbs {
          cachedParamsMatch := true;
        }
      }
      if cachedParamsMatch {
        var img := w.io.decodeThumb(cachePath);
        if img.Some? {
          emitted := Some(Emission(idx, path, img.value));
          metadata := metadata[path := metadata[path].(lastAccess := now)];
        }
      } else {
        var originalSize := w.sources.nativeSize(path);
        if originalSize.IsValid() {
          var shrink := originalSize.width > ThumbCap || originalSize.height > ThumbCap;
          var img := w.sources.read(path, shrink);
          if img.Some? {
            var written := w.io.write(cachePath, img.value);
            if written.Some? {
              thumbs := thumbs[cachePath := written.value];
            }
            var size := if cachePath in thumbs then thumbs[cachePath] else 0;
            metadata := metadata[path := CacheMetadata(mtime, size, now, cachePath)];
            emitted := Some(Emission(idx, path, img.value));
            generated := true;
          }
        }
      }
    }

    /**
     * One pass of process(): stop if aborted; with no paths there is nothing
     * to walk; otherwise snapshot the list, page and page size, build the
     * priority order, and visit it until a check fails (live(k) is what the
     * k-th check reads) or the order is exhausted. The caller waits and
     * schedules cleanCache when workDone is false.
     */
    method RunPass(w: World, live: nat -> Live) returns (result: Pass)
      requires WindowInRange(currentPage, thumbsPerPage)
      modifies this
      ensures old(abort) ==> result == Aborted && metadata == old(metadata) && thumbs == old(thumbs)
      ensures !old(abort) && old(paths) == [] ==> result == NoPaths && metadata == old(metadata) && thumbs == old(thumbs)
      ensures !old(abort) && old(paths) != [] ==>
        var n := |old(paths)|;
        var order := PriorityOrder(n, old(currentPage), old(thumbsPerPage));
        && IndicesBelow(order, n) && |order| == n
        && var j := StopIndex(live, old(currentPage), n, |order|, 0);
           var p := Walked(Store(old(metadata), old(thumbs)), layout, w, old(paths), order, j);
           && result == Finished(p.emitted, p.workDone, j)
           && metadata == p.store.metadata && thumbs == p.store.thumbs
      ensures Schedule() == old(Schedule()) && record == old(record)
    {
      if abort {
        return Aborted;
      }
      if paths == [] {
        return NoPaths;
      }
      var pathsCopy, page, perPage := paths, currentPage, thumbsPerPage;
      var n := |pathsCopy|;
      var order := BuildPriorityOrder(n, page, perPage);
      PriorityOrderIndices(n, page, perPage);
      var emitted, workDone, visited := Walk(w, live, pathsCopy, order, page);
      result := Finished(emitted, workDone, visited);
    }

    /**
     * The for loop of process() over order: before each index, give up if
     * the walk was stopped or the page or the number of paths changed.
     */
    method Walk(w: World, live: nat -> Live, pathsCopy: seq<string>, order: seq<int>, page: int)
      returns (emitted: seq<Emission>, workDone: bool, visited: nat)
      requires IndicesBelow(order, |pathsCopy|)
      modifies this
      ensures visited == StopIndex(live, page, |pathsCopy|, |order|, 0)
      ensures var p := Walked(Store(old(metadata), old(thumbs)), layout, w, pathsCopy, order, visited);
        p == Progress(Store(metadata, thumbs), emitted, workDone)
      ensures Schedule() == old(Schedule()) && record == old(record)
    {
      var n := |pathsCopy|;
      emitted, workDone := [], false;
      var i := 0;
      while i < |order|
        invariant 0 <= i <= |order|
        invariant forall k :: 0 <= k < i ==> KeepsWalking(live(k), page, n)
        invariant Walked(Store(old(metadata), old(thumbs)), layout, w, pathsCopy, order, i)
               == Progress(Store(metadata, thumbs), emitted, workDone)
        invariant Schedule() == old(Schedule()) && record == old(record)
      {
        if !KeepsWalking(live(i), page, n) {
          break;
        }
        var idx := order[i];
        var e, generated := VisitIndex(w, idx, pathsCopy[idx], w.clock(i));
        emitted := emitted + EmittedList(e);
        workDone := workDone || generated;
        i := i + 1;
      }
      visited := i;
    }

    /**
     * loadCacheMetadata(): every member of the record's root object replaces
     * the entry of its key; a record that cannot be opened changes nothing.
     */
    method LoadCacheMetadata()
      modifies this
      ensures metadata == LoadedFrom(old(metadata), record)
      ensures Schedule() == old(Schedule()) && thumbs == old(thumbs) && record == old(record)
    {
      if record.Unopenable? {
        return;
      }
      metadata := MergeEntries(metadata, RootObject(record.document));
    }

    /**
     * saveCacheMetadata(): one JSON object per entry under its path; the
     * record is rewritten only when it can be opened for writing.
     */
    method SaveCacheMetadata(writable: bool)
      modifies this
      ensures record == if writable then Written(EncodeAll(metadata)) else old(record)
      ensures Schedule() == old(Schedule()) && metadata == old(metadata) && thumbs == old(thumbs)
    {
      var root := EncodeEntries(metadata);
      if writable {
        record := Written(root);
      }
    }

    /**
     * cleanCache(): sum the entry sizes; within budget, nothing happens;
     * otherwise sort (lastAccess, path) pairs oldest first and evict as
     * Evict describes. The sorted list is given back as lru.
     */
    method CleanCache(maxMB: real, removable: string -> bool) returns (ghost lru: seq<(int, string)>)
      modifies this
      ensures LruOrder(lru, old(metadata))
      ensures TotalBytes(old(metadata)) <= BudgetBytes(maxMB) ==> metadata == old(metadata) && thumbs == old(thumbs)
      ensures TotalBytes(old(metadata)) > BudgetBytes(maxMB) ==>
        var r := Evict(old(metadata), old(thumbs), lru, BudgetBytes(maxMB), removable, TotalBytes(old(metadata)));
        metadata == r.metadata && thumbs == r.thumbs
      ensures Schedule() == old(Schedule()) && record == old(record)
    {
      var maxBytes := TruncateToInt(maxMB * 1024.0 * 1024.0);
      var currentBytes, items := CollectEntries(metadata);
      AccessLeIsTotalPreorder();
      lru := Sorting.InsertionSort(items, AccessLe);
      SortedIsLru(items, lru, metadata);
      if currentBytes <= maxBytes {
        return;
      }
      items := Sorting.InsertionSort(items, AccessLe);
      currentBytes := EvictOldest(items, maxBytes, removable, currentBytes);
    }

    /**
     * The eviction loop of cleanCache over items: stop within 90% of
     * maxBytes; drop an entry only when its file is deleted.
     */
    method EvictOldest(items: seq<(int, string)>, maxBytes: int, removable: string -> bool, total: int)
      returns (remaining: int)
      requires KeysIn(items, metadata)
      modifies this
      ensures var r := Evict(old(metadata), old(thumbs), items, maxBytes, removable, total);
        metadata == r.metadata && thumbs == r.thumbs && remaining == r.total
      ensures Schedule() == old(Schedule()) && record == old(record)
    {
      remaining := total;
      var m, th := metadata, thumbs;
      var i := 0;
      while i < |items|
        invariant 0 <= i <= |items|
        invariant KeysIn(items[i..], m)
        invariant Evict(m, th, items[i..], maxBytes, removable, remaining)
               == Evict(old(metadata), old(thumbs), items, maxBytes, removable, total)
        modifies {}
      {
        if WithinTarget(remaining, maxBytes) {
          break;
        }
        EvictStep(m, th, items, i, maxBytes, removable, remaining);
        var key := items[i].1;
        var file := m[key].cacheFile;
        if file in th && removable(file) {
          remaining := remaining - m[key].sizeBytes;
          m := m - {key};
          th := th - {file};
        }
        i := i + 1;
      }
      assert i == |items| ==> items[i..] == [];
      metadata, thumbs := m, th;
    }

    /**
     * clearCache(): delete every file of the cache directory the file system
     * lets go (the record among them), empty the map, and save it.
     */
    method ClearCache(removable: string -> bool, writable: bool)
      modifies this
      ensures metadata == map[]
      ensures thumbs == map f | f in old(thumbs) && !removable(f) :: old(thumbs)[f]
      ensures record == if writable then Written(map[])
                        else if removable(layout.MetadataPath()) then Unopenable
                        else old(record)
      ensures Schedule() == old(Schedule())
    {
      var pending := thumbs.Keys;
      ghost var original := thumbs;
      while pending != {}
        invariant pending <= original.Keys
        invariant thumbs == map f | f in original && (f in pending || !removable(f)) :: original[f]
        invariant Schedule() == old(Schedule()) && metadata == old(metadata) && record == old(record)
        decreases pending
      {
        var file :| file in pending;
        if removable(file) {
          thumbs := thumbs - {file};
        }
        pending := pending - {file};
      }
      if removable(layout.MetadataPath()) {
        record := Unopenable;
      }
      metadata := map[];
      SaveCacheMetadata(writable);
    }

    /** The destructor: stop, then save the metadata. */
    method Shutdown(writable: bool)
      modifies this
      ensures abort
      ensures record == if writable then Written(EncodeAll(old(metadata))) else old(record)
      ensures metadata == old(metadata) && thumbs == old(thumbs)
    {
      Stop();
      SaveCacheMetadata(writable);
    }
  }

  /** After clearCache, loading the record it wrote yields no entries, whatever was loaded before. */
  lemma ClearedRecordLoadsEmpty(prior: Metadata)
    ensures LoadedFrom(prior, Written(EncodeAll(map[]))) == prior
  {
    SaveLoadOver(prior, map[]);
  }
}
