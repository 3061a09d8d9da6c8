/**
 * The scheduling half of ThumbnailLoader::process: the order in which the
 * indices of the path list are visited, the per-index cache step, and the
 * check that abandons a walk when the visible page or the list changes.
 */
module ThumbnailScheduler {
  import opened Wrappers
  import opened Media
  import opened ThumbnailCache
  import Sorting

  // ---------------------------------------------------------------------
  // Priority order
  // ---------------------------------------------------------------------

  /** startIdx = currentPage * thumbsPerPage. */
  function WindowStart(page: int, perPage: int): int {
    page * perPage
  }

  /** endIdx = qMin(startIdx + thumbsPerPage, pathsCopy.size()). */
  function WindowEnd(n: nat, page: int, perPage: int): (e: int)
    ensures e <= n
  {
    var s := WindowStart(page, perPage);
    if s + perPage < n then s + perPage else n
  }

  /**
   * The window holds no negative index. Otherwise (a negative page with a
   * positive page size) the walk would index the path list at a negative
   * position.
   */
  predicate WindowInRange(page: int, perPage: int) {
    perPage <= 0 || page >= 0
  }

  /** lo, lo + 1, ..., hi - 1. */
  function Range(lo: int, hi: int): (r: seq<int>)
    ensures |r| == if lo < hi then hi - lo else 0
    ensures forall i :: 0 <= i < |r| ==> r[i] == lo + i
    decreases hi - lo
  {
    if hi <= lo then [] else Range(lo, hi - 1) + [hi - 1]
  }

  /** The indices below m that lie outside [lo, hi), ascending. */
  function Outside(lo: int, hi: int, m: nat): seq<int> {
    if m == 0 then []
    else
      Outside(lo, hi, m - 1) + (if m - 1 < lo || m - 1 >= hi then [m - 1] else [])
  }

  /** Every entry of r is below m and outside [lo, hi). */
  predicate AllOutside(r: seq<int>, lo: int, hi: int, m: nat) {
    forall i :: 0 <= i < |r| ==> 0 <= r[i] < m && !(lo <= r[i] < hi)
  }

  predicate StrictlyAscending(r: seq<int>) {
    forall i, j :: 0 <= i < j < |r| ==> r[i] < r[j]
  }

  /** Outside lists, in strictly ascending order, indices below m outside [lo, hi). */
  lemma {:induction false} OutsideShape(lo: int, hi: int, m: nat)
    ensures AllOutside(Outside(lo, hi, m), lo, hi, m)
    ensures StrictlyAscending(Outside(lo, hi, m))
  {
    if m > 0 {
      OutsideShape(lo, hi, m - 1);
    }
  }

  /** priorityIndices: the visible window ascending, then every other index ascending. */
  function PriorityOrder(n: nat, page: int, perPage: int): seq<int> {
    var s, e := WindowStart(page, perPage), WindowEnd(n, page, perPage);
    Range(s, e) + Outside(s, e, n)
  }

  /** Every entry of order is a valid index into a list of n paths. */
  predicate IndicesBelow(order: seq<int>, n: nat) {
    forall i :: 0 <= i < |order| ==> 0 <= order[i] < n
  }

  /** No index outside [lo, hi) comes before an index inside it. */
  predicate WindowFirst(order: seq<int>, lo: int, hi: int) {
    forall p, q :: 0 <= p < q < |order| && lo <= order[q] < hi ==> lo <= order[p] < hi
  }

  lemma {:induction false} RangeCount(lo: int, hi: int, x: int)
    ensures multiset(Range(lo, hi))[x] == if lo <= x < hi then 1 else 0
    decreases hi - lo
  {
    if lo < hi {
      RangeCount(lo, hi - 1, x);
    }
  }

  lemma {:induction false} OutsideCount(lo: int, hi: int, m: nat, x: int)
    ensures multiset(Outside(lo, hi, m))[x] == if 0 <= x < m && !(lo <= x < hi) then 1 else 0
  {
    if m > 0 {
      OutsideCount(lo, hi, m - 1, x);
      var t := Outside(lo, hi, m - 1);
      if m - 1 < lo || m - 1 >= hi {
        assert Outside(lo, hi, m) == t + [m - 1];
        assert multiset(t + [m - 1]) == multiset(t) + multiset{m - 1};
      } else {
        assert Outside(lo, hi, m) == t;
      }
    }
  }

  /**
   * Each index of the list occurs exactly once in the priority order, and
   * nothing else does, wherever the window lies (also past the end of the list).
   */
  lemma PriorityOrderIsPermutation(n: nat, page: int, perPage: int)
    requires WindowInRange(page, perPage)
    ensures multiset(PriorityOrder(n, page, perPage)) == multiset(Range(0, n))
  {
    var s, e := WindowStart(page, perPage), WindowEnd(n, page, perPage);
    assert s < e ==> s >= 0 by {
      if perPage > 0 {
        assert page >= 0;
      }
    }
    forall x ensures multiset(PriorityOrder(n, page, perPage))[x] == multiset(Range(0, n))[x] {
      RangeCount(s, e, x);
      OutsideCount(s, e, n, x);
      RangeCount(0, n, x);
    }
  }

  /** The permutation makes the order a list of valid, pairwise different indices. */
  lemma PriorityOrderIndices(n: nat, page: int, perPage: int)
    requires WindowInRange(page, perPage)
    ensures var order := PriorityOrder(n, page, perPage);
      |order| == n && IndicesBelow(order, n) && Sorting.Distinct(order)
  {
    var order := PriorityOrder(n, page, perPage);
    PriorityOrderIsPermutation(n, page, perPage);
    assert |order| == n by {
      assert |multiset(order)| == |multiset(Range(0, n))|;
    }
    forall i | 0 <= i < |order| ensures 0 <= order[i] < n {
      assert order[i] in multiset(Range(0, n));
    }
    Sorting.DistinctPermutation(Range(0, n), order);
  }

  /** The visible window is visited first. */
  lemma PriorityOrderWindowFirst(n: nat, page: int, perPage: int)
    ensures WindowFirst(PriorityOrder(n, page, perPage), WindowStart(page, perPage), WindowEnd(n, page, perPage))
  {
    var s, e := WindowStart(page, perPage), WindowEnd(n, page, perPage);
    var head, tail := Range(s, e), Outside(s, e, n);
    var order := head + tail;
    OutsideShape(s, e, n);
    assert forall q :: |head| <= q < |order| ==> order[q] == tail[q - |head|];
  }

  /** Builds priorityIndices with the two loops of process. */
  method BuildPriorityOrder(n: nat, page: int, perPage: int) returns (order: seq<int>)
    ensures order == PriorityOrder(n, page, perPage)
  {
    var startIdx := page * perPage;
    var endIdx := if startIdx + perPage < n then startIdx + perPage else n;
    order := [];
    var i := startIdx;
    while i < endIdx
      invariant startIdx <= i <= (if startIdx < endIdx then endIdx else startIdx)
      invariant order == Range(startIdx, i)
      decreases endIdx - i
    {
      order := order + [i];
      i := i + 1;
    }
    assert order == Range(startIdx, endIdx);
    var head := order;
    i := 0;
    while i < n
      invariant 0 <= i <= n
      invariant order == head + Outside(startIdx, endIdx, i)
    {
      if i < startIdx || i >= endIdx {
        order := order + [i];
      }
      i := i + 1;
    }
  }

  // ---------------------------------------------------------------------
  // The per-index step
  // ---------------------------------------------------------------------

  /** Dimension above which a source is read shrunk (setScaledSize into 300×300). */
  const ThumbCap := 300

  /** The source images, as QFileInfo and QImageReader see them during a walk. */
  datatype Sources = Sources(
    present: string -> bool,
    lastModified: string -> int,
    nativeSize: string -> Size,
    read: (string, bool) -> Option<Image>)

  /** The outcomes of the cache directory's file operations. */
  datatype CacheIo = CacheIo(
    decodeThumb: string -> Option<Image>,
    write: (string, Image) -> Option<nat>,
    removable: string -> bool)

  /** Everything the walk reads besides the cache: files and the clock, per position in the walk. */
  datatype World = World(sources: Sources, io: CacheIo, clock: nat -> int)

  /** The cache state the walk updates: the metadata map and the thumbnail files. */
  datatype Store = Store(metadata: Metadata, thumbs: Thumbs)

  /** A thumbnailReady(index, path, image) signal. */
  datatype Emission = Emission(index: int, path: string, image: Image)

  /** What visiting one index did. */
  datatype Outcome = Outcome(store: Store, emitted: Option<Emission>, generated: bool)

  /** The reader is told to shrink the image only when a side exceeds the cap. */
  predicate ShrinksOnRead(native: Size) {
    native.width > ThumbCap || native.height > ThumbCap
  }

  /** The cached thumbnail is usable: an entry whose lastModified matches, and its file exists. */
  predicate IsHit(st: Store, path: string, cachePath: string, mtime: int) {
    path in st.metadata && st.metadata[path].lastModified == mtime && cachePath in st.thumbs
  }

  /** img.save(cachePath, "JPG", 85): a successful write replaces the file; a failed one leaves it. */
  function SavedThumb(thumbs: Thumbs, cachePath: string, written: Option<nat>): Thumbs {
    if written.Some? then thumbs[cachePath := written.value] else thumbs
  }

  /** QFileInfo(file).size(): 0 for a file that does not exist. */
  function FileSize(thumbs: Thumbs, file: string): nat {
    if file in thumbs then thumbs[file] else 0
  }

  /** One iteration of the walk, on index idx whose path is path, at time now. */
  function Visit(st: Store, layout: Layout, w: World, idx: int, path: string, now: int): Outcome {
    var cachePath := layout.CachePath(path);
    if !w.sources.present(path) then Outcome(st, None, false)
    else
      var mtime := w.sources.lastModified(path);
      if IsHit(st, path, cachePath, mtime) then
        match w.io.decodeThumb(cachePath)
        case None => Outcome(st, None, false)
        case Some(img) =>
          var touched := st.metadata[path].(lastAccess := now);
          Outcome(st.(metadata := st.metadata[path := touched]), Some(Emission(idx, path, img)), false)
      else
        var native := w.sources.nativeSize(path);
        if !native.IsValid() then Outcome(st, None, false)
        else
          match w.sources.read(path, ShrinksOnRead(native))
          case None => Outcome(st, None, false)
          case Some(img) =>
            var thumbs := SavedThumb(st.thumbs, cachePath, w.io.write(cachePath, img));
            var meta := CacheMetadata(mtime, FileSize(thumbs, cachePath), now, cachePath);
            Outcome(Store(st.metadata[path := meta], thumbs), Some(Emission(idx, path, img)), true)
  }

  /** A source file that no longer exists is skipped: nothing changes and nothing is emitted. */
  lemma VisitSkipsMissingSource(st: Store, layout: Layout, w: World, idx: int, path: string, now: int)
    requires !w.sources.present(path)
    ensures Visit(st, layout, w, idx, path, now) == Outcome(st, None, false)
  {
  }

  /** A visit changes the entry of its own path and the file of its own path, nothing else. */
  lemma VisitTouchesOnlyItsPath(st: Store, layout: Layout, w: World, idx: int, path: string, now: int)
    ensures var v := Visit(st, layout, w, idx, path, now);
      && v.store.metadata.Keys == st.metadata.Keys + (if v.generated then {path} else {})
      && (forall k :: k in st.metadata && k != path ==> v.store.metadata[k] == st.metadata[k])
      && v.store.thumbs.Keys <= st.thumbs.Keys + {layout.CachePath(path)}
      && (forall f :: f in st.thumbs && f != layout.CachePath(path) ==> v.store.thumbs[f] == st.thumbs[f])
      && (v.emitted.Some? ==> v.emitted.value.index == idx && v.emitted.value.path == path)
  {
  }

  /** A hit whose file decodes changes only that entry's lastAccess and emits the cached image. */
  lemma VisitHit(st: Store, layout: Layout, w: World, idx: int, path: string, now: int)
    requires w.sources.present(path)
    requires IsHit(st, path, layout.CachePath(path), w.sources.lastModified(path))
    requires w.io.decodeThumb(layout.CachePath(path)).Some?
    ensures var v := Visit(st, layout, w, idx, path, now);
      && v.store.thumbs == st.thumbs
      && v.store.metadata == st.metadata[path := st.metadata[path].(lastAccess := now)]
      && v.emitted == Some(Emission(idx, path, w.io.decodeThumb(layout.CachePath(path)).value))
      && !v.generated
  {
  }

  /**
   * A miss whose source decodes records {mtime, file size, now, cache path}
   * for the path, emits the fresh image and marks work done; the size is 0
   * when the thumbnail could not be written.
   */
  lemma VisitRegenerates(st: Store, layout: Layout, w: World, idx: int, path: string, now: int)
    requires w.sources.present(path)
    requires !IsHit(st, path, layout.CachePath(path), w.sources.lastModified(path))
    requires w.sources.nativeSize(path).IsValid()
    requires w.sources.read(path, ShrinksOnRead(w.sources.nativeSize(path))).Some?
    ensures var v := Visit(st, layout, w, idx, path, now);
      var cachePath := layout.CachePath(path);
      var img := w.sources.read(path, ShrinksOnRead(w.sources.nativeSize(path))).value;
      var written := w.io.write(cachePath, img);
      && v.generated
      && v.emitted == Some(Emission(idx, path, img))
      && path in v.store.metadata
      && v.store.metadata[path] == CacheMetadata(w.sources.lastModified(path),
           if written.Some? then written.value else FileSize(st.thumbs, cachePath), now, cachePath)
  {
  }

  /**
   * Reuse: once an index has been regenerated and its thumbnail written, the
   * next visit of the same unchanged source is a hit and writes nothing.
   */
  lemma RegeneratedThenHit(st: Store, layout: Layout, w: World, idx: int, path: string, now: int, later: int)
    requires w.sources.present(path)
    requires var img := w.sources.read(path, ShrinksOnRead(w.sources.nativeSize(path)));
      img.Some? ==> w.io.write(layout.CachePath(path), img.value).Some?
    ensures var v := Visit(st, layout, w, idx, path, now);
      v.generated ==>
        IsHit(v.store, path, layout.CachePath(path), w.sources.lastModified(path))
        && !Visit(v.store, layout, w, idx, path, later).generated
  {
  }

  /** Invalidation: a changed modification time turns an entry into a miss, whatever the file. */
  lemma ChangedSourceIsMiss(st: Store, layout: Layout, path: string, mtime: int)
    requires path in st.metadata && st.metadata[path].lastModified != mtime
    ensures !IsHit(st, path, layout.CachePath(path), mtime)
  {
  }

  // ---------------------------------------------------------------------
  // The walk
  // ---------------------------------------------------------------------

  /** The values of m_abort, m_paths, m_currentPage, m_thumbsPerPage when the walk checks them. */
  datatype Live = Live(abort: bool, paths: seq<string>, page: int, perPage: int)

  /** The walk goes on unless stopped, or the page or the number of paths changed. */
  predicate KeepsWalking(l: Live, page: int, n: int) {
    !l.abort && l.page == page && |l.paths| == n
  }

  /** A new page size, or a new list of the same length, does not interrupt a walk. */
  lemma RestartIgnoresPageSizeAndSameLengthList(l: Live, page: int, n: int, perPage: int, paths: seq<string>)
    requires |paths| == n
    ensures KeepsWalking(l.(perPage := perPage, paths := paths), page, n) == (!l.abort && l.page == page)
  {
  }

  /** The position before which the walk stops: the first check that fails, or the end. */
  function StopIndex(live: nat -> Live, page: int, n: int, len: nat, k: nat): (j: nat)
    requires k <= len
    ensures k <= j <= len
    ensures forall i :: k <= i < j ==> KeepsWalking(live(i), page, n)
    ensures j < len ==> !KeepsWalking(live(j), page, n)
    decreases len - k
  {
    if k == len || !KeepsWalking(live(k), page, n) then k
    else StopIndex(live, page, n, len, k + 1)
  }

  /** Where a walk has got to: the cache, the signals so far and workDone. */
  datatype Progress = Progress(store: Store, emitted: seq<Emission>, workDone: bool)

  function EmittedList(o: Option<Emission>): seq<Emission> {
    if o.Some? then [o.value] else []
  }

  /** The state after visiting the first j indices of order, the k-th at time clock(k). */
  function Walked(st: Store, layout: Layout, w: World, paths: seq<string>, order: seq<int>, j: nat): Progress
    requires j <= |order| && IndicesBelow(order, |paths|)
  {
    if j == 0 then Progress(st, [], false)
    else
      var p := Walked(st, layout, w, paths, order, j - 1);
      var idx := order[j - 1];
      var v := Visit(p.store, layout, w, idx, paths[idx], w.clock(j - 1));
      Progress(v.store, p.emitted + EmittedList(v.emitted), p.workDone || v.generated)
  }

  /** x is one of the first j entries of order. */
  predicate VisitedBefore(order: seq<int>, j: nat, x: int) {
    exists q :: 0 <= q < j && q < |order| && order[q] == x
  }

  /** Every signal names one of the first j indices of order, with that index's path. */
  predicate SignalsMatch(e: seq<Emission>, paths: seq<string>, order: seq<int>, j: nat) {
    forall a :: 0 <= a < |e| ==>
      VisitedBefore(order, j, e[a].index) && 0 <= e[a].index < |paths| && e[a].path == paths[e[a].index]
  }

  /** Every signal names a visited index together with that index's path in the walked list. */
  lemma {:induction false} WalkedEmissions(st: Store, layout: Layout, w: World, paths: seq<string>, order: seq<int>, j: nat)
    requires j <= |order| && IndicesBelow(order, |paths|)
    ensures SignalsMatch(Walked(st, layout, w, paths, order, j).emitted, paths, order, j)
  {
    if j > 0 {
      WalkedEmissions(st, layout, w, paths, order, j - 1);
      var p := Walked(st, layout, w, paths, order, j - 1);
      var v := Visit(p.store, layout, w, order[j - 1], paths[order[j - 1]], w.clock(j - 1));
      VisitTouchesOnlyItsPath(p.store, layout, w, order[j - 1], paths[order[j - 1]], w.clock(j - 1));
      var e := p.emitted + EmittedList(v.emitted);
      assert Walked(st, layout, w, paths, order, j).emitted == e;
      forall a | 0 <= a < |e| ensures VisitedBefore(order, j, e[a].index) && 0 <= e[a].index < |paths| && e[a].path == paths[e[a].index] {
        if a < |p.emitted| {
          assert e[a] == p.emitted[a];
          var q :| 0 <= q < j - 1 && q < |order| && order[q] == e[a].index;
          assert VisitedBefore(order, j, e[a].index);
        } else {
          assert e[a] == v.emitted.value;
          assert order[j - 1] == e[a].index;
          assert VisitedBefore(order, j, e[a].index);
        }
      }
    }
  }

  /** No signal for an index outside [lo, hi) precedes one for an index inside it. */
  predicate SignalsWindowFirst(e: seq<Emission>, lo: int, hi: int) {
    forall a, b :: 0 <= a < b < |e| && lo <= e[b].index < hi ==> lo <= e[a].index < hi
  }

  /** No two signals name the same index. */
  predicate SignalsOnce(e: seq<Emission>) {
    forall a, b :: 0 <= a < b < |e| ==> e[a].index != e[b].index
  }

  /**
   * Within one walk, no signal for an index outside the window comes before
   * a signal for an index inside it.
   */
  lemma {:induction false} WalkedWindowFirst(st: Store, layout: Layout, w: World, paths: seq<string>, order: seq<int>,
                                             j: nat, lo: int, hi: int)
    requires j <= |order| && IndicesBelow(order, |paths|)
    requires WindowFirst(order, lo, hi)
    ensures SignalsWindowFirst(Walked(st, layout, w, paths, order, j).emitted, lo, hi)
  {
    if j > 0 {
      var p := Walked(st, layout, w, paths, order, j - 1);
      var e := Walked(st, layout, w, paths, order, j).emitted;
      WalkedWindowFirst(st, layout, w, paths, order, j - 1, lo, hi);
      WalkedEmissions(st, layout, w, paths, order, j - 1);
      VisitTouchesOnlyItsPath(p.store, layout, w, order[j - 1], paths[order[j - 1]], w.clock(j - 1));
      forall a, b | 0 <= a < b < |e| && lo <= e[b].index < hi ensures lo <= e[a].index < hi {
        if b == |p.emitted| {
          var x := p.emitted[a].index;
          var q :| 0 <= q < j - 1 && q < |order| && order[q] == x;
        }
      }
    }
  }

  /** Within one walk no index is reported twice. */
  lemma {:induction false} WalkedEmitsOnce(st: Store, layout: Layout, w: World, paths: seq<string>, order: seq<int>, j: nat)
    requires j <= |order| && IndicesBelow(order, |paths|) && Sorting.Distinct(order)
    ensures SignalsOnce(Walked(st, layout, w, paths, order, j).emitted)
  {
    if j > 0 {
      var p := Walked(st, layout, w, paths, order, j - 1);
      var e := Walked(st, layout, w, paths, order, j).emitted;
      WalkedEmitsOnce(st, layout, w, paths, order, j - 1);
      WalkedEmissions(st, layout, w, paths, order, j - 1);
      VisitTouchesOnlyItsPath(p.store, layout, w, order[j - 1], paths[order[j - 1]], w.clock(j - 1));
      forall a, b | 0 <= a < b < |e| ensures e[a].index != e[b].index {
        if b == |p.emitted| {
          var x := p.emitted[a].index;
          var q :| 0 <= q < j - 1 && q < |order| && order[q] == x;
        }
      }
    }
  }

  /** Entries of paths the walk has not reached are left as they were. */
  lemma {:induction false} WalkedFrame(st: Store, layout: Layout, w: World, paths: seq<string>, order: seq<int>, j: nat, key: string)
    requires j <= |order| && IndicesBelow(order, |paths|)
    requires forall i :: 0 <= i < j ==> paths[order[i]] != key
    ensures var r := Walked(st, layout, w, paths, order, j).store.metadata;
      (key in r <==> key in st.metadata) && (key in r ==> r[key] == st.metadata[key])
  {
    if j > 0 {
      var p := Walked(st, layout, w, paths, order, j - 1);
      WalkedFrame(st, layout, w, paths, order, j - 1, key);
      VisitTouchesOnlyItsPath(p.store, layout, w, order[j - 1], paths[order[j - 1]], w.clock(j - 1));
    }
  }
}
