/**
 * The thumbnail cache kept by ThumbnailLoader: the per-path metadata
 * record, the name of each thumbnail file, the JSON metadata file and the
 * least-recently-used eviction that keeps the cache under its budget.
 */
module ThumbnailCache {
  import opened Json
  import Sorting

  /** One cache entry (CacheMetadata): times are milliseconds since the epoch. */
  datatype CacheMetadata = CacheMetadata(
    lastModified: int,
    sizeBytes: int,
    lastAccess: int,
    cacheFile: string)

  /** m_metadata: source path to entry. */
  type Metadata = map<string, CacheMetadata>

  /** The thumbnail files of the cache directory: full path to size in bytes. */
  type Thumbs = map<string, nat>

  type byte = b: int | 0 <= b < 256

  /** A SHA-256 digest. */
  type Digest = d: seq<byte> | |d| == 32 witness seq(32, i => 0)

  // ---------------------------------------------------------------------
  // File names
  // ---------------------------------------------------------------------

  /** The lower-case hexadecimal digit for 0 <= n < 16, as QByteArray::toHex writes it. */
  function HexDigit(n: int): char
    requires 0 <= n < 16
  {
    if n < 10 then ('0' as int + n) as char else ('a' as int + n - 10) as char
  }

  /** The value of a lower-case hexadecimal digit (0 for any other character). */
  function HexValue(c: char): (v: int)
    ensures 0 <= v < 16
  {
    if '0' <= c <= '9' then c as int - '0' as int
    else if 'a' <= c <= 'f' then c as int - 'a' as int + 10
    else 0
  }

  /** QByteArray::toHex: two lower-case digits per byte, high nibble first. */
  function ToHex(bytes: seq<byte>): (s: string)
    ensures |s| == 2 * |bytes|
  {
    if bytes == [] then ""
    else [HexDigit(bytes[0] / 16), HexDigit(bytes[0] % 16)] + ToHex(bytes[1..])
  }

  /** Reads back what ToHex writes. */
  function FromHex(s: string): seq<byte>
    requires |s| % 2 == 0
  {
    if s == "" then []
    else [HexValue(s[0]) * 16 + HexValue(s[1])] + FromHex(s[2..])
  }

  /** Hex encoding loses nothing: the digest can be read back from its digits. */
  lemma {:induction false} FromHexToHex(bytes: seq<byte>)
    ensures FromHex(ToHex(bytes)) == bytes
  {
    if bytes != [] {
      var s := ToHex(bytes);
      assert s[2..] == ToHex(bytes[1..]);
      FromHexToHex(bytes[1..]);
    }
  }

  /** Where the cache lives, and the one-way hash that names its files. */
  datatype Layout = Layout(cacheDir: string, sha256: string -> Digest) {
    /** getCacheFilePath: cacheDir + "/" + hex(sha256(path)) + ".thumb". */
    function CachePath(path: string): string {
      CacheFilePath(cacheDir, sha256(path))
    }

    /** m_metadataFile. */
    function MetadataPath(): string {
      cacheDir + "/cache_metadata.json"
    }
  }

  /** ConfigLocation + "/Endless_Slides/thumbnails", the directory the constructor sets. */
  function CacheDirIn(configLocation: string): string {
    configLocation + "/Endless_Slides/thumbnails"
  }

  /** The thumbnail file for a digest: a fixed-length name inside the cache directory. */
  function CacheFilePath(cacheDir: string, digest: Digest): (p: string)
    ensures |p| == |cacheDir| + 71
    ensures p[..|cacheDir| + 1] == cacheDir + "/"
    ensures p[|cacheDir| + 65..] == ".thumb"
  {
    cacheDir + "/" + ToHex(digest) + ".thumb"
  }

  /**
   * Two paths share a thumbnail file only when their digests are equal, so
   * the cache file is determined by the digest and the digest by the file.
   */
  lemma CacheFilePathInjective(cacheDir: string, d1: Digest, d2: Digest)
    ensures CacheFilePath(cacheDir, d1) == CacheFilePath(cacheDir, d2) <==> d1 == d2
  {
    if CacheFilePath(cacheDir, d1) == CacheFilePath(cacheDir, d2) {
      var n := |cacheDir| + 1;
      assert CacheFilePath(cacheDir, d1)[n..n + 64] == ToHex(d1);
      assert CacheFilePath(cacheDir, d2)[n..n + 64] == ToHex(d2);
      FromHexToHex(d1);
      FromHexToHex(d2);
    }
  }

  /** A thumbnail file is never the metadata file, so saving one cannot clobber the other. */
  lemma CachePathIsNotMetadataPath(layout: Layout, path: string)
    ensures layout.CachePath(path) != layout.MetadataPath()
  {
  }

  // ---------------------------------------------------------------------
  // Persistence: saveCacheMetadata / loadCacheMetadata
  // ---------------------------------------------------------------------

  /** (qint64) applied to a double: truncation toward zero. */
  function TruncateToInt(x: real): (n: int)
    ensures x >= 0.0 ==> n as real <= x < n as real + 1.0
    ensures x < 0.0 ==> n as real - 1.0 < x <= n as real
  {
    if x >= 0.0 then x.Floor else -((-x).Floor)
  }

  /** The JSON object saveCacheMetadata writes for one entry. */
  function EncodeEntry(e: CacheMetadata): Value {
    Object(map[
      "last_modified" := Number(e.lastModified as real),
      "size_bytes" := Number(e.sizeBytes as real),
      "last_access" := Number(e.lastAccess as real),
      "cache_file" := Str(e.cacheFile)])
  }

  /** The entry loadCacheMetadata builds from one JSON value; missing fields read as 0 or "". */
  function DecodeEntry(v: Value): CacheMetadata {
    var obj := AsObject(v);
    CacheMetadata(
      TruncateToInt(AsDouble(Member(obj, "last_modified"))),
      TruncateToInt(AsDouble(Member(obj, "size_bytes"))),
      TruncateToInt(AsDouble(Member(obj, "last_access"))),
      AsString(Member(obj, "cache_file")))
  }

  /** An entry survives the trip through its JSON object unchanged. */
  lemma DecodeEncodeEntry(e: CacheMetadata)
    ensures DecodeEntry(EncodeEntry(e)) == e
  {
  }

  /** The root object saveCacheMetadata writes: one member per cached path. */
  function EncodeAll(m: Metadata): (root: map<string, Value>)
    ensures root.Keys == m.Keys
  {
    map k | k in m :: EncodeEntry(m[k])
  }

  /** The entries loadCacheMetadata reads from a root object, one per member. */
  function DecodeAll(root: map<string, Value>): (m: Metadata)
    ensures m.Keys == root.Keys
  {
    map k | k in root :: DecodeEntry(root[k])
  }

  /**
   * loadCacheMetadata: a file that cannot be opened leaves the map as it is;
   * otherwise every member of the root object (none, for malformed JSON)
   * overwrites the entry of its key, and entries of other keys stay.
   */
  function LoadedFrom(m: Metadata, f: File): (r: Metadata)
    ensures f.Unopenable? ==> r == m
    ensures f.Stored? ==> r.Keys == m.Keys + RootObject(f.document).Keys
    ensures forall k :: k in r && k !in (if f.Stored? then RootObject(f.document).Keys else {}) ==> k in m && r[k] == m[k]
  {
    match f
    case Unopenable => m
    case Stored(doc) => m + DecodeAll(RootObject(doc))
  }

  /** Decoding the saved root object gives back every entry with all four fields. */
  lemma DecodeAllEncodeAll(m: Metadata)
    ensures DecodeAll(EncodeAll(m)) == m
  {
    var r := DecodeAll(EncodeAll(m));
    forall k | k in m ensures r[k] == m[k] {
      DecodeEncodeEntry(m[k]);
    }
  }

  /** Saving then loading into an empty map gives back every key with all four fields. */
  lemma SaveLoadRoundTrip(m: Metadata)
    ensures LoadedFrom(map[], Written(EncodeAll(m))) == m
  {
    SaveLoadOver(map[], m);
    assert map[] + m == m;
  }

  /** Loading a saved record over any map restores the saved entries and keeps the rest. */
  lemma SaveLoadOver(prior: Metadata, m: Metadata)
    ensures LoadedFrom(prior, Written(EncodeAll(m))) == prior + m
  {
    assert RootObject(Written(EncodeAll(m)).document) == EncodeAll(m);
    DecodeAllEncodeAll(m);
  }

  // ---------------------------------------------------------------------
  // Size accounting
  // ---------------------------------------------------------------------

  /** The sum of sizeBytes over all entries: the cache size eviction works with. */
  ghost function TotalBytes(m: Metadata): int
    decreases |m|
  {
    if m == map[] then 0
    else
      var k :| k in m;
      m[k].sizeBytes + TotalBytes(m - {k})
  }

  /** The sum does not depend on which entry is taken out first. */
  lemma {:induction false} TotalBytesRemove(m: Metadata, k: string)
    requires k in m
    ensures TotalBytes(m) == m[k].sizeBytes + TotalBytes(m - {k})
    decreases |m|
  {
    var j :| j in m && TotalBytes(m) == m[j].sizeBytes + TotalBytes(m - {j});
    if j != k {
      assert (m - {j}) - {k} == (m - {k}) - {j};
      TotalBytesRemove(m - {j}, k);
      TotalBytesRemove(m - {k}, j);
    }
  }

  /** Adding an entry for a new key adds its size. */
  lemma TotalBytesAdd(m: Metadata, k: string, e: CacheMetadata)
    requires k !in m
    ensures TotalBytes(m[k := e]) == e.sizeBytes + TotalBytes(m)
  {
    TotalBytesRemove(m[k := e], k);
    assert m[k := e] - {k} == m;
  }

  /** The entries of m whose keys are in ks: the metadata already summed, or the JSON members already read. */
  function Restrict<V>(m: map<string, V>, ks: set<string>): (r: map<string, V>)
    ensures r.Keys == m.Keys * ks
  {
    map k | k in m && k in ks :: m[k]
  }

  // ---------------------------------------------------------------------
  // Eviction: the second half of cleanCache
  // ---------------------------------------------------------------------

  /** The budget cleanCache derives from the configured size: (qint64)(maxMB * 1024 * 1024). */
  function BudgetBytes(maxMB: real): int {
    TruncateToInt(maxMB * 1048576.0)
  }

  /** The stopping rule currentBytes <= maxBytes * 0.9, with 0.9 taken as exactly 9/10. */
  predicate WithinTarget(total: int, maxBytes: int) {
    10 * total <= 9 * maxBytes
  }

  /** QFile::remove(file) succeeds: the file exists and the file system lets it go. */
  predicate Removes(thumbs: Thumbs, removable: string -> bool, file: string) {
    file in thumbs && removable(file)
  }

  /** Keys of a (lastAccess, key) list that are all distinct and all in m. */
  predicate KeysIn(items: seq<(int, string)>, m: Metadata) {
    && (forall i :: 0 <= i < |items| ==> items[i].1 in m)
    && (forall i, j :: 0 <= i < j < |items| ==> items[i].1 != items[j].1)
  }

  /** The comparator of cleanCache's std::sort: by lastAccess alone. */
  predicate AccessLe(a: (int, string), b: (int, string)) {
    a.0 <= b.0
  }

  /** The list cleanCache sorts: one (lastAccess, key) pair per entry, oldest access first. */
  predicate LruOrder(items: seq<(int, string)>, m: Metadata) {
    && KeysIn(items, m)
    && (forall i :: 0 <= i < |items| ==> items[i].0 == m[items[i].1].lastAccess)
    && (forall k :: k in m ==> exists i :: 0 <= i < |items| && items[i].1 == k)
    && Sorting.SortedBy(items, AccessLe)
  }

  datatype Eviction = Eviction(metadata: Metadata, thumbs: Thumbs, total: int)

  /**
   * The eviction loop of cleanCache from the current item on: stop once the
   * running total is within 90% of the budget; otherwise try to delete the
   * entry's file, and only when that succeeds drop the entry and its size.
   */
  function Evict(m: Metadata, thumbs: Thumbs, items: seq<(int, string)>, maxBytes: int,
                 removable: string -> bool, total: int): Eviction
    requires KeysIn(items, m)
    decreases |items|
  {
    if items == [] || WithinTarget(total, maxBytes) then Eviction(m, thumbs, total)
    else
      var key := items[0].1;
      var file := m[key].cacheFile;
      if Removes(thumbs, removable, file) then
        Evict(m - {key}, thumbs - {file}, items[1..], maxBytes, removable, total - m[key].sizeBytes)
      else
        Evict(m, thumbs, items[1..], maxBytes, removable, total)
  }

  /** One turn of the eviction loop, at position i of items, when the target is not yet met. */
  lemma EvictStep(m: Metadata, thumbs: Thumbs, items: seq<(int, string)>, i: nat,
                  maxBytes: int, removable: string -> bool, total: int)
    requires i < |items| && KeysIn(items[i..], m) && !WithinTarget(total, maxBytes)
    ensures items[i].1 in m
    ensures var key := items[i].1;
      var file := m[key].cacheFile;
      if Removes(thumbs, removable, file) then
        && KeysIn(items[i + 1..], m - {key})
        && Evict(m, thumbs, items[i..], maxBytes, removable, total)
           == Evict(m - {key}, thumbs - {file}, items[i + 1..], maxBytes, removable, total - m[key].sizeBytes)
      else
        && KeysIn(items[i + 1..], m)
        && Evict(m, thumbs, items[i..], maxBytes, removable, total)
           == Evict(m, thumbs, items[i + 1..], maxBytes, removable, total)
  {
    assert items[i..][0] == items[i];
    assert items[i..][1..] == items[i + 1..];
  }

  /**
   * Eviction only removes: surviving entries are untouched, every removed
   * entry was listed and had its file deleted, and files disappear only
   * together with an entry that named them.
   */
  lemma {:induction false} EvictOnlyRemoves(m: Metadata, thumbs: Thumbs, items: seq<(int, string)>,
                                            maxBytes: int, removable: string -> bool, total: int)
    requires KeysIn(items, m)
    ensures var r := Evict(m, thumbs, items, maxBytes, removable, total);
      && r.metadata.Keys <= m.Keys
      && (forall k :: k in r.metadata ==> r.metadata[k] == m[k])
      && (forall k :: k in m && k !in r.metadata ==>
            (exists i :: 0 <= i < |items| && items[i].1 == k) && removable(m[k].cacheFile) && m[k].cacheFile in thumbs)
      && r.thumbs.Keys <= thumbs.Keys
      && (forall f :: f in r.thumbs ==> r.thumbs[f] == thumbs[f])
      && (forall f :: f in thumbs && f !in r.thumbs ==> exists k :: k in m && k !in r.metadata && m[k].cacheFile == f)
    decreases |items|
  {
    if items != [] && !WithinTarget(total, maxBytes) {
      var key := items[0].1;
      var file := m[key].cacheFile;
      if Removes(thumbs, removable, file) {
        EvictOnlyRemoves(m - {key}, thumbs - {file}, items[1..], maxBytes, removable, total - m[key].sizeBytes);
      } else {
        EvictOnlyRemoves(m, thumbs, items[1..], maxBytes, removable, total);
      }
    }
  }

  /** Eviction never adds an entry. */
  lemma {:induction false} EvictKeysWithin(m: Metadata, thumbs: Thumbs, items: seq<(int, string)>,
                                           maxBytes: int, removable: string -> bool, total: int)
    requires KeysIn(items, m)
    ensures Evict(m, thumbs, items, maxBytes, removable, total).metadata.Keys <= m.Keys
    decreases |items|
  {
    if items != [] && !WithinTarget(total, maxBytes) {
      var key := items[0].1;
      var file := m[key].cacheFile;
      if Removes(thumbs, removable, file) {
        EvictKeysWithin(m - {key}, thumbs - {file}, items[1..], maxBytes, removable, total - m[key].sizeBytes);
      } else {
        EvictKeysWithin(m, thumbs, items[1..], maxBytes, removable, total);
      }
    }
  }

  /** When cleanCache removes no entry, the total and the files are untouched too. */
  lemma {:induction false} EvictKeepsAllWhenNothingRemoved(m: Metadata, thumbs: Thumbs, items: seq<(int, string)>,
                                                           maxBytes: int, removable: string -> bool, total: int)
    requires KeysIn(items, m)
    ensures var r := Evict(m, thumbs, items, maxBytes, removable, total);
      r.metadata == m ==> r.total == total && r.thumbs == thumbs
    decreases |items|
  {
    if items != [] && !WithinTarget(total, maxBytes) {
      var key := items[0].1;
      var file := m[key].cacheFile;
      if Removes(thumbs, removable, file) {
        EvictKeysWithin(m - {key}, thumbs - {file}, items[1..], maxBytes, removable, total - m[key].sizeBytes);
        assert key !in Evict(m - {key}, thumbs - {file}, items[1..], maxBytes, removable, total - m[key].sizeBytes).metadata;
      } else {
        EvictKeepsAllWhenNothingRemoved(m, thumbs, items[1..], maxBytes, removable, total);
      }
    }
  }

  /**
   * cleanCache stops as soon as the target is met. When it removes
   * something, every listed entry after the last removed one is kept, and
   * putting that last one back would take the total above the target: the
   * walk ended at the first removal that reached it, or at the list's end.
   */
  lemma {:induction false} EvictStopsAtTarget(m: Metadata, thumbs: Thumbs, items: seq<(int, string)>,
                                              maxBytes: int, removable: string -> bool, total: int)
    requires KeysIn(items, m)
    ensures Stopped(m, items, Evict(m, thumbs, items, maxBytes, removable, total), maxBytes)
    decreases |items|
  {
    if items != [] && !WithinTarget(total, maxBytes) {
      var key := items[0].1;
      var file := m[key].cacheFile;
      var rest := items[1..];
      if Removes(thumbs, removable, file) {
        var m', thumbs', total' := m - {key}, thumbs - {file}, total - m[key].sizeBytes;
        assert KeysIn(rest, m');
        EvictStopsAtTarget(m', thumbs', rest, maxBytes, removable, total');
        EvictKeysWithin(m', thumbs', rest, maxBytes, removable, total');
        EvictKeepsAllWhenNothingRemoved(m', thumbs', rest, maxBytes, removable, total');
        assert Evict(m, thumbs, items, maxBytes, removable, total) == Evict(m', thumbs', rest, maxBytes, removable, total');
        StoppedAfterRemoval(m, items, Evict(m', thumbs', rest, maxBytes, removable, total'), maxBytes, total);
      } else {
        EvictStopsAtTarget(m, thumbs, rest, maxBytes, removable, total);
        assert Evict(m, thumbs, items, maxBytes, removable, total) == Evict(m, thumbs, rest, maxBytes, removable, total);
        StoppedAfterSkip(m, items, Evict(m, thumbs, rest, maxBytes, removable, total), maxBytes);
      }
    }
  }

  /**
   * An eviction r of m over items stopped in time: it removed nothing, or
   * every listed entry after the last removed one is kept and restoring that
   * last one would take the total above the target.
   */
  predicate Stopped(m: Metadata, items: seq<(int, string)>, r: Eviction, maxBytes: int) {
    || r.metadata == m
    || exists i :: 0 <= i < |items| && items[i].1 in m && LastRemoved(m, r.metadata, items, i) &&
         !WithinTarget(r.total + m[items[i].1].sizeBytes, maxBytes)
  }

  /** A skipped head keeps the conclusion of the rest of the walk. */
  lemma StoppedAfterSkip(m: Metadata, items: seq<(int, string)>, r: Eviction, maxBytes: int)
    requires items != []
    requires Stopped(m, items[1..], r, maxBytes)
    ensures Stopped(m, items, r, maxBytes)
  {
    if r.metadata != m {
      var i :| 0 <= i < |items[1..]| && items[1..][i].1 in m && LastRemoved(m, r.metadata, items[1..], i) &&
        !WithinTarget(r.total + m[items[1..][i].1].sizeBytes, maxBytes);
      LastRemovedShift(m, m, r.metadata, items, i);
    }
  }

  /** A removed head above the target: the conclusion holds for the whole walk. */
  lemma StoppedAfterRemoval(m: Metadata, items: seq<(int, string)>, r: Eviction, maxBytes: int, total: int)
    requires KeysIn(items, m) && items != [] && !WithinTarget(total, maxBytes)
    requires var key := items[0].1;
      && r.metadata.Keys <= (m - {key}).Keys
      && (r.metadata == m - {key} ==> r.total == total - m[key].sizeBytes)
      && Stopped(m - {key}, items[1..], r, maxBytes)
    ensures Stopped(m, items, r, maxBytes)
  {
    var key := items[0].1;
    var m' := m - {key};
    assert key !in r.metadata;
    if r.metadata == m' {
      assert LastRemoved(m, r.metadata, items, 0) by {
        forall j | 0 < j < |items|
          ensures items[j].1 in r.metadata
        {
          assert items[j].1 in m && items[j].1 != key;
        }
      }
    } else {
      var i :| 0 <= i < |items[1..]| && items[1..][i].1 in m' && LastRemoved(m', r.metadata, items[1..], i) &&
        !WithinTarget(r.total + m'[items[1..][i].1].sizeBytes, maxBytes);
      LastRemovedShift(m, m', r.metadata, items, i);
    }
  }

  /** items[i] is the last listed entry of m that is missing from kept. */
  predicate LastRemoved(m: Metadata, kept: Metadata, items: seq<(int, string)>, i: int)
    requires 0 <= i < |items|
  {
    && items[i].1 in m && items[i].1 !in kept
    && forall j :: i < j < |items| ==> items[j].1 in kept
  }

  /** The last removed entry of the tail is the last removed entry of the whole list. */
  lemma LastRemovedShift(m: Metadata, m': Metadata, kept: Metadata, items: seq<(int, string)>, i: nat)
    requires |items| > 0 && i < |items| - 1
    requires m'.Keys <= m.Keys && (forall k :: k in m' ==> m'[k] == m[k])
    requires LastRemoved(m', kept, items[1..], i)
    ensures LastRemoved(m, kept, items, i + 1)
    ensures items[i + 1].1 in m' && m[items[i + 1].1] == m'[items[i + 1].1]
  {
    forall j | i + 1 < j < |items|
      ensures items[j].1 in kept
    {
      assert items[j] == items[1..][j - 1];
    }
  }

  /**
   * The running total stays exact: if it starts as the sum of sizeBytes, it
   * ends as the sum over the entries that survive, failed deletions included.
   */
  lemma {:induction false} EvictAccounting(m: Metadata, thumbs: Thumbs, items: seq<(int, string)>,
                                           maxBytes: int, removable: string -> bool, total: int)
    requires KeysIn(items, m)
    requires total == TotalBytes(m)
    ensures var r := Evict(m, thumbs, items, maxBytes, removable, total);
      r.total == TotalBytes(r.metadata)
    decreases |items|
  {
    if items != [] && !WithinTarget(total, maxBytes) {
      var key := items[0].1;
      var file := m[key].cacheFile;
      if Removes(thumbs, removable, file) {
        TotalBytesRemove(m, key);
        EvictAccounting(m - {key}, thumbs - {file}, items[1..], maxBytes, removable, total - m[key].sizeBytes);
      } else {
        EvictAccounting(m, thumbs, items[1..], maxBytes, removable, total);
      }
    }
  }

  /** Every entry's file exists, may be deleted, and belongs to that entry alone. */
  predicate AllRemovable(m: Metadata, thumbs: Thumbs, removable: string -> bool) {
    && (forall k :: k in m ==> Removes(thumbs, removable, m[k].cacheFile))
    && (forall k1, k2 :: k1 in m && k2 in m && k1 != k2 ==> m[k1].cacheFile != m[k2].cacheFile)
  }

  lemma AllRemovableAfterRemove(m: Metadata, thumbs: Thumbs, removable: string -> bool, key: string)
    requires key in m && AllRemovable(m, thumbs, removable)
    ensures AllRemovable(m - {key}, thumbs - {m[key].cacheFile}, removable)
  {
  }

  /**
   * When every deletion succeeds, eviction either reaches the 90% target or
   * removes every listed entry.
   */
  lemma {:induction false} EvictReachesTarget(m: Metadata, thumbs: Thumbs, items: seq<(int, string)>,
                                              maxBytes: int, removable: string -> bool, total: int)
    requires KeysIn(items, m)
    requires AllRemovable(m, thumbs, removable)
    ensures var r := Evict(m, thumbs, items, maxBytes, removable, total);
      WithinTarget(r.total, maxBytes) || forall i :: 0 <= i < |items| ==> items[i].1 !in r.metadata
    decreases |items|
  {
    if items != [] && !WithinTarget(total, maxBytes) {
      var key := items[0].1;
      AllRemovableAfterRemove(m, thumbs, removable, key);
      var m', thumbs', total' := m - {key}, thumbs - {m[key].cacheFile}, total - m[key].sizeBytes;
      var r := Evict(m', thumbs', items[1..], maxBytes, removable, total');
      assert Evict(m, thumbs, items, maxBytes, removable, total) == r;
      EvictReachesTarget(m', thumbs', items[1..], maxBytes, removable, total');
      EvictKeysWithin(m', thumbs', items[1..], maxBytes, removable, total');
      if !WithinTarget(r.total, maxBytes) {
        forall i | 0 <= i < |items| ensures items[i].1 !in r.metadata {
          if i > 0 {
            assert items[i] == items[1..][i - 1];
          }
        }
      }
    }
  }

  /**
   * The budget bound: with every entry listed and every deletion
   * succeeding, a non-negative budget ends with the total at or below 90% of it.
   */
  lemma EvictWithinBudget(m: Metadata, thumbs: Thumbs, items: seq<(int, string)>,
                          maxBytes: int, removable: string -> bool)
    requires LruOrder(items, m)
    requires AllRemovable(m, thumbs, removable)
    requires maxBytes >= 0
    ensures var r := Evict(m, thumbs, items, maxBytes, removable, TotalBytes(m));
      r.total == TotalBytes(r.metadata) && WithinTarget(r.total, maxBytes)
  {
    var r := Evict(m, thumbs, items, maxBytes, removable, TotalBytes(m));
    EvictAccounting(m, thumbs, items, maxBytes, removable, TotalBytes(m));
    EvictReachesTarget(m, thumbs, items, maxBytes, removable, TotalBytes(m));
    EvictOnlyRemoves(m, thumbs, items, maxBytes, removable, TotalBytes(m));
    assert forall k :: k in r.metadata ==> exists i :: 0 <= i < |items| && items[i].1 == k;
    assert (forall i :: 0 <= i < |items| ==> items[i].1 !in r.metadata) ==> r.metadata == map[];
  }

  /** The head of an LRU list is an entry accessed no later than any other. */
  lemma LruHeadOldest(items: seq<(int, string)>, m: Metadata, k: string)
    requires LruOrder(items, m) && items != [] && k in m
    ensures m[items[0].1].lastAccess <= m[k].lastAccess
  {
    var j :| 0 <= j < |items| && items[j].1 == k;
    if j > 0 {
      assert items[0].0 <= items[j].0;
    }
  }

  /** Dropping the head entry leaves an LRU list of the remaining entries. */
  lemma LruOrderTail(items: seq<(int, string)>, m: Metadata)
    requires LruOrder(items, m) && items != []
    ensures LruOrder(items[1..], m - {items[0].1})
  {
    KeysInTail(items, m);
    AccessTail(items, m);
    CoverTail(items, m);
    SortedTail(items);
  }

  lemma KeysInTail(items: seq<(int, string)>, m: Metadata)
    requires KeysIn(items, m) && items != []
    ensures KeysIn(items[1..], m - {items[0].1})
  {
    var m', items' := m - {items[0].1}, items[1..];
    forall i | 0 <= i < |items'| ensures items'[i].1 in m' {
      assert items'[i] == items[i + 1];
    }
    forall i, j | 0 <= i < j < |items'| ensures items'[i].1 != items'[j].1 {
      assert items'[i] == items[i + 1] && items'[j] == items[j + 1];
    }
  }

  lemma AccessTail(items: seq<(int, string)>, m: Metadata)
    requires KeysIn(items, m) && items != []
    requires forall i :: 0 <= i < |items| ==> items[i].0 == m[items[i].1].lastAccess
    ensures forall i :: 0 <= i < |items[1..]| ==> items[1..][i].0 == m[items[1..][i].1].lastAccess
  {
    var items' := items[1..];
    forall i | 0 <= i < |items'| ensures items'[i].0 == m[items'[i].1].lastAccess {
      assert items'[i] == items[i + 1];
    }
  }

  lemma CoverTail(items: seq<(int, string)>, m: Metadata)
    requires items != []
    requires forall k :: k in m ==> exists i :: 0 <= i < |items| && items[i].1 == k
    ensures forall k :: k in m - {items[0].1} ==> exists i :: 0 <= i < |items[1..]| && items[1..][i].1 == k
  {
    var m', items' := m - {items[0].1}, items[1..];
    forall k | k in m' ensures exists i :: 0 <= i < |items'| && items'[i].1 == k {
      var i :| 0 <= i < |items| && items[i].1 == k;
      assert items'[i - 1].1 == k;
    }
  }

  lemma SortedTail(items: seq<(int, string)>)
    requires items != [] && Sorting.SortedBy(items, AccessLe)
    ensures Sorting.SortedBy(items[1..], AccessLe)
  {
    var items' := items[1..];
    forall i, j | 0 <= i < j < |items'| ensures items'[i].0 <= items'[j].0 {
      assert items[i + 1].0 <= items[j + 1].0;
    }
  }

  /**
   * Least recently used first: when every deletion succeeds, no entry that
   * survives was accessed before an entry that was evicted.
   */
  lemma {:induction false} EvictLru(m: Metadata, thumbs: Thumbs, items: seq<(int, string)>,
                                    maxBytes: int, removable: string -> bool, total: int)
    requires LruOrder(items, m)
    requires AllRemovable(m, thumbs, removable)
    ensures var r := Evict(m, thumbs, items, maxBytes, removable, total);
      forall gone, kept :: gone in m && gone !in r.metadata && kept in m && kept in r.metadata ==>
        m[gone].lastAccess <= m[kept].lastAccess
    decreases |items|
  {
    var r := Evict(m, thumbs, items, maxBytes, removable, total);
    if items != [] && !WithinTarget(total, maxBytes) {
      var key := items[0].1;
      var m', thumbs', total' := m - {key}, thumbs - {m[key].cacheFile}, total - m[key].sizeBytes;
      AllRemovableAfterRemove(m, thumbs, removable, key);
      LruOrderTail(items, m);
      assert r == Evict(m', thumbs', items[1..], maxBytes, removable, total');
      EvictLru(m', thumbs', items[1..], maxBytes, removable, total');
      EvictOnlyRemoves(m', thumbs', items[1..], maxBytes, removable, total');
      forall gone, kept | gone in m && gone !in r.metadata && kept in m && kept in r.metadata
        ensures m[gone].lastAccess <= m[kept].lastAccess
      {
        if gone == key {
          LruHeadOldest(items, m, kept);
        } else {
          assert gone in m' && kept in m';
        }
      }
    }
  }
}
