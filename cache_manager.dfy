/** `CacheManager`: downloaded wallpapers stored as `<id><ext>` files in one directory, an
    in-memory table of last access times persisted as `access-times.json` in that directory, and
    least-recently-used eviction down to a byte limit. */
module Cache {
  import opened Wrappers
  import opened FileSystem
  import opened Errors
  import Validation
  import Paths
  import Sorting
  import Eviction
  import Numbers

  const IndexFileName: string := "access-times.json"

  /** One entry of the cache history (`CachedImage`). */
  datatype CachedImage = CachedImage(imageId: string, filePath: string, cachedAt: Time,
                                     fileSize: nat, lastAccessTime: Time)

  predicate IsIndexPath(p: string) { Paths.GetFileName(p) == IndexFileName }

  /** Total size of the files in the listing, not counting the access-time index. */
  function ImageBytes(files: seq<DiskFile>): nat {
    if files == [] then 0
    else (if IsIndexPath(files[0].path) then 0 else files[0].size) + ImageBytes(files[1..])
  }

  /** `GetCacheSize` as a value: 0 when the directory cannot be listed. */
  function CurrentSize(files: seq<DiskFile>, listable: bool): nat {
    if listable then ImageBytes(files) else 0
  }

  /** The history entry of one file: its id is the file name without extension, and its last
      access is the recorded one for that id, else the file system's. */
  function Entry(f: DiskFile, accessTimes: map<string, Time>): (img: CachedImage)
    ensures img.filePath == f.path && img.fileSize == f.size && img.cachedAt == f.createdAt
    ensures img.imageId == Paths.GetFileNameWithoutExtension(f.path)
    ensures img.imageId in accessTimes ==> img.lastAccessTime == accessTimes[img.imageId]
    ensures img.imageId !in accessTimes ==> img.lastAccessTime == f.accessedAt
  {
    var id := Paths.GetFileNameWithoutExtension(f.path);
    CachedImage(id, f.path, f.createdAt, f.size,
                if id in accessTimes then accessTimes[id] else f.accessedAt)
  }

  /** `GetCacheHistoryAsync` over a listing: one entry per file except the index, in listing order. */
  function History(files: seq<DiskFile>, accessTimes: map<string, Time>): seq<CachedImage> {
    if files == [] then []
    else if IsIndexPath(files[0].path) then History(files[1..], accessTimes)
    else [Entry(files[0], accessTimes)] + History(files[1..], accessTimes)
  }

  function LastAccessKey(img: CachedImage): int { img.lastAccessTime }

  function SizeOf(img: CachedImage): nat { img.fileSize }

  function PathOf(img: CachedImage): string { img.filePath }

  /** The eviction order: the history sorted stably by last access, oldest first. */
  function LruOrder(files: seq<DiskFile>, accessTimes: map<string, Time>, listable: bool): seq<CachedImage> {
    if listable then Sorting.SortBy(History(files, accessTimes), LastAccessKey) else []
  }

  /** A deletion succeeds unless the file is locked. */
  function Unlocked(locked: set<string>): CachedImage -> bool {
    (img: CachedImage) => img.filePath !in locked
  }

  predicate Removed(order: seq<CachedImage>, j: nat, need: int, locked: set<string>)
    requires j < |order|
  {
    Eviction.Evicted(order, j, need, Unlocked(locked), SizeOf)
  }

  /** Where the cleanup sweep stands: bytes counted as freed, paths deleted, ids forgotten. */
  datatype SweepState = SweepState(freed: nat, paths: set<string>, ids: set<string>)

  /** The sweep after the first `n` candidates of the eviction order: a candidate is deleted,
      counted and forgotten when fewer than `need` bytes were freed before it and its file is not
      locked. */
  function SweepAfter(order: seq<CachedImage>, n: nat, need: int, locked: set<string>): SweepState
    requires n <= |order|
  {
    if n == 0 then SweepState(0, {}, {})
    else
      var s := SweepAfter(order, n - 1, need, locked);
      var img := order[n - 1];
      if s.freed < need && img.filePath !in locked
      then SweepState(s.freed + img.fileSize, s.paths + {img.filePath}, s.ids + {img.imageId})
      else s
  }

  /** The id pattern `<id>.*` of `Directory.GetFiles`, with Windows semantics: the bare name
      `<id>` or `<id>.` followed by anything. */
  predicate MatchesIdPattern(name: string, id: string) {
    name == id || (id + ".") <= name
  }

  /** Some file of the listing matches `<id>.*`. */
  predicate HasIdFile(files: seq<DiskFile>, id: string) {
    exists f :: f in files && MatchesIdPattern(Paths.GetFileName(f.path), id)
  }

  /** The index file as `SaveAccessTimes` writes it. */
  function IndexFile(dir: string, accessTimes: map<string, Time>, now: Time): DiskFile {
    DiskFile(Paths.Combine(dir, IndexFileName), 0, now, now, AccessIndex(accessTimes))
  }

  /** The listing after `SaveAccessTimes`: a failed write changes nothing. */
  function WithIndex(files: seq<DiskFile>, dir: string, accessTimes: map<string, Time>, now: Time,
                     locked: set<string>): seq<DiskFile> {
    if Paths.Combine(dir, IndexFileName) in locked then files
    else Put(files, IndexFile(dir, accessTimes, now))
  }

  /** What `LoadAccessTimes` reads back: the stored table, or nothing when the file is missing or
      does not hold one. */
  function LoadedTimes(files: seq<DiskFile>, dir: string): map<string, Time> {
    match Find(files, Paths.Combine(dir, IndexFileName))
    case Some(f) => if f.data.AccessIndex? then f.data.times else map[]
    case None => map[]
  }

  /** No image file (any file but the index) is locked against deletion. */
  predicate ImagesUnlocked(files: seq<DiskFile>, locked: set<string>) {
    forall f :: f in files && !IsIndexPath(f.path) ==> f.path !in locked
  }

  /** A file of the listing that the history entry `img` describes. */
  predicate Holds(files: seq<DiskFile>, img: CachedImage) {
    Find(files, img.filePath).Some? && Find(files, img.filePath).value.size == img.fileSize
    && !IsIndexPath(img.filePath)
  }

  // ----- facts about the listing -----

  lemma {:induction false} FindUnique(files: seq<DiskFile>, f: DiskFile)
    requires DistinctPaths(files) && f in files
    ensures Find(files, f.path) == Some(f)
  {
    if files[0] != f {
      assert f in files[1..];
      PathSetMembers(files[1..]);
      FindUnique(files[1..], f);
    }
  }

  lemma {:induction false} FindAfterRemove(files: seq<DiskFile>, gone: set<string>, p: string)
    requires p !in gone
    ensures Find(RemovePaths(files, gone), p) == Find(files, p)
  {
    if files != [] {
      FindAfterRemove(files[1..], gone, p);
    }
  }

  lemma {:induction false} RemoveTwice(files: seq<DiskFile>, gone: set<string>, more: set<string>)
    ensures RemovePaths(RemovePaths(files, gone), more) == RemovePaths(files, gone + more)
  {
    if files != [] {
      RemoveTwice(files[1..], gone, more);
    }
  }

  lemma {:induction false} RemoveNothing(files: seq<DiskFile>)
    ensures RemovePaths(files, {}) == files
  {
    if files != [] {
      RemoveNothing(files[1..]);
    }
  }

  /** Deleting one image file takes exactly its size off the total. */
  lemma {:induction false} ImageBytesRemoveOne(files: seq<DiskFile>, p: string)
    requires DistinctPaths(files) && Find(files, p).Some? && !IsIndexPath(p)
    ensures ImageBytes(RemovePaths(files, {p})) == ImageBytes(files) - Find(files, p).value.size
  {
    if files[0].path == p {
      PathSetMembers(files[1..]);
      RemovePathsAbsent(files[1..], {p});
    } else {
      ImageBytesRemoveOne(files[1..], p);
    }
  }

  lemma {:induction false} RemovePathsAbsent(files: seq<DiskFile>, gone: set<string>)
    requires forall f :: f in files ==> f.path !in gone
    ensures RemovePaths(files, gone) == files
  {
    if files != [] {
      RemovePathsAbsent(files[1..], gone);
    }
  }

  /** Writing the index file does not change the image total. */
  lemma {:induction false} ImageBytesPutIndex(files: seq<DiskFile>, f: DiskFile)
    requires IsIndexPath(f.path)
    ensures ImageBytes(Put(files, f)) == ImageBytes(files)
  {
    if files != [] && files[0].path != f.path {
      ImageBytesPutIndex(files[1..], f);
    }
  }

  lemma IndexPathIsIndex(dir: string)
    ensures IsIndexPath(Paths.Combine(dir, IndexFileName))
  {
    assert !Paths.HasSeparator(IndexFileName) by {
      forall i | 0 <= i < |IndexFileName| ensures !Paths.IsDirectorySeparator(IndexFileName[i]) { }
    }
    Paths.FileNameOfCombine(dir, IndexFileName);
  }

  /** Persisting the table and loading it back gives the same table. */
  lemma SaveLoadRoundTrip(files: seq<DiskFile>, dir: string, accessTimes: map<string, Time>,
                          now: Time, locked: set<string>)
    requires Paths.Combine(dir, IndexFileName) !in locked
    ensures LoadedTimes(WithIndex(files, dir, accessTimes, now, locked), dir) == accessTimes
  {
    PutFind(files, IndexFile(dir, accessTimes, now));
  }

  /** Saving the index leaves the image total where it was. */
  lemma ImageBytesWithIndex(files: seq<DiskFile>, dir: string, accessTimes: map<string, Time>,
                            now: Time, locked: set<string>)
    ensures ImageBytes(WithIndex(files, dir, accessTimes, now, locked)) == ImageBytes(files)
  {
    IndexPathIsIndex(dir);
    if Paths.Combine(dir, IndexFileName) !in locked {
      ImageBytesPutIndex(files, IndexFile(dir, accessTimes, now));
    }
  }

  // ----- the history -----

  /** Every history entry describes a file of the listing, never the index. */
  lemma {:induction false} HistoryHolds(files: seq<DiskFile>, accessTimes: map<string, Time>)
    requires DistinctPaths(files)
    ensures forall img :: img in History(files, accessTimes) ==> Holds(files, img)
  {
    if files != [] {
      HistoryHolds(files[1..], accessTimes);
      HistoryPaths(files[1..], accessTimes);
      forall img | img in History(files, accessTimes) ensures Holds(files, img) {
        if img in History(files[1..], accessTimes) {
          PathSetMembers(files[1..]);
          var f :| f in files[1..] && f.path == img.filePath;
          FindUnique(files[1..], f);
          FindUnique(files, f);
        }
      }
    }
  }

  lemma {:induction false} HistoryPaths(files: seq<DiskFile>, accessTimes: map<string, Time>)
    ensures forall img :: img in History(files, accessTimes) ==> img.filePath in PathSet(files)
  {
    if files != [] {
      HistoryPaths(files[1..], accessTimes);
    }
  }

  /** Distinct files give history entries with distinct paths. */
  lemma {:induction false} HistoryDistinct(files: seq<DiskFile>, accessTimes: map<string, Time>)
    requires DistinctPaths(files)
    ensures Sorting.DistinctBy(History(files, accessTimes), PathOf)
  {
    if files != [] {
      HistoryDistinct(files[1..], accessTimes);
      HistoryPaths(files[1..], accessTimes);
      var h := History(files, accessTimes);
      var t := History(files[1..], accessTimes);
      if !IsIndexPath(files[0].path) {
        forall i, j | 0 <= i < j < |h| ensures PathOf(h[i]) != PathOf(h[j]) {
          assert h[j] == t[j - 1];
          if i > 0 { assert h[i] == t[i - 1]; }
        }
      }
    }
  }

  /** The history covers every byte the size count covers. */
  lemma {:induction false} HistorySize(files: seq<DiskFile>, accessTimes: map<string, Time>)
    ensures Sorting.SumBy(History(files, accessTimes), SizeOf) == ImageBytes(files)
  {
    if files != [] {
      HistorySize(files[1..], accessTimes);
      if !IsIndexPath(files[0].path) {
        assert History(files, accessTimes)[1..] == History(files[1..], accessTimes);
      }
    }
  }

  /** The history lists exactly the non-index files, one entry each, in listing order. */
  lemma {:induction false} HistoryCoversImages(files: seq<DiskFile>, accessTimes: map<string, Time>, f: DiskFile)
    requires f in files && !IsIndexPath(f.path)
    ensures Entry(f, accessTimes) in History(files, accessTimes)
  {
    if files[0] != f {
      HistoryCoversImages(files[1..], accessTimes, f);
    }
  }

  // ----- the eviction order -----

  /** The eviction order holds the history's entries, oldest access first, ties in listing order. */
  lemma LruOrderFacts(files: seq<DiskFile>, accessTimes: map<string, Time>)
    requires DistinctPaths(files)
    ensures Sorting.SortedBy(LruOrder(files, accessTimes, true), LastAccessKey)
    ensures multiset(LruOrder(files, accessTimes, true)) == multiset(History(files, accessTimes))
    ensures Sorting.DistinctBy(LruOrder(files, accessTimes, true), PathOf)
    ensures var order := LruOrder(files, accessTimes, true);
      forall j {:trigger Holds(files, order[j])} :: 0 <= j < |order| ==> Holds(files, order[j])
    ensures Sorting.SumBy(LruOrder(files, accessTimes, true), SizeOf) == ImageBytes(files)
  {
    var h := History(files, accessTimes);
    Sorting.SortBySorted(h, LastAccessKey);
    Sorting.SortByPermutes(h, LastAccessKey);
    HistoryDistinct(files, accessTimes);
    Sorting.SortByDistinct(h, LastAccessKey, PathOf);
    HistoryHolds(files, accessTimes);
    var order := LruOrder(files, accessTimes, true);
    forall j | 0 <= j < |order| ensures Holds(files, order[j]) {
      assert order[j] in multiset(h);
    }
    Sorting.SortBySum(h, LastAccessKey, SizeOf);
    HistorySize(files, accessTimes);
  }

  /** Least recently used first: a deleted image was last used no later than any deletable
      image the cleanup kept. */
  lemma LruVictimsFirst(files: seq<DiskFile>, accessTimes: map<string, Time>, need: int,
                        locked: set<string>, j: nat, k: nat)
    requires DistinctPaths(files)
    requires var order := LruOrder(files, accessTimes, true);
      j < |order| && k < |order| && Removed(order, j, need, locked)
      && order[k].filePath !in locked && !Removed(order, k, need, locked)
    ensures LruOrder(files, accessTimes, true)[j].lastAccessTime
            <= LruOrder(files, accessTimes, true)[k].lastAccessTime
  {
    var order := LruOrder(files, accessTimes, true);
    LruOrderFacts(files, accessTimes);
    Eviction.EvictedBeforeKept(order, j, k, need, Unlocked(locked), SizeOf);
  }

  /** When every removal succeeds, the sweep frees at least `need` bytes or removes every image. */
  lemma {:induction false} AllRemovedFreesEverything(order: seq<CachedImage>, n: nat, need: int,
                                                       locked: set<string>)
    requires n <= |order|
    requires forall j :: 0 <= j < n ==> Removed(order, j, need, locked)
    ensures Eviction.Freed(order, n, need, Unlocked(locked), SizeOf) == Sorting.SumBy(order[..n], SizeOf)
  {
    if n > 0 {
      AllRemovedFreesEverything(order, n - 1, need, locked);
      assert Removed(order, n - 1, need, locked);
      assert Eviction.Freed(order, n, need, Unlocked(locked), SizeOf)
             == Eviction.Freed(order, n - 1, need, Unlocked(locked), SizeOf) + SizeOf(order[n - 1]);
      assert order[..n] == order[..n - 1] + [order[n - 1]];
      Sorting.SumByAppend(order[..n - 1], order[n - 1], SizeOf);
    }
  }

  /** The cleanup reaches its limit when no image file is locked: either it frees the excess or
      it deletes every image. */
  lemma CleanupMeetsLimit(files: seq<DiskFile>, accessTimes: map<string, Time>, locked: set<string>,
                          maxSizeBytes: int)
    requires DistinctPaths(files) && maxSizeBytes >= 0
    requires ImagesUnlocked(files, locked)
    requires maxSizeBytes < ImageBytes(files) <= Numbers.MaxInt64
    ensures ImageBytes(files) - CleanupSweep(files, accessTimes, true, locked, maxSizeBytes).freed <= maxSizeBytes
  {
    var order := LruOrder(files, accessTimes, true);
    var need := ImageBytes(files) - maxSizeBytes;
    assert CleanupSweep(files, accessTimes, true, locked, maxSizeBytes) == SweepAfter(order, |order|, need, locked);
    LruOrderFacts(files, accessTimes);
    SweepFreed(order, |order|, need, locked);
    forall j | 0 <= j < |order| ensures Unlocked(locked)(order[j]) {
      assert Holds(files, order[j]);
      FindFacts(files, order[j].filePath);
    }
    Eviction.FreedEnoughOrAll(order, |order|, need, Unlocked(locked), SizeOf);
    assert order[..|order|] == order;
    if Eviction.Freed(order, |order|, need, Unlocked(locked), SizeOf) < need {
      AllRemovedFreesEverything(order, |order|, need, locked);
    }
  }

  /** The sweep's byte count is the generic eviction count. */
  lemma {:induction false} SweepFreed(order: seq<CachedImage>, n: nat, need: int, locked: set<string>)
    requires n <= |order|
    ensures SweepAfter(order, n, need, locked).freed == Eviction.Freed(order, n, need, Unlocked(locked), SizeOf)
  {
    if n > 0 {
      SweepFreed(order, n - 1, need, locked);
    }
  }

  /** A removed candidate's path is deleted and its id forgotten. */
  lemma {:induction false} SweepRemoves(order: seq<CachedImage>, j: nat, n: nat, need: int, locked: set<string>)
    requires j < n <= |order| && Removed(order, j, need, locked)
    ensures order[j].filePath in SweepAfter(order, n, need, locked).paths
    ensures order[j].imageId in SweepAfter(order, n, need, locked).ids
  {
    if j < n - 1 {
      SweepRemoves(order, j, n - 1, need, locked);
    } else {
      SweepFreed(order, j, need, locked);
    }
  }

  /** Every deleted path is that of a removed candidate. */
  lemma {:induction false} SweepOnlyRemoves(order: seq<CachedImage>, n: nat, need: int, locked: set<string>, p: string)
    requires n <= |order| && p in SweepAfter(order, n, need, locked).paths
    ensures exists j :: 0 <= j < n && Removed(order, j, need, locked) && order[j].filePath == p
  {
    SweepFreed(order, n - 1, need, locked);
    if !(Removed(order, n - 1, need, locked) && order[n - 1].filePath == p) {
      SweepOnlyRemoves(order, n - 1, need, locked, p);
    }
  }

  /** Once enough is freed the sweep deletes nothing more. */
  lemma {:induction false} SweepStable(order: seq<CachedImage>, m: nat, n: nat, need: int, locked: set<string>)
    requires m <= n <= |order| && SweepAfter(order, m, need, locked).freed >= need
    ensures SweepAfter(order, n, need, locked) == SweepAfter(order, m, need, locked)
  {
    if m < n {
      SweepStable(order, m, n - 1, need, locked);
    }
  }

  /** The file of candidate `i` is still there when the sweep reaches it. */
  lemma StillThere(files0: seq<DiskFile>, order: seq<CachedImage>, i: nat, need: int, locked: set<string>)
    requires Sorting.DistinctBy(order, PathOf) && i < |order|
    requires Holds(files0, order[i])
    ensures Find(RemovePaths(files0, SweepAfter(order, i, need, locked).paths), order[i].filePath) == Find(files0, order[i].filePath)
  {
    var gone := SweepAfter(order, i, need, locked).paths;
    if order[i].filePath in gone {
      SweepOnlyRemoves(order, i, need, locked, order[i].filePath);
    }
    FindAfterRemove(files0, gone, order[i].filePath);
  }

  /** One step of the cleanup sweep: the file of candidate `i` is still listed, and deleting it
      deletes one more path. */
  lemma CleanupStep(files0: seq<DiskFile>, order: seq<CachedImage>, i: nat, need: int, locked: set<string>)
    requires Sorting.DistinctBy(order, PathOf) && i < |order| && Holds(files0, order[i])
    ensures var gone := SweepAfter(order, i, need, locked).paths;
      order[i].filePath in PathSet(RemovePaths(files0, gone))
    ensures var gone := SweepAfter(order, i, need, locked).paths;
      RemovePaths(RemovePaths(files0, gone), {order[i].filePath}) == RemovePaths(files0, gone + {order[i].filePath})
  {
    StillThere(files0, order, i, need, locked);
    FindFacts(RemovePaths(files0, SweepAfter(order, i, need, locked).paths), order[i].filePath);
    RemoveTwice(files0, SweepAfter(order, i, need, locked).paths, {order[i].filePath});
  }

  /** The bytes the sweep counts are exactly the bytes that leave the directory. */
  lemma {:induction false} SweptBytes(files0: seq<DiskFile>, order: seq<CachedImage>, n: nat, need: int, locked: set<string>)
    requires DistinctPaths(files0) && Sorting.DistinctBy(order, PathOf) && n <= |order|
    requires forall j {:trigger Holds(files0, order[j])} :: 0 <= j < |order| ==> Holds(files0, order[j])
    ensures ImageBytes(RemovePaths(files0, SweepAfter(order, n, need, locked).paths))
            + SweepAfter(order, n, need, locked).freed == ImageBytes(files0)
  {
    if n == 0 {
      RemoveNothing(files0);
    } else {
      SweptBytes(files0, order, n - 1, need, locked);
      var gone := SweepAfter(order, n - 1, need, locked).paths;
      var img := order[n - 1];
      if SweepAfter(order, n - 1, need, locked).freed < need && img.filePath !in locked {
        assert Holds(files0, img);
        StillThere(files0, order, n - 1, need, locked);
        RemovePathsDistinct(files0, gone);
        ImageBytesRemoveOne(RemovePaths(files0, gone), img.filePath);
        RemoveTwice(files0, gone, {img.filePath});
      }
    }
  }

  // ----- the outcome of a cleanup -----

  /** `bytesToRemove` of `CleanupCacheAsync`: the excess over the limit, computed in `long`, so
      that it wraps to a negative number when the limit is close to `long.MinValue`. */
  function BytesToRemove(files: seq<DiskFile>, listable: bool, maxSizeBytes: int): (r: Numbers.Int64)
    ensures Numbers.MinInt64 <= CurrentSize(files, listable) - maxSizeBytes <= Numbers.MaxInt64 ==>
              r == CurrentSize(files, listable) - maxSizeBytes
    ensures Numbers.MaxInt64 < CurrentSize(files, listable) - maxSizeBytes < 0x1_0000_0000_0000_0000 ==>
              r == CurrentSize(files, listable) - maxSizeBytes - 0x1_0000_0000_0000_0000 && r < 0
  {
    Numbers.WrapInt64(CurrentSize(files, listable) - maxSizeBytes)
  }

  /** The sweep a cleanup performs: over the eviction order, for the excess over the limit. */
  function CleanupSweep(files: seq<DiskFile>, accessTimes: map<string, Time>, listable: bool,
                        locked: set<string>, maxSizeBytes: int): SweepState {
    var order := LruOrder(files, accessTimes, listable);
    SweepAfter(order, |order|, BytesToRemove(files, listable, maxSizeBytes), locked)
  }

  /** A sweep that needs nothing deletes nothing. */
  lemma {:induction false} SweepNothingNeeded(order: seq<CachedImage>, n: nat, need: int, locked: set<string>)
    requires n <= |order| && need <= 0
    ensures SweepAfter(order, n, need, locked) == SweepState(0, {}, {})
  {
    if n > 0 {
      SweepNothingNeeded(order, n - 1, need, locked);
    }
  }

  /** The listing after `CleanupCacheAsync`: untouched within the limit; otherwise the swept files
      are gone and the index is rewritten. */
  function CleanedFiles(files: seq<DiskFile>, accessTimes: map<string, Time>, listable: bool,
                        locked: set<string>, maxSizeBytes: int, dir: string, now: Time): seq<DiskFile> {
    if CurrentSize(files, listable) <= maxSizeBytes then files
    else WithIndex(RemovePaths(files, CleanupSweep(files, accessTimes, listable, locked, maxSizeBytes).paths),
                   dir, CleanedTimes(files, accessTimes, listable, locked, maxSizeBytes), now, locked)
  }

  /** The table after `CleanupCacheAsync`: the swept ids are forgotten. */
  function CleanedTimes(files: seq<DiskFile>, accessTimes: map<string, Time>, listable: bool,
                        locked: set<string>, maxSizeBytes: int): map<string, Time> {
    if CurrentSize(files, listable) <= maxSizeBytes then accessTimes
    else accessTimes - CleanupSweep(files, accessTimes, listable, locked, maxSizeBytes).ids
  }

  /** A cleanup takes off exactly the bytes its sweep counts. */
  lemma CleanupFreesSweep(files: seq<DiskFile>, accessTimes: map<string, Time>, locked: set<string>,
                          maxSizeBytes: int, dir: string, now: Time)
    requires DistinctPaths(files) && ImageBytes(files) > maxSizeBytes
    ensures ImageBytes(CleanedFiles(files, accessTimes, true, locked, maxSizeBytes, dir, now))
            == ImageBytes(files) - CleanupSweep(files, accessTimes, true, locked, maxSizeBytes).freed
  {
    var order := LruOrder(files, accessTimes, true);
    var need := BytesToRemove(files, true, maxSizeBytes);
    var sweep := CleanupSweep(files, accessTimes, true, locked, maxSizeBytes);
    assert sweep == SweepAfter(order, |order|, need, locked);
    var rest := RemovePaths(files, sweep.paths);
    var times := CleanedTimes(files, accessTimes, true, locked, maxSizeBytes);
    assert CleanedFiles(files, accessTimes, true, locked, maxSizeBytes, dir, now) == WithIndex(rest, dir, times, now, locked);
    LruOrderFacts(files, accessTimes);
    SweptBytes(files, order, |order|, need, locked);
    ImageBytesWithIndex(rest, dir, times, now, locked);
  }

  /** The cleanup reaches its limit when no image file is locked (and the images fit the `long`
      that `GetCacheSize` returns). */
  lemma CleanupReachesLimit(files: seq<DiskFile>, accessTimes: map<string, Time>, locked: set<string>,
                            maxSizeBytes: int, dir: string, now: Time)
    requires DistinctPaths(files) && maxSizeBytes >= 0 && ImagesUnlocked(files, locked)
    requires ImageBytes(files) <= Numbers.MaxInt64
    ensures ImageBytes(CleanedFiles(files, accessTimes, true, locked, maxSizeBytes, dir, now)) <= maxSizeBytes
  {
    if ImageBytes(files) > maxSizeBytes {
      CleanupFreesSweep(files, accessTimes, locked, maxSizeBytes, dir, now);
      CleanupMeetsLimit(files, accessTimes, locked, maxSizeBytes);
    }
  }

  /** With a negative limit whose excess still fits a `long`, and no image locked, the cleanup
      deletes every image. */
  lemma NegativeLimitEmptiesCache(files: seq<DiskFile>, accessTimes: map<string, Time>, locked: set<string>,
                                  maxSizeBytes: int, dir: string, now: Time)
    requires DistinctPaths(files) && maxSizeBytes < 0 && ImagesUnlocked(files, locked)
    requires ImageBytes(files) - maxSizeBytes <= Numbers.MaxInt64
    ensures ImageBytes(CleanedFiles(files, accessTimes, true, locked, maxSizeBytes, dir, now)) == 0
  {
    NegativeLimitSweepsAll(files, accessTimes, locked, maxSizeBytes);
    CleanupFreesSweep(files, accessTimes, locked, maxSizeBytes, dir, now);
  }

  /** With a negative limit whose excess still fits a `long`, and no image locked, the sweep
      frees every image byte. */
  lemma NegativeLimitSweepsAll(files: seq<DiskFile>, accessTimes: map<string, Time>, locked: set<string>,
                               maxSizeBytes: int)
    requires DistinctPaths(files) && maxSizeBytes < 0 && ImagesUnlocked(files, locked)
    requires ImageBytes(files) - maxSizeBytes <= Numbers.MaxInt64
    ensures CleanupSweep(files, accessTimes, true, locked, maxSizeBytes).freed == ImageBytes(files)
  {
    var order := LruOrder(files, accessTimes, true);
    var need := ImageBytes(files) - maxSizeBytes;
    assert CleanupSweep(files, accessTimes, true, locked, maxSizeBytes) == SweepAfter(order, |order|, need, locked);
    LruOrderFacts(files, accessTimes);
    SweepFreed(order, |order|, need, locked);
    SweptBytes(files, order, |order|, need, locked);
    forall j | 0 <= j < |order| ensures Unlocked(locked)(order[j]) {
      assert Holds(files, order[j]);
      FindFacts(files, order[j].filePath);
    }
    Eviction.FreedEnoughOrAll(order, |order|, need, Unlocked(locked), SizeOf);
    assert order[..|order|] == order;
    AllRemovedFreesEverything(order, |order|, need, locked);
  }

  /** When the excess over the limit overflows a `long`, `bytesToRemove` wraps negative: the
      loop stops before its first deletion, every image stays and only the index is rewritten. */
  lemma WrappedExcessDeletesNothing(files: seq<DiskFile>, accessTimes: map<string, Time>, locked: set<string>,
                                    maxSizeBytes: int, dir: string, now: Time)
    requires Numbers.MaxInt64 < ImageBytes(files) - maxSizeBytes < 0x1_0000_0000_0000_0000
    ensures CleanupSweep(files, accessTimes, true, locked, maxSizeBytes) == SweepState(0, {}, {})
    ensures CleanedTimes(files, accessTimes, true, locked, maxSizeBytes) == accessTimes
    ensures CleanedFiles(files, accessTimes, true, locked, maxSizeBytes, dir, now)
            == WithIndex(files, dir, accessTimes, now, locked)
    ensures ImageBytes(CleanedFiles(files, accessTimes, true, locked, maxSizeBytes, dir, now)) == ImageBytes(files)
  {
    var order := LruOrder(files, accessTimes, true);
    SweepNothingNeeded(order, |order|, BytesToRemove(files, true, maxSizeBytes), locked);
    RemoveNothing(files);
    assert accessTimes - {} == accessTimes;
    ImageBytesWithIndex(files, dir, accessTimes, now, locked);
  }

  /** Deleted ids are no longer in the table. */
  lemma SweptIdsGone(accessTimes: map<string, Time>, order: seq<CachedImage>, need: int,
                     locked: set<string>, j: nat)
    requires j < |order| && Removed(order, j, need, locked)
    ensures order[j].imageId !in accessTimes - SweepAfter(order, |order|, need, locked).ids
  {
    SweepRemoves(order, j, |order|, need, locked);
  }

  // ----- the cache manager -----

  class CacheManager {
    const cacheDirectory: string
    /** `Path.GetInvalidPathChars()`, `Path.GetInvalidFileNameChars()` and `Path.GetFullPath`,
        as used by the validation service. */
    const invalidPathChars: set<char>
    const invalidNameChars: set<char>
    const fullPath: string -> Option<string>
    const volume: Volume
    var accessTimes: map<string, Time>

    predicate Valid()
      reads this, volume
    {
      volume.Valid()
    }

    function IndexPath(): string { Paths.Combine(cacheDirectory, IndexFileName) }

    /** The constructor: starts from an empty table and loads the persisted one, if any. */
    constructor(cacheDirectory: string, invalidPathChars: set<char>, invalidNameChars: set<char>,
                fullPath: string -> Option<string>, volume: Volume)
      requires volume.Valid()
      ensures Valid()
      ensures this.cacheDirectory == cacheDirectory && this.volume == volume
      ensures this.invalidPathChars == invalidPathChars && this.invalidNameChars == invalidNameChars
      ensures this.fullPath == fullPath
      ensures accessTimes == LoadedTimes(volume.files, cacheDirectory)
    {
      this.cacheDirectory := cacheDirectory;
      this.invalidPathChars := invalidPathChars;
      this.invalidNameChars := invalidNameChars;
      this.fullPath := fullPath;
      this.volume := volume;
      accessTimes := map[];
      new;
      LoadAccessTimes();
    }

    /** Copies every entry of the stored table over the current one; a missing or unreadable
        index leaves it unchanged. */
    method LoadAccessTimes()
      modifies this
      ensures accessTimes == old(accessTimes) + LoadedTimes(volume.files, cacheDirectory)
      ensures unchanged(volume)
    {
      var found := Find(volume.files, IndexPath());
      if found.Some? && found.value.data.AccessIndex? {
        accessTimes := accessTimes + found.value.data.times;
      } else {
        assert LoadedTimes(volume.files, cacheDirectory) == map[];
        assert accessTimes + map[] == accessTimes;
      }
    }

    /** Writes the table to the index file; a failed write is logged and ignored. */
    method SaveAccessTimes(now: Time)
      requires Valid()
      modifies volume
      ensures Valid() && volume.listable == old(volume.listable)
      ensures volume.files == WithIndex(old(volume.files), cacheDirectory, accessTimes, now, volume.locked)
    {
      var ok := volume.Write(IndexFile(cacheDirectory, accessTimes, now));
    }

    /** `GetCachedImagePath`. */
    function GetCachedImagePath(imageId: string, extension: string): (r: Result<string, Fault>)
      ensures r.Failure? && !Validation.IsValidImageIdAsWritten(imageId) ==> r.error.code == InvalidImageId
      ensures r.Success? ==>
        Validation.IsValidImageIdAsWritten(imageId) && r.value == Paths.Combine(cacheDirectory, imageId + extension) && Validation.IsValidFilePath(r.value, invalidPathChars, invalidNameChars, fullPath)
      ensures Validation.IsValidImageIdAsWritten(imageId) ==>
        (r.Failure? <==> !Validation.IsValidFilePath(Paths.Combine(cacheDirectory, imageId + extension),
                                                      invalidPathChars, invalidNameChars, fullPath))
      ensures r.Failure? && Validation.IsValidImageIdAsWritten(imageId) ==> r.error.code == CacheError
    {
      if !Validation.IsValidImageIdAsWritten(imageId) then
        Failure(NewFault(InvalidImageId, "Invalid image ID: " + imageId))
      else
        var path := Paths.Combine(cacheDirectory, imageId + extension);
        if !Validation.IsValidFilePath(path, invalidPathChars, invalidNameChars, fullPath) then
          Failure(NewFault(CacheError, "Invalid cache file path"))
        else
          Success(path)
    }

    /** `IsCached`: some file of the directory matches `<id>.*`; a listing error reads as false. */
    predicate IsCached(imageId: string)
      reads this, volume
    {
      volume.listable && HasIdFile(volume.files, imageId)
    }

    /** `GetExistingCachedImagePath`: the first listed file matching `<id>.*`, or null. */
    function GetExistingCachedImagePath(imageId: string): (r: Option<string>)
      reads this, volume
      ensures r.Some? ==> r.value in PathSet(volume.files) && MatchesIdPattern(Paths.GetFileName(r.value), imageId)
      ensures r.None? <==> !IsCached(imageId)
    {
      if !volume.listable then None else FirstMatch(volume.files, imageId)
    }

    /** `UpdateAccessTime`: records `now` for the id, whether or not a file exists for it. */
    method UpdateAccessTime(imageId: string, now: Time)
      modifies this
      ensures accessTimes == old(accessTimes)[imageId := now]
    {
      accessTimes := accessTimes[imageId := now];
    }

    /** `GetCacheSize`: sums the file lengths, skipping the index file. */
    method GetCacheSize() returns (totalSize: nat)
      ensures totalSize == CurrentSize(volume.files, volume.listable)
    {
      if !volume.listable {
        return 0;
      }
      totalSize := SumImageBytes(volume.files);
    }

    /** `GetCacheHistoryAsync`: one entry per file except the index; empty when listing fails. */
    method GetCacheHistory() returns (cachedImages: seq<CachedImage>)
      ensures cachedImages == if volume.listable then History(volume.files, accessTimes) else []
    {
      cachedImages := [];
      if !volume.listable {
        return;
      }
      cachedImages := CollectHistory(volume.files, accessTimes);
    }

    /** `CleanupCacheAsync`: when the images exceed `maxSizeBytes`, deletes images in
        least-recently-used order until the excess is freed, forgets their access times and saves
        the table. A file that cannot be deleted is skipped and its bytes are not counted. */
    method CleanupCache(maxSizeBytes: Numbers.Int64, now: Time)
      requires Valid()
      modifies this, volume
      ensures Valid() && volume.listable == old(volume.listable)
      ensures volume.files == CleanedFiles(old(volume.files), old(accessTimes), volume.listable, volume.locked, maxSizeBytes, cacheDirectory, now)
      ensures accessTimes == CleanedTimes(old(volume.files), old(accessTimes), volume.listable, volume.locked, maxSizeBytes)
    {
      ghost var files0, times0, listable := volume.files, accessTimes, volume.listable;
      var currentSize := GetCacheSize();
      if currentSize <= maxSizeBytes {
        return;
      }
      var bytesToRemove := Numbers.WrapInt64(currentSize - maxSizeBytes);
      ghost var order := LruOrder(files0, times0, listable);
      ghost var sweep := SweepAfter(order, |order|, bytesToRemove, volume.locked);
      assert sweep == CleanupSweep(files0, times0, listable, volume.locked, maxSizeBytes);
      var bytesRemoved, filesRemoved := EvictOldest(bytesToRemove);
      assert volume.files == RemovePaths(files0, sweep.paths);
      assert accessTimes == CleanedTimes(files0, times0, listable, volume.locked, maxSizeBytes);
      SaveAccessTimes(now);
      assert volume.files == WithIndex(RemovePaths(files0, sweep.paths), cacheDirectory, accessTimes, now, volume.locked);
    }

    /** The middle of `CleanupCacheAsync`: reads the history, orders it least recently used
        first and deletes in that order until `need` bytes are freed. */
    method EvictOldest(need: int) returns (bytesRemoved: nat, filesRemoved: nat)
      requires Valid()
      modifies this, volume
      ensures Valid() && volume.listable == old(volume.listable)
      ensures var order := LruOrder(old(volume.files), old(accessTimes), old(volume.listable));
        var swept := SweepAfter(order, |order|, need, volume.locked);
        bytesRemoved == swept.freed && volume.files == RemovePaths(old(volume.files), swept.paths) && accessTimes == old(accessTimes) - swept.ids
    {
      ghost var files0 := volume.files;
      ghost var times0 := accessTimes;
      var cachedImages := GetCacheHistory();
      var sortedImages := Sorting.SortBy(cachedImages, LastAccessKey);
      ghost var order := LruOrder(files0, times0, volume.listable);
      if volume.listable {
        LruOrderFacts(files0, times0);
      } else {
        assert sortedImages == [];
      }
      assert sortedImages == order;
      bytesRemoved, filesRemoved := EvictInOrder(sortedImages, need);
    }

    /** The deletion loop of `CleanupCacheAsync`: walks the eviction order until `need` bytes
        are freed, deleting each file and forgetting its id; a file that cannot be deleted is
        skipped. */
    method EvictInOrder(order: seq<CachedImage>, need: int) returns (bytesRemoved: nat, filesRemoved: nat)
      requires Valid() && Sorting.DistinctBy(order, PathOf)
      requires forall j {:trigger Holds(volume.files, order[j])} :: 0 <= j < |order| ==> Holds(volume.files, order[j])
      modifies this, volume
      ensures Valid() && volume.listable == old(volume.listable)
      ensures var swept := SweepAfter(order, |order|, need, volume.locked);
        bytesRemoved == swept.freed && volume.files == RemovePaths(old(volume.files), swept.paths) && accessTimes == old(accessTimes) - swept.ids
    {
      ghost var files0 := volume.files;
      ghost var times0 := accessTimes;
      bytesRemoved, filesRemoved := 0, 0;
      RemoveNothing(files0);
      assert accessTimes == times0 - {};
      var i := 0;
      while i < |order|
        invariant 0 <= i <= |order|
        invariant volume.Valid() && volume.listable == old(volume.listable)
        invariant var swept := SweepAfter(order, i, need, volume.locked);
          bytesRemoved == swept.freed && volume.files == RemovePaths(files0, swept.paths) && accessTimes == times0 - swept.ids
      {
        if bytesRemoved >= need {
          SweepStable(order, i, |order|, need, volume.locked);
          break;
        }
        var cachedImage := order[i];
        assert Holds(files0, cachedImage);
        CleanupStep(files0, order, i, need, volume.locked);
        if volume.Exists(cachedImage.filePath) {
          var deleted := volume.Delete(cachedImage.filePath);
          if deleted {
            bytesRemoved := bytesRemoved + cachedImage.fileSize;
            filesRemoved := filesRemoved + 1;
            ghost var ids := SweepAfter(order, i, need, volume.locked).ids;
            assert times0 - ids - {cachedImage.imageId} == times0 - (ids + {cachedImage.imageId});
            accessTimes := accessTimes - {cachedImage.imageId};
          }
        } else {
          assert false;
        }
        i := i + 1;
      }
    }

    /** `ClearCacheAsync`: deletes every file of the directory, the index included, counts the
        deletions that succeeded and empties the table. An error listing the directory escapes. */
    method ClearCache() returns (deletedCount: Option<nat>)
      requires Valid()
      modifies this, volume
      ensures Valid() && volume.listable == old(volume.listable)
      ensures !old(volume.listable) ==> deletedCount.None? && volume.files == old(volume.files)
                                        && accessTimes == old(accessTimes)
      ensures old(volume.listable) ==>
        deletedCount == Some(|old(volume.files)| - |volume.files|)
        && volume.files == RemovePaths(old(volume.files), PathSet(old(volume.files)) - volume.locked)
        && accessTimes == map[]
      ensures forall f :: f in volume.files ==> f in old(volume.files)
      ensures old(volume.listable) ==> forall f :: f in volume.files ==> f.path in volume.locked
    {
      if !volume.listable {
        return None;
      }
      ghost var files := volume.files;
      var count := DeleteEach(volume);
      OnlyLockedRemain(files, volume.locked);
      RemovePathsFacts(files, PathSet(files) - volume.locked);
      accessTimes := map[];
      deletedCount := Some(count);
    }
  }

  /** The deletion loop of `ClearCacheAsync`: deletes each listed file in turn and counts the
      deletions that succeeded. */
  method DeleteEach(volume: Volume) returns (count: nat)
    requires volume.Valid()
    modifies volume
    ensures volume.Valid() && volume.listable == old(volume.listable)
    ensures volume.files == RemovePaths(old(volume.files), PathSet(old(volume.files)) - volume.locked)
    ensures count == |old(volume.files)| - |volume.files|
  {
    var files := volume.files;
    count := 0;
    var i := 0;
    ghost var cleared: set<string> := {};
    RemoveNothing(files);
    assert files[..0] == [];
    while i < |files|
      invariant 0 <= i <= |files|
      invariant volume.Valid() && volume.listable == old(volume.listable)
      invariant cleared == PathSet(files[..i]) - volume.locked
      invariant volume.files == RemovePaths(files, cleared)
      invariant count + |volume.files| == |files|
    {
      ClearStep(files, i, volume.locked);
      var deleted := volume.Delete(files[i].path);
      if deleted {
        cleared := cleared + {files[i].path};
        count := count + 1;
      }
      i := i + 1;
    }
    assert files[..|files|] == files;
  }

  /** The summing loop of `GetCacheSize`. */
  method SumImageBytes(files: seq<DiskFile>) returns (totalSize: nat)
    ensures totalSize == ImageBytes(files)
  {
    totalSize := 0;
    var i := 0;
    while i < |files|
      invariant 0 <= i <= |files|
      invariant totalSize + ImageBytes(files[i..]) == ImageBytes(files)
    {
      assert files[i..][1..] == files[i + 1..];
      if Paths.GetFileName(files[i].path) != IndexFileName {
        totalSize := totalSize + files[i].size;
      }
      i := i + 1;
    }
  }

  /** The listing loop of `GetCacheHistoryAsync`. */
  method CollectHistory(files: seq<DiskFile>, accessTimes: map<string, Time>) returns (cachedImages: seq<CachedImage>)
    ensures cachedImages == History(files, accessTimes)
  {
    cachedImages := [];
    var i := 0;
    while i < |files|
      invariant 0 <= i <= |files|
      invariant cachedImages == History(files[..i], accessTimes)
    {
      HistorySnoc(files[..i], files[i], accessTimes);
      assert files[..i + 1] == files[..i] + [files[i]];
      if !IsIndexPath(files[i].path) {
        cachedImages := cachedImages + [Entry(files[i], accessTimes)];
      }
      i := i + 1;
    }
    assert files[..|files|] == files;
  }

  /** The history of a listing grows by the entry of each file appended, the index aside. */
  lemma {:induction false} HistorySnoc(files: seq<DiskFile>, f: DiskFile, accessTimes: map<string, Time>)
    ensures History(files + [f], accessTimes) ==
            History(files, accessTimes) + (if IsIndexPath(f.path) then [] else [Entry(f, accessTimes)])
  {
    if files == [] {
      assert files + [f] == [f];
    } else {
      assert (files + [f])[1..] == files[1..] + [f];
      HistorySnoc(files[1..], f, accessTimes);
    }
  }

  function FirstMatch(files: seq<DiskFile>, imageId: string): (r: Option<string>)
    ensures r.Some? ==> r.value in PathSet(files) && MatchesIdPattern(Paths.GetFileName(r.value), imageId)
    ensures r.None? <==> !HasIdFile(files, imageId)
  {
    if files == [] then None
    else if MatchesIdPattern(Paths.GetFileName(files[0].path), imageId) then Some(files[0].path)
    else FirstMatch(files[1..], imageId)
  }

  lemma {:induction false} PathSetAppend(files: seq<DiskFile>, f: DiskFile)
    ensures PathSet(files + [f]) == PathSet(files) + {f.path}
  {
    if files != [] {
      assert (files + [f])[1..] == files[1..] + [f];
      PathSetAppend(files[1..], f);
    }
  }

  /** One step of `ClearCache`: deleting file `i` after the unlocked files before it. */
  lemma ClearStep(files: seq<DiskFile>, i: nat, locked: set<string>)
    requires DistinctPaths(files) && i < |files|
    ensures files[i].path in locked ==> PathSet(files[..i]) - locked == PathSet(files[..i + 1]) - locked
    ensures var cleared := PathSet(files[..i]) - locked;
      var p := files[i].path;
      p !in locked ==>
        cleared + {p} == PathSet(files[..i + 1]) - locked && RemovePaths(RemovePaths(files, cleared), {p}) == RemovePaths(files, cleared + {p}) && |RemovePaths(RemovePaths(files, cleared), {p})| == |RemovePaths(files, cleared)| - 1
  {
    var cleared := PathSet(files[..i]) - locked;
    var p := files[i].path;
    assert files[..i + 1] == files[..i] + [files[i]];
    PathSetAppend(files[..i], files[i]);
    if p !in locked {
      RemoveTwice(files, cleared, {p});
      NotInPrefix(files, i);
      PathSetMembers(files);
      assert files[i] in files;
      RemovePathsFacts(files, cleared);
      RemovePathsDistinct(files, cleared);
      RemoveOneShorter(RemovePaths(files, cleared), p);
    }
  }

  /** After deleting every unlocked path, only locked files remain. */
  lemma OnlyLockedRemain(files: seq<DiskFile>, locked: set<string>)
    ensures forall f :: f in RemovePaths(files, PathSet(files) - locked) ==> f.path in locked
  {
    PathSetMembers(files);
    RemovePathsFacts(files, PathSet(files) - locked);
  }

  /** Removing a listed path shortens a listing without duplicates by exactly one. */
  lemma {:induction false} RemoveOneShorter(files: seq<DiskFile>, p: string)
    requires DistinctPaths(files) && p in PathSet(files)
    ensures |RemovePaths(files, {p})| == |files| - 1
  {
    if files[0].path == p {
      PathSetMembers(files[1..]);
      RemovePathsAbsent(files[1..], {p});
    } else {
      RemoveOneShorter(files[1..], p);
    }
  }

  /** In a listing without duplicates, no earlier file has the path of file `i`. */
  lemma {:induction false} NotInPrefix(files: seq<DiskFile>, i: nat)
    requires DistinctPaths(files) && i < |files|
    ensures files[i].path !in PathSet(files[..i])
  {
    if i > 0 {
      assert files[1..][..i - 1] == files[..i][1..];
      NotInPrefix(files[1..], i - 1);
      PathSetMembers(files[1..]);
      assert files[i] in files[1..];
    }
  }
}
