/** The legacy `ImageCacheManager` object: its two maps are fields that its methods update step
    by step, and the cache directory is a `Volume`. Each method is proved to leave the state that
    the corresponding function of `LegacyCache` describes. */
module LegacyManager {
  import opened Wrappers
  import opened FileSystem
  import opened PyDict
  import opened LegacyCache
  import Sorting
  import Paths

  /** The loader's loop `lru_cache[filename] = data['last_accessed']` over the loaded entries,
      into an empty map. */
  method CollectAccessTimes(m: Metadata) returns (times: Lru)
    requires Distinct(m)
    ensures times == AccessTimes(m)
  {
    times := [];
    var i := 0;
    while i < |m|
      invariant 0 <= i <= |m|
      invariant times == AccessTimes(m[..i])
    {
      assert m[..i + 1] == m[..i] + [m[i]];
      AccessTimesAppend(m[..i], m[i]);
      FreshAfterPrefix(m, i);
      SameKeyOrder(AccessTimes(m[..i]), m[..i]);
      AssignPosition(times, m[i].key, m[i].value.lastAccessed);
      times := Assign(times, m[i].key, m[i].value.lastAccessed);
      i := i + 1;
    }
    assert m[..|m|] == m;
  }

  class ImageCacheManager {
    const cacheDir: string
    const maxCacheSizeBytes: int
    const volume: Volume
    var metadata: Metadata
    var lru: Lru
    /** What the metadata file in the directory holds. */
    var stored: Stored

    function State(): Cache
      reads this, volume
    {
      Cache(metadata, lru, volume.files, stored)
    }

    ghost predicate Valid()
      reads this, volume
    {
      Sound(State())
    }

    /** `__init__`: the limit in bytes, empty maps, then `_load_metadata` and `_validate_cache`.
        `persisted` is what the metadata file holds. */
    constructor(cacheDir: string, maxCacheSizeMb: int, volume: Volume, persisted: Stored, now: Time)
      requires volume.Valid() && (persisted.Saved? ==> Distinct(persisted.entries))
      modifies volume
      ensures Valid() && this.cacheDir == cacheDir && this.volume == volume
      ensures maxCacheSizeBytes == maxCacheSizeMb * BytesPerMegabyte
      ensures State() == Validated(Loaded(Cache([], [], old(volume.files), persisted)), old(volume.listable),
                                   volume.locked, now, maxCacheSizeBytes)
    {
      this.cacheDir := cacheDir;
      this.maxCacheSizeBytes := maxCacheSizeMb * BytesPerMegabyte;
      this.volume := volume;
      metadata := [];
      lru := [];
      stored := persisted;
      new;
      LoadMetadata();
      ValidateCache(now);
    }

    /** `_load_metadata`, on the empty maps the constructor starts with. */
    method LoadMetadata()
      requires Valid() && metadata == [] && lru == []
      modifies this
      ensures Valid() && State() == Loaded(old(State()))
      ensures unchanged(volume)
    {
      LoadedSound(State());
      if volume.Exists(MetadataFile) {
        match stored
        case Unparsable =>
          metadata, lru := [], [];
        case Saved(m) =>
          metadata := m;
          var times := CollectAccessTimes(m);
          lru := Sorting.SortBy(times, ByTime);
      }
    }

    /** `_save_metadata`. */
    method SaveMetadata(now: Time)
      requires Valid()
      modifies this, volume
      ensures Valid() && volume.listable == old(volume.listable)
      ensures State() == AfterSave(old(State()), volume.locked, now)
    {
      SaveSound(State(), volume.locked, now);
      var ok := volume.Write(MetadataFileAt(now));
      if ok {
        stored := Saved(metadata);
      }
    }
 
    /** `_validate_cache`: the orphan loop over a snapshot of the listing, the missing-file loop
        over the names `metadata` held, then the limit and a save. */
    method ValidateCache(now: Time)
      requires Valid()
      modifies this, volume
      ensures Valid() && volume.listable == old(volume.listable)
      ensures State() == Validated(old(State()), volume.listable, volume.locked, now, maxCacheSizeBytes)
    {
      if !volume.listable {
        return;
      }
      ghost var c0 := State();
      var listing := volume.files;
      var known := KeySet(metadata);
      var names := Keys(metadata);
      var i := 0;
      while i < |listing|
        invariant 0 <= i <= |listing|
        invariant Valid() && volume.listable == old(volume.listable)
        invariant Adopt(listing[i..], State(), known, volume.locked, now) == Adopt(listing, c0, known, volume.locked, now)
      {
        var f := listing[i];
        assert listing[i..][1..] == listing[i + 1..];
        if f.path != MetadataFile && f.path !in known {
          if IsImageFile(f.path) {
            AdoptedSound(State(), f, now);
            metadata := Assign(metadata, f.path, Meta(f.size, now, now, KindOf(f.path)));
            lru := Assign(lru, f.path, now);
          } else {
            var ok := volume.Delete(f.path);
            if !ok {
              return;
            }
          }
        }
        i := i + 1;
      }
      ghost var a := State();
      var present := PathSet(listing) - {MetadataFile};
      var j := 0;
      while j < |names|
        invariant 0 <= j <= |names|
        invariant Valid() && volume.listable == old(volume.listable)
        invariant DropMissing(names[j..], State(), present) == DropMissing(names, a, present)
      {
        var n := names[j];
        assert names[j..][1..] == names[j + 1..];
        if n !in present {
          ForgetSound(State(), n);
          metadata := Delete(metadata, n);
          lru := Delete(lru, n);
        }
        j := j + 1;
      }
      EnforceCacheSizeLimit();
      SaveMetadata(now);
    }

    /** `_enforce_cache_size_limit`: the sweep over a snapshot of the LRU order. */
    method EnforceCacheSizeLimit()
      requires Valid()
      modifies this, volume
      ensures Valid() && volume.listable == old(volume.listable)
      ensures State() == Enforced(old(State()), volume.locked, maxCacheSizeBytes)
    {
      var currentSize := TotalSize(metadata);
      if currentSize <= maxCacheSizeBytes {
        return;
      }
      var bytesToRemove := currentSize - maxCacheSizeBytes;
      var bytesRemoved: nat := 0;
      var order := Keys(lru);
      ghost var c0 := State();
      var i := 0;
      while i < |order|
        invariant 0 <= i <= |order|
        invariant Valid() && volume.listable == old(volume.listable)
        invariant Sweep(order[i..], State(), volume.locked, bytesToRemove, bytesRemoved)
                  == Enforced(c0, volume.locked, maxCacheSizeBytes)
      {
        assert order[i..][0] == order[i] && order[i..][1..] == order[i + 1..];
        SweepByTurns(order[i..], State(), volume.locked, bytesToRemove, bytesRemoved);
        var stop;
        bytesRemoved, stop := SweepName(order[i], bytesToRemove, bytesRemoved);
        if stop {
          return;
        }
        i := i + 1;
      }
    }

    /** One turn of the sweep loop, at name `n`. */
    method SweepName(n: string, need: int, removed: nat) returns (removed': nat, stop: bool)
      requires Valid()
      modifies this, volume
      ensures Valid() && volume.listable == old(volume.listable)
      ensures Turn(State(), removed', stop) == SweepTurn(n, old(State()), volume.locked, need, removed)
    {
      removed', stop := removed, true;
      if removed >= need {
        return;
      }
      stop := false;
      if n != MetadataFile && volume.Exists(n) {
        match Get(metadata, n)
        case None =>
          stop := true;
        case Some(m) =>
          EvictSound(State(), n);
          var ok := volume.Delete(n);
          if !ok {
            stop := true;
            return;
          }
          removed' := removed + m.size;
          metadata := Delete(metadata, n);
          lru := Delete(lru, n);
      }
    }

    /** `_update_access_time`. */
    method UpdateAccessTime(name: string, now: Time)
      requires Valid()
      modifies this, volume
      ensures Valid() && volume.listable == old(volume.listable)
      ensures State() == Touched(old(State()), name, volume.locked, now)
    {
      match Get(metadata, name)
      case None =>
      case Some(m) =>
        GetFacts(metadata, name);
        AccessedSound(State(), name, m.(lastAccessed := now), now);
        metadata := Assign(metadata, name, m.(lastAccessed := now));
        lru := Assign(Delete(lru, name), name, now);
        if |lru| % SaveEvery == 0 {
          SaveMetadata(now);
        }
    }

    /** The lookup `get_image_path` and `get_thumbnail_path` share, for a file name. */
    method CachedFile(name: string, now: Time) returns (path: Option<string>)
      requires Valid()
      modifies this, volume
      ensures Valid() && volume.listable == old(volume.listable)
      ensures (path, State()) == Lookup(old(State()), cacheDir, name, volume.locked, now)
    {
      if volume.Exists(name) {
        UpdateAccessTime(name, now);
        path := Some(Paths.Combine(cacheDir, name));
      } else {
        path := None;
      }
    }

    /** `get_image_path`. */
    method GetImagePath(imageId: string, now: Time) returns (path: Option<string>)
      requires Valid()
      modifies this, volume
      ensures Valid() && volume.listable == old(volume.listable)
      ensures (path, State()) == Lookup(old(State()), cacheDir, imageId, volume.locked, now)
    {
      path := CachedFile(imageId, now);
    }

    /** `get_thumbnail_path`: the file `thumb_<id>`. */
    method GetThumbnailPath(imageId: string, now: Time) returns (path: Option<string>)
      requires Valid()
      modifies this, volume
      ensures Valid() && volume.listable == old(volume.listable)
      ensures (path, State()) == Lookup(old(State()), cacheDir, ThumbPrefix + imageId, volume.locked, now)
    {
      path := CachedFile(ThumbPrefix + imageId, now);
    }

    /** The download both public download methods share: `body` is the response body, none when
        the request failed. */
    method Download(name: string, kind: Kind, body: Option<seq<Byte>>, now: Time) returns (path: Option<string>)
      requires Valid()
      modifies this, volume
      ensures Valid() && volume.listable == old(volume.listable)
      ensures (path, State()) == Fetched(old(State()), cacheDir, name, kind, body, volume.locked, maxCacheSizeBytes, now)
    {
      path := CachedFile(name, now);
      if path.Some? || body.None? {
        return;
      }
      var written := Store(name, kind, body.value, now);
      if written {
        path := Some(Paths.Combine(cacheDir, name));
      }
    }

    /** Writing a downloaded body to the file `name` and recording it by plain assignment (a stale
        LRU entry keeps its place), the save, the limit. */
    method Store(name: string, kind: Kind, bytes: seq<Byte>, now: Time) returns (ok: bool)
      requires Valid()
      modifies this, volume
      ensures Valid() && volume.listable == old(volume.listable)
      ensures ok <==> name !in volume.locked
      ensures State() == match SavingAsWritten(old(State()), name, kind, bytes, volume.locked, maxCacheSizeBytes, now)
                         case None => old(State())
                         case Some(r) => r
    {
      ok := volume.Write(DiskFile(name, |bytes|, now, now, Image(bytes)));
      if !ok {
        return;
      }
      RecordAsWrittenSound(State(), name, |bytes|, kind, now);
      metadata := Assign(metadata, name, FreshMeta(|bytes|, kind, now));
      lru := Assign(lru, name, now);
      SaveMetadata(now);
      EnforceCacheSizeLimit();
    }

    /** `download_image`. */
    method DownloadImage(imageId: string, body: Option<seq<Byte>>, now: Time) returns (path: Option<string>)
      requires Valid()
      modifies this, volume
      ensures Valid() && volume.listable == old(volume.listable)
      ensures (path, State()) == Fetched(old(State()), cacheDir, imageId, ImageEntry, body, volume.locked, maxCacheSizeBytes, now)
    {
      path := Download(imageId, ImageEntry, body, now);
    }

    /** `download_thumbnail`: `compressed` is the compressed response body, none when the request
        failed. */
    method DownloadThumbnail(imageId: string, compressed: Option<seq<Byte>>, now: Time) returns (path: Option<string>)
      requires Valid()
      modifies this, volume
      ensures Valid() && volume.listable == old(volume.listable)
      ensures (path, State()) == Fetched(old(State()), cacheDir, ThumbPrefix + imageId, ThumbnailEntry, compressed,
                                         volume.locked, maxCacheSizeBytes, now)
    {
      path := Download(ThumbPrefix + imageId, ThumbnailEntry, compressed, now);
    }

    /** `clear_cache`. */
    method ClearCache(now: Time)
      requires Valid()
      modifies this, volume
      ensures Valid() && volume.listable == old(volume.listable)
      ensures State() == Cleared(old(State()), volume.listable, volume.locked, now)
    {
      if !volume.listable {
        return;
      }
      ghost var c0 := State();
      var listing := volume.files;
      var i := 0;
      while i < |listing|
        invariant 0 <= i <= |listing|
        invariant Valid() && volume.listable == old(volume.listable)
        invariant ClearFrom(listing[i..], State(), volume.locked) == ClearFrom(listing, c0, volume.locked)
      {
        var f := listing[i];
        assert listing[i..][1..] == listing[i + 1..];
        if f.path != MetadataFile {
          var ok := volume.Delete(f.path);
          if !ok {
            return;
          }
        }
        i := i + 1;
      }
      metadata, lru := [], [];
      SaveMetadata(now);
    }

    /** `get_cache_stats`, its integer fields. */
    method GetCacheStats() returns (stats: CacheStats)
      ensures stats == Stats(metadata)
    {
      stats := Stats(metadata);
    }
  }
}
