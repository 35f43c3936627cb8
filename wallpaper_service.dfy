/** `WallpaperService`: sets the desktop wallpaper for an image id by asking the catalogue for
    the image's URL, downloading it into the cache, handing the file to the system, and then
    trimming the cache to the configured size. The system call is a given oracle. */
module Wallpaper {
  import opened Wrappers
  import opened Numbers
  import opened Errors
  import opened FileSystem
  import Configuration
  import Api
  import Downloader
  import Cache

  /** What `SystemParametersInfo` does: returns an integer, or throws (the library or its entry
      point cannot be found, ...). */
  datatype SystemCall = Returned(code: int) | Threw

  function NotFound(imagePath: string): Fault {
    Fault(InvalidImage, "Image file not found: " + imagePath, map["ImagePath" := Text(imagePath)])
  }

  function CallFailed(imagePath: string, code: int): Fault {
    Fault(SystemApiError, "Windows API call to set wallpaper failed",
          map["ImagePath" := Text(imagePath), "SystemResult" := Number(code)])
  }

  function CallThrew(imagePath: string): Fault {
    Fault(SystemApiError, "Failed to set wallpaper", map["ImagePath" := Text(imagePath)])
  }

  /** `SetWallpaper` for a file that exists or not, given what the system call does. */
  function Applied(imagePath: string, present: bool, call: SystemCall): Result<bool, Fault> {
    if !present then Failure(NotFound(imagePath))
    else match call
      case Threw => Failure(CallThrew(imagePath))
      case Returned(code) => if code == 0 then Failure(CallFailed(imagePath, code)) else Success(true)
  }

  /** `SetWallpaper` returns true or throws: a missing file is `InvalidImage` and the system is
      not called; a zero result or an exception of the call is `SystemApiError`. */
  lemma AppliedOutcomes(imagePath: string, present: bool, call: SystemCall)
    ensures Applied(imagePath, present, call) != Success(false)
    ensures !present ==> (Applied(imagePath, present, call) == Applied(imagePath, present, Threw)
                          && Applied(imagePath, present, call).error.code == InvalidImage)
    ensures present && (call.Threw? || call == Returned(0)) ==>
              Applied(imagePath, present, call).Failure? && Applied(imagePath, present, call).error.code == SystemApiError
    ensures Applied(imagePath, present, call).Success? <==> present && call.Returned? && call.code != 0
  {
  }

  /** The cache limit in bytes as `SetWallpaperFromIdAsync` computes it: in `long`, which wraps. */
  function CleanupLimitAsWritten(maxCacheSizeMb: Int64): Int64 {
    WrapInt64(WrapInt64(maxCacheSizeMb * 1024) * 1024)
  }

  /** The cache limit in bytes the setting means. */
  function CleanupLimit(maxCacheSizeMb: Int64): int {
    maxCacheSizeMb * 1024 * 1024
  }

  /** A setting of 2^43 MB passes validation, yet the computed limit wraps to the most negative
      `long`. */
  lemma LimitWrapsAsWritten(appData: string)
    ensures Configuration.InRange(Configuration.Defaults(appData).(maxCacheSizeMb := 0x800_0000_0000))
    ensures CleanupLimitAsWritten(0x800_0000_0000) == MinInt64
  {
    Configuration.DefaultsValid(appData);
    assert WrapInt64(0x800_0000_0000 * 1024) == 0x20_0000_0000_0000;
  }

  /** With that setting, the cleanup as written deletes nothing however large the cache is:
      `currentSize - long.MinValue` wraps negative, so the loop stops before its first deletion. */
  lemma WrappedLimitKeepsCache(files: seq<DiskFile>, accessTimes: map<string, Time>, locked: set<string>,
                               dir: string, now: Time)
    requires Cache.ImageBytes(files) <= MaxInt64
    ensures Cache.CleanedTimes(files, accessTimes, true, locked, CleanupLimitAsWritten(0x800_0000_0000)) == accessTimes
    ensures Cache.CleanedFiles(files, accessTimes, true, locked, CleanupLimitAsWritten(0x800_0000_0000), dir, now)
            == Cache.WithIndex(files, dir, accessTimes, now, locked)
  {
    LimitWrapsAsWritten("");
    Cache.WrappedExcessDeletesNothing(files, accessTimes, locked, CleanupLimitAsWritten(0x800_0000_0000), dir, now);
  }

  /** A setting of 2^44 - 1 MB also passes validation; its limit wraps to -1 MiB, and the cleanup
      as written then deletes every cached image however small the cache is. */
  lemma WrappedLimitEmptiesCache(files: seq<DiskFile>, accessTimes: map<string, Time>, locked: set<string>,
                                 dir: string, now: Time)
    requires DistinctPaths(files) && Cache.ImagesUnlocked(files, locked)
    requires Cache.ImageBytes(files) <= MaxInt64 - 1048576
    ensures Configuration.InRange(Configuration.Defaults("").(maxCacheSizeMb := 0xFFF_FFFF_FFFF))
    ensures CleanupLimitAsWritten(0xFFF_FFFF_FFFF) == -1048576
    ensures Cache.ImageBytes(Cache.CleanedFiles(files, accessTimes, true, locked,
                                                CleanupLimitAsWritten(0xFFF_FFFF_FFFF), dir, now)) == 0
  {
    Configuration.DefaultsValid("");
    assert WrapInt64(0xFFF_FFFF_FFFF * 1024) == 0x3F_FFFF_FFFF_FC00;
    assert CleanupLimitAsWritten(0xFFF_FFFF_FFFF) == -1048576;
    Cache.NegativeLimitEmptiesCache(files, accessTimes, locked, -1048576, dir, now);
  }

  /** The intended limit is the configured size in bytes: at least 10 MB for validated settings,
      and the same as the computed one whenever that does not wrap. */
  lemma CleanupLimitIsConfigured(s: Configuration.Settings)
    ensures CleanupLimit(s.maxCacheSizeMb) == s.maxCacheSizeMb * 1048576
    ensures Configuration.InRange(s) ==> CleanupLimit(s.maxCacheSizeMb) >= 10 * 1048576
    ensures MinInt64 / 1048576 <= s.maxCacheSizeMb <= MaxInt64 / 1048576 ==>
              CleanupLimitAsWritten(s.maxCacheSizeMb) == CleanupLimit(s.maxCacheSizeMb)
  {
  }

  /** With the intended limit, a cleanup leaves no more image bytes than configured. */
  lemma CleanupKeepsConfiguredSize(files: seq<DiskFile>, accessTimes: map<string, Time>, locked: set<string>,
                                   s: Configuration.Settings, dir: string, now: Time)
    requires DistinctPaths(files) && Cache.ImagesUnlocked(files, locked) && Configuration.InRange(s)
    requires Cache.ImageBytes(files) <= MaxInt64
    ensures Cache.ImageBytes(Cache.CleanedFiles(files, accessTimes, true, locked, CleanupLimit(s.maxCacheSizeMb), dir, now))
            <= s.maxCacheSizeMb * 1048576
  {
    Cache.CleanupReachesLimit(files, accessTimes, locked, CleanupLimit(s.maxCacheSizeMb), dir, now);
  }

  /** The call's outcome and the cache directory and access times it leaves. */
  datatype Outcome = Outcome(result: Result<bool, Fault>, files: seq<DiskFile>, times: map<string, Time>)

  /** Steps 3 and 4 of `SetWallpaperFromIdAsync` once the download has yielded `downloaded`
      and left the directory `files` and the access times `times`: apply the file, then clean up
      the cache with `limit` bytes. */
  function AfterDownload(downloaded: Result<string, Fault>, files: seq<DiskFile>, times: map<string, Time>,
                         system: string -> SystemCall, listable: bool, locked: set<string>,
                         limit: int, dir: string, now: Time): Outcome {
    if downloaded.Failure? then Outcome(Failure(downloaded.error), files, times)
    else
      var path := downloaded.value;
      var applied := Applied(path, path in PathSet(files), system(path));
      if applied.Failure? then Outcome(Failure(applied.error), files, times)
      else if applied.value then
        Outcome(Success(true), Cache.CleanedFiles(files, times, listable, locked, limit, dir, now),
                Cache.CleanedTimes(files, times, listable, locked, limit))
      else Outcome(Success(false), files, times)
  }

  /** A failed step skips every later one: the cache is left as the download left it, and
      an applied wallpaper is the only way to reach the cleanup. The call never returns false. */
  lemma CleanupOnlyAfterApply(downloaded: Result<string, Fault>, files: seq<DiskFile>, times: map<string, Time>,
                              system: string -> SystemCall, listable: bool, locked: set<string>,
                              limit: int, dir: string, now: Time)
    ensures var o := AfterDownload(downloaded, files, times, system, listable, locked, limit, dir, now);
      o.result != Success(false)
      && (o.result.Failure? ==> o.files == files && o.times == times)
      && (downloaded.Failure? ==> o.result == Failure(downloaded.error))
      && (o.result.Success? <==>
            downloaded.Success? && downloaded.value in PathSet(files)
            && system(downloaded.value).Returned? && system(downloaded.value).code != 0)
  {
    if downloaded.Success? {
      var path := downloaded.value;
      AppliedOutcomes(path, path in PathSet(files), system(path));
    }
  }

  /** Step 2 of `SetWallpaperFromIdAsync`: the download through `downloader`; `download` is what it
      did to the cache and returned. */
  method DownloadStep(downloader: Downloader.ImageDownloader, imageUrl: string, imageId: string, observed: bool,
                      attempts: nat -> Downloader.Transfer, now: Time)
    returns (localPath: Result<string, Fault>, ghost download: Downloader.Download)
    requires downloader.cache.Valid()
    modifies downloader.cache, downloader.cache.volume
    ensures downloader.cache.Valid() && downloader.cache.volume.listable == old(downloader.cache.volume.listable)
    ensures download == downloader.Planned(imageUrl, imageId, old(downloader.cache.volume.files),
                                           old(downloader.cache.volume.listable), downloader.cache.volume.locked,
                                           old(downloader.cache.accessTimes),
                                           Downloader.Retried(attempts, observed, downloader.maxRetries),
                                           Downloader.FinalTry(attempts, observed, downloader.maxRetries) + 1, now)
    ensures localPath == download.result && downloader.cache.volume.files == download.files
            && downloader.cache.accessTimes == download.times
  {
    var reports, tries, delays;
    localPath, reports, tries, delays := downloader.DownloadImage(imageUrl, imageId, observed, attempts, now);
    download := Downloader.Download(localPath, downloader.cache.volume.files, downloader.cache.accessTimes, reports, tries);
  }

  class WallpaperService {
    const api: Api.ApiClient
    const downloader: Downloader.ImageDownloader
    const cache: Cache.CacheManager
    const config: Configuration.ConfigurationService

    /** The downloader stores into the same cache the service cleans. */
    predicate Valid()
      reads cache, cache.volume
    {
      downloader.cache == cache && cache.Valid()
    }

    constructor(api: Api.ApiClient, downloader: Downloader.ImageDownloader, cache: Cache.CacheManager,
                config: Configuration.ConfigurationService)
      requires downloader.cache == cache
      ensures this.api == api && this.downloader == downloader && this.cache == cache && this.config == config
    {
      this.api := api;
      this.downloader := downloader;
      this.cache := cache;
      this.config := config;
    }

    /** `SetWallpaper`. */
    method SetWallpaper(imagePath: string, system: string -> SystemCall) returns (result: Result<bool, Fault>)
      ensures result == Applied(imagePath, imagePath in PathSet(cache.volume.files), system(imagePath))
    {
      if !cache.volume.Exists(imagePath) {
        return Failure(NotFound(imagePath));
      }
      var call := system(imagePath);
      if call.Threw? {
        return Failure(CallThrew(imagePath));
      }
      if call.code == 0 {
        return Failure(CallFailed(imagePath, call.code));
      }
      return Success(true);
    }

    /** `SetWallpaperFromIdAsync`: `network` answers the catalogue's requests, `attempts` the
        image download's, `system` stands for the system call. */
    method SetWallpaperFromId(imageId: string, observed: bool, network: (string, nat) -> Api.Exchange,
                              attempts: nat -> Downloader.Transfer, system: string -> SystemCall, now: Time)
      returns (result: Result<bool, Fault>)
      requires Valid()
      modifies cache, cache.volume
      ensures Valid() && result != Success(false)
      ensures var details := api.Planned(imageId, network).0;
        details.Failure? ==> result == Failure(details.error)
                             && cache.volume.files == old(cache.volume.files) && cache.accessTimes == old(cache.accessTimes)
      ensures var details := api.Planned(imageId, network).0;
        details.Success? ==>
          var dl := downloader.Planned(details.value.imageUrl, imageId, old(cache.volume.files),
                                       old(cache.volume.listable), cache.volume.locked, old(cache.accessTimes),
                                       Downloader.Retried(attempts, observed, downloader.maxRetries),
                                       Downloader.FinalTry(attempts, observed, downloader.maxRetries) + 1, now);
          Outcome(result, cache.volume.files, cache.accessTimes)
          == AfterDownload(dl.result, dl.files, dl.times, system, cache.volume.listable, cache.volume.locked,
                           CleanupLimitAsWritten(config.settings.maxCacheSizeMb), cache.cacheDirectory, now)
    {
      var imageDetails, requests, waits := api.GetImageDetails(imageId, network);
      if imageDetails.Failure? {
        return Failure(imageDetails.error);
      }
      result := DownloadAndApply(imageDetails.value.imageUrl, imageId, observed, attempts, system, now);
    }

    /** Steps 2 to 4 of `SetWallpaperFromIdAsync`. */
    method DownloadAndApply(imageUrl: string, imageId: string, observed: bool, attempts: nat -> Downloader.Transfer,
                            system: string -> SystemCall, now: Time)
      returns (result: Result<bool, Fault>)
      requires Valid()
      modifies cache, cache.volume
      ensures Valid() && result != Success(false)
      ensures var dl := downloader.Planned(imageUrl, imageId, old(cache.volume.files), old(cache.volume.listable),
                                           cache.volume.locked, old(cache.accessTimes),
                                           Downloader.Retried(attempts, observed, downloader.maxRetries),
                                           Downloader.FinalTry(attempts, observed, downloader.maxRetries) + 1, now);
        Outcome(result, cache.volume.files, cache.accessTimes)
        == AfterDownload(dl.result, dl.files, dl.times, system, cache.volume.listable, cache.volume.locked,
                         CleanupLimitAsWritten(config.settings.maxCacheSizeMb), cache.cacheDirectory, now)
    {
      var localPath, download := DownloadStep(downloader, imageUrl, imageId, observed, attempts, now);
      result := ApplyDownloaded(localPath, system, now);
    }

    /** Steps 3 and 4 of `SetWallpaperFromIdAsync`. */
    method ApplyDownloaded(localPath: Result<string, Fault>, system: string -> SystemCall, now: Time)
      returns (result: Result<bool, Fault>)
      requires Valid()
      modifies cache, cache.volume
      ensures Valid() && cache.volume.listable == old(cache.volume.listable) && result != Success(false)
      ensures Outcome(result, cache.volume.files, cache.accessTimes)
              == AfterDownload(localPath, old(cache.volume.files), old(cache.accessTimes), system, cache.volume.listable,
                               cache.volume.locked, CleanupLimitAsWritten(config.settings.maxCacheSizeMb), cache.cacheDirectory, now)
    {
      if localPath.Failure? {
        return Failure(localPath.error);
      }
      var success := SetWallpaper(localPath.value, system);
      if success.Failure? {
        return Failure(success.error);
      }
      if success.value {
        var maxCacheSize := CleanupLimitAsWritten(config.settings.maxCacheSizeMb);
        cache.CleanupCache(maxCacheSize, now);
      }
      return Success(success.value);
    }
  }
}
