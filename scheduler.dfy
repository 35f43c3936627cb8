/** `SchedulerService`: a timer that rotates the wallpaper every few minutes, the `NextRotationChanged`
    notifications it sends, and the choice of the next image, either at random from the cached
    history or from the catalogue. `DateTime.Now` is a parameter, in ticks of 100 ns; the random
    index and the catalogue's random id are parameters as well. */
module Scheduler {
  import opened Wrappers
  import opened Numbers
  import opened Errors
  import opened FileSystem
  import Configuration
  import Cache
  import Api
  import Downloader
  import Wallpaper

  const TicksPerMillisecond: int := 10_000
  const MillisecondsPerMinute: int := 60_000

  /** A started, auto-resetting `System.Timers.Timer` firing every `intervalMs` milliseconds. */
  datatype Timer = Timer(intervalMs: int)

  /** The two fields `Start` and `Stop` maintain. */
  datatype Schedule = Schedule(timer: Option<Timer>, nextRotation: Option<Time>)

  /** `DateTime.AddMinutes` and `DateTime.AddMilliseconds` on a tick count. */
  function AddMinutes(t: Time, minutes: int): Time { t + minutes * MillisecondsPerMinute * TicksPerMillisecond }

  function AddMilliseconds(t: Time, ms: int): Time { t + ms * TicksPerMillisecond }

  /** What `Start` leaves for settings `s` at time `now`: the schedule, the notifications it sends
      (in order) and what it throws. It stops first; a disabled scheduler stays stopped; otherwise
      the interval is at least one minute. The timer refuses an interval beyond `Int32.MaxValue`
      milliseconds. */
  function Started(s: Configuration.Settings, now: Time): (Schedule, seq<Option<Time>>, Option<Exception>) {
    if !s.isSchedulerEnabled then (Schedule(None, None), [None], None)
    else
      var minutes := if s.schedulerIntervalMinutes < 1 then 1 else s.schedulerIntervalMinutes;
      var intervalMs := minutes * MillisecondsPerMinute;
      if intervalMs > MaxInt32 then (Schedule(None, None), [None], Some(OtherException))
      else
        var next := AddMinutes(now, minutes);
        (Schedule(Some(Timer(intervalMs)), Some(next)), [None, Some(next)], None)
  }

  /** A disabled scheduler is left without a timer and without a next rotation, and says so. */
  lemma DisabledLeavesNoTimer(s: Configuration.Settings, now: Time)
    requires !s.isSchedulerEnabled
    ensures Started(s, now) == (Schedule(None, None), [None], None)
  {
  }

  /** An enabled scheduler fires every `max(1, interval)` minutes, the first time that long after
      `now`, and announces that time after announcing the stop. */
  lemma EnabledStartsClampedTimer(s: Configuration.Settings, now: Time)
    requires s.isSchedulerEnabled && s.schedulerIntervalMinutes <= MaxInt32 / MillisecondsPerMinute
    ensures var minutes := if s.schedulerIntervalMinutes < 1 then 1 else s.schedulerIntervalMinutes;
      var (schedule, notes, thrown) := Started(s, now);
      thrown.None? && schedule.timer == Some(Timer(minutes * MillisecondsPerMinute))
      && schedule.nextRotation == Some(AddMinutes(now, minutes)) && notes == [None, schedule.nextRotation]
    ensures Started(s, now).0.nextRotation.value >= now + MillisecondsPerMinute * TicksPerMillisecond
  {
  }

  /** Whatever the settings, a started timer fires at least once a minute apart and within what
      the timer accepts, and the next rotation is announced exactly when a timer runs. */
  lemma StartedTimerBounds(s: Configuration.Settings, now: Time)
    ensures var (schedule, notes, thrown) := Started(s, now);
      (schedule.timer.Some? ==> MillisecondsPerMinute <= schedule.timer.value.intervalMs <= MaxInt32)
      && (schedule.timer.Some? <==> schedule.nextRotation.Some?)
      && (schedule.timer.Some? <==> thrown.None? && s.isSchedulerEnabled)
      && notes[0] == None && notes[|notes| - 1] == schedule.nextRotation
  {
  }

  /** An interval so long that the timer refuses it: `Start` throws after stopping. */
  lemma OverlongIntervalThrows(s: Configuration.Settings, now: Time)
    requires s.isSchedulerEnabled && s.schedulerIntervalMinutes == 35792
    ensures Started(s, now) == (Schedule(None, None), [None], Some(OtherException))
  {
  }

  /** After a rotation the timer's next firing is one interval later; for a timer `Start` made,
      that is the clamped number of minutes later. */
  lemma ElapsedKeepsInterval(s: Configuration.Settings, now: Time, later: Time)
    requires Started(s, now).0.timer.Some?
    ensures var minutes := if s.schedulerIntervalMinutes < 1 then 1 else s.schedulerIntervalMinutes;
      AddMilliseconds(later, Started(s, now).0.timer.value.intervalMs) == AddMinutes(later, minutes)
  {
    var minutes := if s.schedulerIntervalMinutes < 1 then 1 else s.schedulerIntervalMinutes;
    assert Started(s, now).0.timer.value.intervalMs == minutes * MillisecondsPerMinute;
  }

  // ----- choosing the next image -----

  /** The source of a rotation: the override when one is given, else the configured one. */
  function SourceOf(overrideSource: Option<Configuration.RotationSource>, configured: Configuration.RotationSource)
    : (r: Configuration.RotationSource)
    ensures overrideSource.Some? ==> r == overrideSource.value
    ensures overrideSource.None? ==> r == configured
  {
    overrideSource.GetOr(configured)
  }

  /** The history entries whose file exists, in order. */
  function Eligible(history: seq<Cache.CachedImage>, present: set<string>): (r: seq<Cache.CachedImage>)
    ensures |r| <= |history|
    ensures forall img :: img in r <==> img in history && img.filePath in present
  {
    if history == [] then []
    else if history[0].filePath in present then [history[0]] + Eligible(history[1..], present)
    else Eligible(history[1..], present)
  }

  /** `string.IsNullOrEmpty` as a filter. */
  function NonEmpty(id: Option<string>): (r: Option<string>)
    ensures r.Some? <==> id.Some? && id.value != ""
    ensures r.Some? ==> r == id
  {
    if id.Some? && id.value != "" then id else None
  }

  /** A random index generator answers `pick(n)` in `[0, n)` for every positive `n`. */
  ghost predicate IsPicker(pick: nat -> nat) {
    forall n: nat :: 0 < n ==> pick(n) < n
  }

  /** The id `RotateWallpaperAsync` hands to `SetWallpaperFromIdAsync`, or `None` when it makes
      no call. `present` are the files that exist, `pick` draws the random index and `randomId`
      is what `GetRandomImageIdAsync` returned (`None` for null) or threw. */
  function Target(source: Configuration.RotationSource, history: seq<Cache.CachedImage>, present: set<string>,
                  pick: nat -> nat, randomId: Result<Option<string>, Exception>): Option<string>
    requires IsPicker(pick)
  {
    if source.History? then
      var valid := Eligible(history, present);
      if |valid| == 0 then None else NonEmpty(Some(valid[pick(|valid|)].imageId))
    else if randomId.Failure? then None
    else NonEmpty(randomId.value)
  }

  /** From the history, only an existing file's id can be chosen, and it is the entry at the
      drawn index; no eligible file means no call. */
  lemma HistoryTargetIsEligible(history: seq<Cache.CachedImage>, present: set<string>, pick: nat -> nat,
                                randomId: Result<Option<string>, Exception>)
    requires IsPicker(pick)
    ensures var valid := Eligible(history, present);
      var t := Target(Configuration.History, history, present, pick, randomId);
      (|valid| == 0 ==> t.None?)
      && (t.Some? ==> exists img :: img in history && img.filePath in present && img.imageId == t.value)
      && (|valid| > 0 && valid[pick(|valid|)].imageId != "" ==> t == Some(valid[pick(|valid|)].imageId))
  {
    var valid := Eligible(history, present);
    if |valid| > 0 {
      assert valid[pick(|valid|)] in valid;
    }
  }

  /** From the catalogue, a failure or an empty id means no call, and any other id is used as
      it is. The history is not consulted. */
  lemma ApiTarget(history: seq<Cache.CachedImage>, present: set<string>, pick: nat -> nat,
                  randomId: Result<Option<string>, Exception>)
    requires IsPicker(pick)
    ensures var t := Target(Configuration.Api, history, present, pick, randomId);
      (t.Some? <==> randomId.Success? && randomId.value.Some? && randomId.value.value != "")
      && (t.Some? ==> t == randomId.value)
      && t == Target(Configuration.Api, [], {}, pick, randomId)
  {
  }

  /** The chosen id is never empty. */
  lemma TargetNotEmpty(source: Configuration.RotationSource, history: seq<Cache.CachedImage>, present: set<string>,
                       pick: nat -> nat, randomId: Result<Option<string>, Exception>)
    requires IsPicker(pick)
    ensures Target(source, history, present, pick, randomId) != Some("")
  {
  }

  /** Every entry of the cache history names a file that is there, so the filter keeps the whole
      history when nothing changes the directory in between. */
  lemma {:induction false} HistoryAllEligible(files: seq<DiskFile>, accessTimes: map<string, Time>)
    ensures Eligible(Cache.History(files, accessTimes), PathSet(files)) == Cache.History(files, accessTimes)
  {
    Cache.HistoryPaths(files, accessTimes);
    AllPresentKept(Cache.History(files, accessTimes), PathSet(files));
  }

  lemma {:induction false} AllPresentKept(history: seq<Cache.CachedImage>, present: set<string>)
    requires forall img :: img in history ==> img.filePath in present
    ensures Eligible(history, present) == history
  {
    if history != [] {
      assert history[0] in history;
      forall img | img in history[1..] ensures img.filePath in present {
        assert img in history;
      }
      AllPresentKept(history[1..], present);
      assert [history[0]] + history[1..] == history;
    }
  }

  /** The wallpaper call of a rotation, without what it does to the cache: it keeps the service
      valid and, as `SetWallpaperFromIdAsync` does, never answers false. */
  method Apply(wallpaper: Wallpaper.WallpaperService, imageId: string, observed: bool,
               network: (string, nat) -> Api.Exchange, attempts: nat -> Downloader.Transfer,
               system: string -> Wallpaper.SystemCall, now: Time)
    returns (result: Result<bool, Fault>)
    requires wallpaper.Valid()
    modifies wallpaper.cache, wallpaper.cache.volume
    ensures wallpaper.Valid() && result != Success(false)
  {
    result := wallpaper.SetWallpaperFromId(imageId, observed, network, attempts, system, now);
  }

  // ----- the service -----

  class SchedulerService {
    const config: Configuration.ConfigurationService
    const cache: Cache.CacheManager
    const wallpaper: Wallpaper.WallpaperService
    var timer: Option<Timer>
    var nextRotation: Option<Time>
    /** The values sent through `NextRotationChanged`, oldest first. */
    var notified: seq<Option<Time>>
    /** The timers started and not yet stopped. */
    ghost var live: nat

    /** The service shares the wallpaper service's cache and settings, and at most one timer runs:
        the one in `timer`. */
    ghost predicate Valid()
      reads this, cache, cache.volume
    {
      wallpaper.cache == cache && wallpaper.config == config && wallpaper.Valid()
      && live == if timer.Some? then 1 else 0
    }

    constructor(config: Configuration.ConfigurationService, cache: Cache.CacheManager,
                wallpaper: Wallpaper.WallpaperService)
      requires wallpaper.cache == cache && wallpaper.config == config && wallpaper.Valid()
      ensures Valid()
      ensures this.config == config && this.cache == cache && this.wallpaper == wallpaper
      ensures timer == None && nextRotation == None && notified == []
    {
      this.config := config;
      this.cache := cache;
      this.wallpaper := wallpaper;
      timer := None;
      nextRotation := None;
      notified := [];
      live := 0;
    }

    /** `Stop`: disposes of the timer and announces that no rotation is planned. */
    method Stop()
      requires Valid()
      modifies this
      ensures Valid()
      ensures timer == None && nextRotation == None && notified == old(notified) + [None]
    {
      if timer.Some? {
        live := live - 1;
      }
      timer := None;
      nextRotation := None;
      notified := notified + [None];
    }

    /** `Start` at time `now`, with the settings as they are. */
    method Start(now: Time) returns (thrown: Option<Exception>)
      requires Valid()
      modifies this
      ensures Valid()
      ensures var (schedule, notes, ex) := Started(config.settings.Value(), now);
        Schedule(timer, nextRotation) == schedule && notified == old(notified) + notes && thrown == ex
    {
      Stop();
      if !config.settings.isSchedulerEnabled {
        return None;
      }
      var intervalMinutes := config.settings.schedulerIntervalMinutes as int;
      if intervalMinutes < 1 {
        intervalMinutes := 1;
      }
      var intervalMs := intervalMinutes * MillisecondsPerMinute;
      if intervalMs > MaxInt32 {
        return Some(OtherException);
      }
      timer := Some(Timer(intervalMs));
      live := live + 1;
      nextRotation := Some(AddMinutes(now, intervalMinutes));
      notified := notified + [nextRotation];
      thrown := None;
    }

    /** `UpdateConfigurationAsync`: records the three settings, saves them and then starts or
        stops the scheduler. A failed save is thrown before either. */
    method UpdateConfiguration(enabled: bool, intervalMinutes: Int32, source: Configuration.RotationSource, now: Time)
      returns (thrown: Option<Exception>)
      requires Valid()
      modifies this, config, config.settings
      ensures Valid() && config.settings == old(config.settings)
      ensures config.settings.Value()
              == old(config.settings.Value()).(isSchedulerEnabled := enabled, schedulerIntervalMinutes := intervalMinutes,
                                               rotationSource := source)
      ensures !config.writable ==>
                thrown == Some(Raised(Configuration.SaveFault())) && config.stored == old(config.stored)
                && timer == old(timer) && nextRotation == old(nextRotation) && notified == old(notified)
      ensures config.writable ==> config.stored == Configuration.Document(config.settings.Value())
      ensures config.writable && enabled ==>
                var (schedule, notes, ex) := Started(config.settings.Value(), now);
                Schedule(timer, nextRotation) == schedule && notified == old(notified) + notes && thrown == ex
      ensures config.writable && !enabled ==>
                timer == None && nextRotation == None && notified == old(notified) + [None] && thrown == None
    {
      config.settings.isSchedulerEnabled := enabled;
      config.settings.schedulerIntervalMinutes := intervalMinutes;
      config.settings.rotationSource := source;
      var fault := config.SaveSettings();
      if fault.Some? {
        return Some(Raised(fault.value));
      }
      if enabled {
        thrown := Start(now);
      } else {
        Stop();
        thrown := None;
      }
    }

    /** `RotateWallpaperAsync`: picks the image and, when there is one, sets it. `called` is the id
        handed to `SetWallpaperFromIdAsync` and `result` what that call answered or threw. */
    method Rotate(overrideSource: Option<Configuration.RotationSource>, pick: nat -> nat,
                  randomId: Result<Option<string>, Exception>, observed: bool, network: (string, nat) -> Api.Exchange,
                  attempts: nat -> Downloader.Transfer, system: string -> Wallpaper.SystemCall, now: Time)
      returns (called: Option<string>, result: Option<Result<bool, Fault>>)
      requires Valid() && IsPicker(pick)
      modifies cache, cache.volume
      ensures Valid()
      ensures called == Target(SourceOf(overrideSource, config.settings.rotationSource),
                               if old(cache.volume.listable) then Cache.History(old(cache.volume.files), old(cache.accessTimes))
                               else [],
                               PathSet(old(cache.volume.files)), pick, randomId)
      ensures called.None? ==>
                result.None? && cache.volume.files == old(cache.volume.files) && cache.accessTimes == old(cache.accessTimes)
      ensures called.Some? ==> result.Some? && result.value != Success(false)
    {
      var source := overrideSource.GetOr(config.settings.rotationSource);
      var targetImageId: Option<string> := None;
      if source.History? {
        var history := cache.GetCacheHistory();
        var validImages := Eligible(history, PathSet(cache.volume.files));
        if |validImages| == 0 {
          return None, None;
        }
        var index := pick(|validImages|);
        targetImageId := Some(validImages[index].imageId);
      } else {
        if randomId.Failure? {
          return None, None;
        }
        targetImageId := randomId.value;
      }
      if targetImageId.None? || targetImageId.value == "" {
        return None, None;
      }
      var r := Apply(wallpaper, targetImageId.value, observed, network, attempts, system, now);
      return targetImageId, Some(r);
    }

    /** `ForceRotationAsync`: a rotation from the given source, or the configured one. */
    method ForceRotation(source: Option<Configuration.RotationSource>, pick: nat -> nat,
                         randomId: Result<Option<string>, Exception>, observed: bool,
                         network: (string, nat) -> Api.Exchange, attempts: nat -> Downloader.Transfer,
                         system: string -> Wallpaper.SystemCall, now: Time)
      returns (called: Option<string>, result: Option<Result<bool, Fault>>)
      requires Valid() && IsPicker(pick)
      modifies cache, cache.volume
      ensures Valid()
      ensures called == Target(SourceOf(source, config.settings.rotationSource),
                               if old(cache.volume.listable) then Cache.History(old(cache.volume.files), old(cache.accessTimes))
                               else [],
                               PathSet(old(cache.volume.files)), pick, randomId)
      ensures called.None? ==>
                result.None? && cache.volume.files == old(cache.volume.files) && cache.accessTimes == old(cache.accessTimes)
      ensures called.Some? ==> result.Some? && result.value != Success(false)
    {
      called, result := Rotate(source, pick, randomId, observed, network, attempts, system, now);
    }

    /** `OnTimerElapsed`: a rotation from the configured source; then, unless it threw, the next
        rotation is one interval after `later`, the time it finished, and is announced. What the
        rotation threw is only logged; `result` reports it. */
    method OnTimerElapsed(pick: nat -> nat, randomId: Result<Option<string>, Exception>, observed: bool,
                          network: (string, nat) -> Api.Exchange, attempts: nat -> Downloader.Transfer,
                          system: string -> Wallpaper.SystemCall, now: Time, later: Time)
      returns (called: Option<string>, result: Option<Result<bool, Fault>>)
      requires Valid() && IsPicker(pick)
      modifies this, cache, cache.volume
      ensures Valid() && timer == old(timer)
      ensures called == Target(config.settings.rotationSource,
                               if old(cache.volume.listable) then Cache.History(old(cache.volume.files), old(cache.accessTimes))
                               else [],
                               PathSet(old(cache.volume.files)), pick, randomId)
      ensures called.None? <==> result.None?
      ensures if timer.Some? && !(result.Some? && result.value.Failure?)
              then nextRotation == Some(AddMilliseconds(later, timer.value.intervalMs))
                   && notified == old(notified) + [nextRotation]
              else nextRotation == old(nextRotation) && notified == old(notified)
    {
      called, result := Rotate(None, pick, randomId, observed, network, attempts, system, now);
      if result.Some? && result.value.Failure? {
        return;
      }
      if timer.Some? {
        nextRotation := Some(AddMilliseconds(later, timer.value.intervalMs));
        notified := notified + [nextRotation];
      }
    }
  }
}
