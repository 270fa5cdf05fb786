/**
 * The process-wide response cache of the server (`app/lib/cache.server.ts`):
 * a map from key to entry, served under a "daily 10:00 crawl" freshness rule
 * for the job and company listings and under a plain time-to-live rule for
 * any other key. Clock readings are the `now` parameter (milliseconds since
 * the epoch, read as local time), and the fetch a miss triggers is the
 * `fetched` parameter.
 */
module Cache {
  import opened Wrappers
  import opened Types

  const MinuteMs: int := 60_000
  const TenHoursMs: int := 36_000_000
  const DayMs: int := 86_400_000
  const DefaultTtlMinutes: int := 60

  const JobsKey: string := "jobs-list"
  const CompaniesKey: string := "companies-list"

  /** The `any`-typed data of an entry: a job list, a company list, or some other value. */
  datatype Payload =
    | JobList(jobs: seq<Job>)
    | NameList(names: seq<string>)
    | OtherValue(length: Option<nat>)

  /** `data?.length || 0`: a list's length, and 0 for a value without a length. */
  function PayloadSize(p: Payload): (r: nat)
    ensures p.JobList? ==> r == |p.jobs|
    ensures p.NameList? ==> r == |p.names|
    ensures p.OtherValue? ==> (r == 0 <==> p.length.None? || p.length.value == 0)
  {
    match p
    case JobList(jobs) => |jobs|
    case NameList(names) => |names|
    case OtherValue(length) => if length.Some? then length.value else 0
  }

  datatype Entry = Entry(data: Payload, timestamp: int, lastCrawlTime: int)

  /** A 10:00:00.000 local-time instant. */
  predicate IsTenAM(t: int) {
    (t - TenHoursMs) % DayMs == 0
  }

  /** `getTodayTenAM`: 10:00 of the day `now` falls in. */
  function TodayTenAM(now: int): (r: int)
    ensures IsTenAM(r)
    ensures r - TenHoursMs <= now < r - TenHoursMs + DayMs
  {
    (now / DayMs) * DayMs + TenHoursMs
  }

  /**
   * `isCacheValid`: before today's 10:00 yesterday's crawl still counts, afterwards only today's.
   * Put otherwise: the crawl is no older than the latest 10:00 at or before `now`,
   * which is one day before the next update time.
   */
  predicate IsCacheValid(e: Entry, now: int): (valid: bool)
    ensures valid <==> e.lastCrawlTime >= NextUpdateTime(now) - DayMs
  {
    var todayTenAM := TodayTenAM(now);
    if now < todayTenAM then e.lastCrawlTime >= todayTenAM - DayMs
    else e.lastCrawlTime >= todayTenAM
  }

  /** `getNextUpdateTime`: the first 10:00 strictly after `now`, which is at most a day away. */
  function NextUpdateTime(now: int): (r: int)
    ensures IsTenAM(r)
    ensures now < r <= now + DayMs
  {
    var todayTenAM := TodayTenAM(now);
    if now < todayTenAM then todayTenAM else todayTenAM + DayMs
  }

  /** 10:00 instants are a whole number of days apart. */
  lemma TenAMSpacing(a: int, b: int)
    requires IsTenAM(a) && IsTenAM(b) && a < b
    ensures a + DayMs <= b
  {
    var k := (a - TenHoursMs) / DayMs;
    var m := (b - TenHoursMs) / DayMs;
    assert a == k * DayMs + TenHoursMs;
    assert b == m * DayMs + TenHoursMs;
    assert k < m;
  }

  /** `NextUpdateTime` is the only 10:00 instant in the day after `now`. */
  lemma NextUpdateTimeUnique(now: int, t: int)
    requires IsTenAM(t) && now < t <= now + DayMs
    ensures t == NextUpdateTime(now)
  {
    var r := NextUpdateTime(now);
    if t < r { TenAMSpacing(t, r); }
    if r < t { TenAMSpacing(r, t); }
  }

  /** An entry written at `now` records today's 10:00 as its crawl time and is valid at once. */
  lemma FreshEntryIsValid(data: Payload, now: int)
    ensures IsCacheValid(Entry(data, now, TodayTenAM(now)), now)
  {
  }

  /**
   * An entry written at `written` stays valid exactly until 10:00 of the
   * following day, wherever in its day it was written.
   */
  lemma DailyEntryLifetime(data: Payload, written: int, now: int)
    requires written <= now
    ensures IsCacheValid(Entry(data, written, TodayTenAM(written)), now) <==> now < TodayTenAM(written) + DayMs
  {
    var crawl := TodayTenAM(written);
    var todayTenAM := TodayTenAM(now);
    if todayTenAM < crawl {
      TenAMSpacing(todayTenAM, crawl);
    }
    if crawl < todayTenAM {
      TenAMSpacing(crawl, todayTenAM);
      if crawl + DayMs < todayTenAM {
        TenAMSpacing(crawl + DayMs, todayTenAM);
      }
    }
  }

  /**
   * An entry written at 09:00 on some day is not refreshed by that day's
   * 10:00 crawl: at 10:00 and for the rest of the day it is still served.
   */
  lemma PreCrawlEntryOutlivesCrawl(data: Payload, day: int, now: int)
    requires day * DayMs + TenHoursMs <= now < (day + 1) * DayMs + TenHoursMs
    ensures IsCacheValid(Entry(data, day * DayMs + 9 * 3_600_000, TodayTenAM(day * DayMs + 9 * 3_600_000)), now)
  {
    var written := day * DayMs + 9 * 3_600_000;
    assert written / DayMs == day;
    DailyEntryLifetime(data, written, now);
  }

  /**
   * The two crawl-time cases: with the crawl time at yesterday's 10:00,
   * the entry is valid at 09:00 today and stale at 10:01 today.
   */
  lemma YesterdayCrawlExamples(data: Payload, day: int)
    ensures IsCacheValid(Entry(data, 0, (day - 1) * DayMs + TenHoursMs), day * DayMs + 9 * 3_600_000)
    ensures !IsCacheValid(Entry(data, 0, (day - 1) * DayMs + TenHoursMs), day * DayMs + TenHoursMs + MinuteMs)
  {
    assert (day * DayMs + 9 * 3_600_000) / DayMs == day;
    assert (day * DayMs + TenHoursMs + MinuteMs) / DayMs == day;
  }

  /** The time-to-live rule of `getCachedData`: strictly younger than `ttlMinutes`. */
  predicate IsTtlFresh(e: Entry, now: int, ttlMinutes: int): (live: bool)
    ensures live <==> now < e.timestamp + ttlMinutes * MinuteMs
    ensures ttlMinutes <= 0 && e.timestamp <= now ==> !live
  {
    now - e.timestamp < ttlMinutes * MinuteMs
  }

  /** With the default 60 minutes, an entry is served at 59 minutes and refetched at 60 and 61. */
  lemma TtlBoundaryExamples(data: Payload, written: int)
    ensures IsTtlFresh(Entry(data, written, written), written + 59 * MinuteMs, DefaultTtlMinutes)
    ensures !IsTtlFresh(Entry(data, written, written), written + 60 * MinuteMs, DefaultTtlMinutes)
    ensures !IsTtlFresh(Entry(data, written, written), written + 61 * MinuteMs, DefaultTtlMinutes)
  {
  }

  /** `Map.prototype.set` keeps an existing key in place and appends a new one. */
  function OrderAfterSet(order: seq<string>, key: string): seq<string> {
    if key in order then order else order + [key]
  }

  /** `Map.prototype.delete` on the key order. */
  function OrderAfterDelete(order: seq<string>, key: string): (r: seq<string>)
    ensures forall k :: k in r <==> k in order && k != key
    ensures |r| <= |order|
  {
    if order == [] then []
    else (if order[0] == key then [] else [order[0]]) + OrderAfterDelete(order[1..], key)
  }

  predicate Distinct(s: seq<string>) {
    forall i, j :: 0 <= i < j < |s| ==> s[i] != s[j]
  }

  lemma {:induction false} OrderAfterDeleteDistinct(order: seq<string>, key: string)
    requires Distinct(order)
    ensures Distinct(OrderAfterDelete(order, key))
  {
    if order != [] {
      OrderAfterDeleteDistinct(order[1..], key);
      assert order[0] !in order[1..] by {
        forall i | 0 <= i < |order[1..]| ensures order[1..][i] != order[0] {
          assert order[1..][i] == order[i + 1];
        }
      }
    }
  }

  /** A list without repeats has as many elements as the set of its elements. */
  lemma {:induction false} DistinctCardinality(s: seq<string>)
    requires Distinct(s)
    ensures |set k | k in s| == |s|
  {
    if s != [] {
      var rest := s[1..];
      assert Distinct(rest) by {
        forall i, j | 0 <= i < j < |rest| ensures rest[i] != rest[j] {
          assert rest[i] == s[i + 1] && rest[j] == s[j + 1];
        }
      }
      DistinctCardinality(rest);
      assert s[0] !in rest by {
        forall i | 0 <= i < |rest| ensures rest[i] != s[0] {
          assert rest[i] == s[i + 1];
        }
      }
      assert (set k | k in s) == (set k | k in rest) + {s[0]} by {
        assert s == [s[0]] + rest;
      }
    }
  }

  /** The cache status of one key in `getCacheInfo`. */
  datatype KeyStatus = KeyStatus(cached: bool, lastUpdated: Option<int>, size: nat)

  /** The snapshot `getCacheInfo` returns. */
  datatype CacheInfo = CacheInfo(
    jobs: KeyStatus,
    companies: KeyStatus,
    nextUpdate: int,
    totalCacheSize: nat,
    cacheKeys: seq<string>)

  /** The cache object. `order` is the insertion order a JavaScript `Map` keeps for its keys. */
  class ResponseCache {
    var entries: map<string, Entry>
    var order: seq<string>

    ghost predicate Valid()
      reads this
    {
      Distinct(order) && forall k :: k in entries <==> k in order
    }

    constructor ()
      ensures Valid() && entries == map[] && order == []
    {
      entries := map[];
      order := [];
    }

    /** A lookup under the daily-crawl rule would be served from the cache. */
    predicate DailyHit(key: string, now: int)
      reads this
    {
      key in entries && IsCacheValid(entries[key], now)
    }

    /** A lookup under the time-to-live rule would be served from the cache. */
    predicate TtlHit(key: string, now: int, ttlMinutes: int)
      reads this
    {
      key in entries && IsTtlFresh(entries[key], now, ttlMinutes)
    }

    /** `globalJobsCache.set(key, e)`. */
    method Store(key: string, e: Entry)
      requires Valid()
      modifies this
      ensures Valid()
      ensures entries == old(entries)[key := e]
      ensures order == OrderAfterSet(old(order), key)
    {
      if key !in order {
        assert key !in entries;
        order := order + [key];
      }
      entries := entries[key := e];
    }

    /** The hit-or-fetch-and-store step that `getCachedJobs` and `getCachedCompanies` share. */
    method ServeDaily(key: string, now: int, fetched: Payload) returns (r: Payload)
      requires Valid()
      modifies this
      ensures Valid()
      ensures old(DailyHit(key, now)) ==> r == old(entries[key].data) && entries == old(entries) && order == old(order)
      ensures !old(DailyHit(key, now)) ==> r == fetched
      ensures !old(DailyHit(key, now)) ==> entries == old(entries)[key := Entry(fetched, now, TodayTenAM(now))]
      ensures !old(DailyHit(key, now)) ==> order == OrderAfterSet(old(order), key)
    {
      if key in entries && IsCacheValid(entries[key], now) {
        r := entries[key].data;
        return;
      }
      Store(key, Entry(fetched, now, TodayTenAM(now)));
      r := fetched;
    }

    /** `getCachedJobs`: the job list under key 'jobs-list'. */
    method GetCachedJobs(now: int, fetched: seq<Job>) returns (r: Payload)
      requires Valid()
      modifies this
      ensures Valid()
      ensures old(DailyHit(JobsKey, now)) ==> r == old(entries[JobsKey].data) && entries == old(entries) && order == old(order)
      ensures !old(DailyHit(JobsKey, now)) ==> r == JobList(fetched)
      ensures !old(DailyHit(JobsKey, now)) ==> entries == old(entries)[JobsKey := Entry(JobList(fetched), now, TodayTenAM(now))]
      ensures !old(DailyHit(JobsKey, now)) ==> order == OrderAfterSet(old(order), JobsKey)
    {
      r := ServeDaily(JobsKey, now, JobList(fetched));
    }

    /** `getCachedCompanies`: the company list under key 'companies-list'. */
    method GetCachedCompanies(now: int, fetched: seq<string>) returns (r: Payload)
      requires Valid()
      modifies this
      ensures Valid()
      ensures old(DailyHit(CompaniesKey, now)) ==> r == old(entries[CompaniesKey].data) && entries == old(entries) && order == old(order)
      ensures !old(DailyHit(CompaniesKey, now)) ==> r == NameList(fetched)
      ensures !old(DailyHit(CompaniesKey, now)) ==> entries == old(entries)[CompaniesKey := Entry(NameList(fetched), now, TodayTenAM(now))]
      ensures !old(DailyHit(CompaniesKey, now)) ==> order == OrderAfterSet(old(order), CompaniesKey)
    {
      r := ServeDaily(CompaniesKey, now, NameList(fetched));
    }

    /** `getCachedData`: any key under the time-to-live rule, 60 minutes unless the caller says otherwise. */
    method GetCachedData(key: string, now: int, fetched: Payload, ttlMinutes: int := DefaultTtlMinutes) returns (r: Payload)
      requires Valid()
      modifies this
      ensures Valid()
      ensures old(TtlHit(key, now, ttlMinutes)) ==> r == old(entries[key].data) && entries == old(entries) && order == old(order)
      ensures !old(TtlHit(key, now, ttlMinutes)) ==> r == fetched
      ensures !old(TtlHit(key, now, ttlMinutes)) ==> entries == old(entries)[key := Entry(fetched, now, now)]
      ensures !old(TtlHit(key, now, ttlMinutes)) ==> order == OrderAfterSet(old(order), key)
    {
      if key in entries {
        var age := now - entries[key].timestamp;
        var maxAge := ttlMinutes * MinuteMs;
        if age < maxAge {
          r := entries[key].data;
          return;
        }
      }
      Store(key, Entry(fetched, now, now));
      r := fetched;
    }

    /** `invalidateCache`: every entry removed. */
    method InvalidateCache()
      modifies this
      ensures Valid()
      ensures entries == map[] && order == []
    {
      entries := map[];
      order := [];
    }

    /** `invalidateCacheKey`: only `key` removed; nothing changes when it is absent. */
    method InvalidateCacheKey(key: string)
      requires Valid()
      modifies this
      ensures Valid()
      ensures entries == old(entries) - {key}
      ensures order == OrderAfterDelete(old(order), key)
      ensures forall k :: k in old(entries) && k != key ==> k in entries && entries[k] == old(entries)[k]
      ensures key !in old(entries) ==> entries == old(entries)
    {
      OrderAfterDeleteDistinct(order, key);
      entries := entries - {key};
      order := OrderAfterDelete(order, key);
    }

    /** The status `getCacheInfo` reports for one key. */
    function StatusOf(key: string): (s: KeyStatus)
      reads this
      ensures s.cached <==> key in entries
      ensures key in entries ==> s.lastUpdated == Some(entries[key].timestamp) && s.size == PayloadSize(entries[key].data)
      ensures key !in entries ==> s.lastUpdated == None && s.size == 0
    {
      if key in entries then KeyStatus(true, Some(entries[key].timestamp), PayloadSize(entries[key].data))
      else KeyStatus(false, None, 0)
    }

    /** `getCacheInfo`: the status of both listing keys, the next refresh, and the key count. */
    function Info(now: int): (info: CacheInfo)
      requires Valid()
      reads this
      ensures info.jobs == StatusOf(JobsKey) && info.companies == StatusOf(CompaniesKey)
      ensures info.nextUpdate == NextUpdateTime(now)
      ensures info.totalCacheSize == |entries| == |info.cacheKeys|
      ensures forall k :: k in info.cacheKeys <==> k in entries
      ensures info.cacheKeys == order
    {
      DistinctCardinality(order);
      assert entries.Keys == set k | k in order;
      CacheInfo(StatusOf(JobsKey), StatusOf(CompaniesKey), NextUpdateTime(now), |entries|, order)
    }
  }

  /** After `invalidateCache` the next `getCachedJobs` always fetches. */
  method InvalidateThenGetJobsFetches(c: ResponseCache, now: int, fetched: seq<Job>) returns (r: Payload)
    requires c.Valid()
    modifies c
    ensures r == JobList(fetched)
    ensures c.entries == map[JobsKey := Entry(JobList(fetched), now, TodayTenAM(now))]
  {
    c.InvalidateCache();
    r := c.GetCachedJobs(now, fetched);
  }
}
