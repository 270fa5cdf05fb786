# oneofjob-fe core, modelled in Dafny

This project models the logic of the oneofjob job-listing front end and
proves properties about that model. The listing is a Remix application and
the model covers the parts of it that are real logic:

- **The server response cache** (`app/lib/cache.server.ts`). This is a map
  from key to `{data, timestamp, lastCrawlTime}` with two freshness rules:
  - the daily 10:00 crawl for the job and company listings;
  - a time-to-live for any other key.

  Around them sit invalidation, a status snapshot and the next-refresh time.
- **The cache administration endpoint** (`app/routes/api.cache.ts`). It
  answers 405, 401 or clear-and-report depending on the method, the headers
  and the environment.
- **The listing transformations**:
  - the three sort orders;
  - the multi-value URL filter state;
  - the AND filter and id lookup of the development job server;
  - the query-string builder of the API client;
  - the filter summary line of the `/jobs` page;
  - the small string helpers.
- **The shared types and constant tables** (`app/lib/types.ts`).

Layout, one module per source file plus three support modules:

| file | module | models |
|---|---|---|
| `wrappers.dfy` | `Wrappers` | `Option`, `Result` |
| `text.dfy` | `Text` | `join`, `includes`, ASCII `toLowerCase`, decimal rendering, a fixed string order for `localeCompare` |
| `url_params.dfy` | `UrlParams` | `URLSearchParams` as a list of name-value pairs (section 6.2 of the WHATWG URL Standard) |
| `types.dfy` | `Types` | `app/lib/types.ts` |
| `cache.dfy` | `Cache` | `app/lib/cache.server.ts` |
| `api_cache.dfy` | `CacheAdmin` | `app/routes/api.cache.ts` |
| `job_sorting.dfy` | `JobSorting` | `app/hooks/useJobSorting.ts` |
| `job_filters.dfy` | `JobFilters` | `app/hooks/useJobFilters.ts` |
| `mock_handlers.dfy` | `MockHandlers` | `app/mocks/handlers.ts` |
| `api.dfy` | `Api` | `app/lib/api.ts` |
| `utils.dfy` | `Utils` | `app/lib/utils.ts` |
| `jobs_route.dfy` | `JobsRoute` | `app/routes/jobs.tsx` |

## Modelling choices

- **Instants.** An instant is an `int` of milliseconds, read as local time.
  A local day is `now / 86_400_000`, and "10:00 today" is that day times
  86,400,000 plus 36,000,000. Every clock read is an explicit `now`
  parameter, and one operation uses a single `now`.
- **Fetches and date parsing.**
  - A fetch is a parameter holding the fetched value, called `fetched`.
  - `new Date(s).getTime()` is a parameter `millis: string -> int`.
  - In the remaining-days helper, the local day number of a date string is
    a parameter `dayNumber`.
  - The locale date formatter is a parameter `format`. It returns `None`
    when it throws.
- **The cache is a class.** Its `entries` map is changed in place. It also
  keeps an `order` sequence, because `getCacheInfo` reports
  `Array.from(keys())`, and a JavaScript `Map` keeps its keys in insertion
  order. `Valid()` says that `order` has no repeats and holds exactly the
  keys of `entries`. `getCachedCompanies` stores and serves whatever
  `CompaniesApi.getAll` returns, and that call returns a constant list of
  three names.
- **`URLSearchParams` is a sequence of pairs.**
  - `append` and `delete` keep the order.
  - `set` replaces the first pair with that name and drops the later ones,
    or appends when the name is absent.
  - `getAll` and `get` read the list in order.

  The hooks build a fresh object with `new URLSearchParams(...)` and mutate
  it. The model does the same through the class `UrlParams.SearchParams`.
- **A request is its pair list.** The loader's request reaches the
  development server as the list of name-value pairs that `Api.QueryPairs`
  emits, and the server reads that list with `get`. Percent-encoding and
  decoding are taken as the identity. Without them, parsing the plain join of
  `UrlParams.Serialize` back would not round-trip values that contain `&` or
  `=`, so `JobsRoute.LoaderRoundTrip` and `JobsRoute.PageRequestSameAnswer`
  are stated on the pair list, not on the serialised text.
- **Two job shapes.**
  - `Types.Job` is the declared type: it has `careers` and no `period`.
  - `Types.JobRecord` is the shape the sort and the development server meet
    at run time: `careers` may be missing, and `career` and `period` may be
    present.
- **The sort.** It copies the jobs into a fresh array and runs an in-place
  insertion sort. The sort is generic over any comparator that is a total
  preorder, and each of the three comparators is proved to be one.
  `localeCompare` is replaced by plain lexicographic order on code points.
- **The `/jobs` handler.** It is a method with the four conditional filter
  passes of the source, proved equal to a one-pass specification
  (`MockHandlers.ListJobs`). When a career filter is given and a record
  reaching that pass has no `careers` array, `job.careers.includes` throws.
  The model returns this as the error outcome `CareersMissing` and does not
  drop the record.

## Model

| member | source | states |
|---|---|---|
| Text.Join | app/routes/jobs.tsx:67 | the length of `parts.join(sep)` for a non-empty list is the parts' total length plus one separator per gap |
| Text.JoinContainsPart | app/routes/jobs.tsx:67 | every part of a joined list occurs in the joined text |
| Text.Contains | app/hooks/useJobSorting.ts:23 | `includes`: a needle is never found in a shorter text, and the empty needle is always found |
| Text.ContainsIffOccurrence | app/hooks/useJobSorting.ts:23 | `includes` holds exactly when the needle occurs at some position of the text |
| Text.Lower | app/lib/utils.ts:84 | `toLowerCase`: same length, and each character is the lower-case form of the one at that position |
| Text.LowerIdempotent | app/lib/utils.ts:84 | lower-casing twice equals lower-casing once |
| Text.NatToString | app/lib/utils.ts:47 | the decimal text of a count: non-empty, all digits, and with no leading zero unless the count is 0 |
| Text.NatToStringRoundTrip | app/lib/utils.ts:47 | the decimal text of a day count reads back as that count |
| Text.NatToStringInjective | app/lib/utils.ts:47 | different counts give different decimal texts |
| Text.TextLe | app/hooks/useJobSorting.ts:44 | the order standing in for `localeCompare(...) <= 0`: a prefix ranks first, and when the first characters differ they alone decide |
| Text.TextLeTotal | app/hooks/useJobSorting.ts:44 | the string order standing in for `localeCompare` relates every pair |
| Text.TextLeTransitive | app/hooks/useJobSorting.ts:44 | that order is transitive |
| Text.TextLeAntisymmetric | app/hooks/useJobSorting.ts:44 | that order is antisymmetric |
| Types.CareerFromLabel | app/lib/types.ts:5 | a label maps to the career type carrying it, and nothing else maps |
| Types.CareerLabelRoundTrip | app/lib/types.ts:5 | reading back a career type's label gives the type |
| Types.CareerBadgeVariant | app/lib/types.ts:106-110 | 신입 maps to success, 경력 to primary and 인턴 to warning, each in both directions |
| Types.SortOptions | app/lib/types.ts:115-119 | three entries in the order recent, deadline, company; every option with its caption is present; the values are distinct |
| Types.CareerOptions | app/lib/types.ts:124 | three distinct entries labelled 신입, 경력, 인턴 in that order |
| Types.CareerOptionsCoverAll | app/lib/types.ts:124 | every career type is listed |
| UrlParams.ValuesOf | app/hooks/useJobFilters.ts:9-10 | `getAll` returns exactly the values paired with the name |
| UrlParams.FirstValue | app/hooks/useJobFilters.ts:11 | `get` is `null` exactly when `getAll` is empty, and otherwise is the first value |
| UrlParams.Without | app/hooks/useJobFilters.ts:18 | `delete` keeps exactly the pairs with another name |
| UrlParams.ValuesOfWithout | app/hooks/useJobFilters.ts:18 | after `delete`, `getAll` of that name is empty and of every other name unchanged |
| UrlParams.WithoutAppend | app/hooks/useJobFilters.ts:18 | `delete` distributes over concatenation |
| UrlParams.SetValue | app/hooks/useJobFilters.ts:36 | after `set`, `getAll` of the name is exactly the new value and the pairs with other names are as before, in order; the new pair takes the slot of the first pair with that name, the pairs before it unchanged, or is appended at the end when the name is absent |
| UrlParams.ReplaceFirstSlot | app/hooks/useJobFilters.ts:36 | replacing keeps the pairs before the first pair with the name and puts the new pair in its slot |
| UrlParams.FirstValueWithout | app/hooks/useJobFilters.ts:18 | after `delete`, `get` of every other name is unchanged |
| UrlParams.Serialize | app/lib/api.ts:22 | `toString`: the serialised query is empty exactly when there are no pairs |
| UrlParams.SearchParams.constructor | app/hooks/useJobFilters.ts:16 | the new object holds a copy of the given pairs |
| UrlParams.SearchParams.Append | app/hooks/useJobFilters.ts:22 | one pair is added at the end |
| UrlParams.SearchParams.Delete | app/hooks/useJobFilters.ts:18 | the pairs with that name are removed |
| UrlParams.SearchParams.Set | app/hooks/useJobFilters.ts:36 | the list becomes its `set` result |
| Cache.PayloadSize | app/lib/cache.server.ts:123 | `data?.length || 0`: a job or name list gives its length, and the size is 0 exactly for an empty list or a value whose length is missing or 0 |
| Cache.IsCacheValid | app/lib/cache.server.ts:71-84 | an entry is valid exactly when its crawl time is at or after the latest 10:00 at or before `now`, one day before the next update time |
| Cache.IsTtlFresh | app/lib/cache.server.ts:164-168 | an entry is served exactly until `ttlMinutes` minutes after its timestamp; with a TTL of 0 or less it is never served |
| Cache.TodayTenAM | app/lib/cache.server.ts:89-94 | the result is a 10:00 instant in the same local day as `now` |
| Cache.NextUpdateTime | app/lib/cache.server.ts:139-152 | the result is a 10:00 instant strictly after `now` and at most one day ahead |
| Cache.NextUpdateTimeUnique | app/lib/cache.server.ts:139-152 | it is the only 10:00 instant in that window, so it is today's 10:00 before 10:00 and tomorrow's afterwards |
| Cache.TenAMSpacing | app/lib/cache.server.ts:77-78 | distinct 10:00 instants are at least a day apart |
| Cache.FreshEntryIsValid | app/lib/cache.server.ts:33-37 | an entry just written with today's 10:00 as its crawl time is valid at once |
| Cache.DailyEntryLifetime | app/lib/cache.server.ts:71-84 | an entry written at any moment of a day is valid exactly until 10:00 of the next day |
| Cache.PreCrawlEntryOutlivesCrawl | app/lib/cache.server.ts:71-84 | an entry written at 09:00 is still served after that day's 10:00 crawl |
| Cache.YesterdayCrawlExamples | app/lib/cache.server.ts:76-83 | a crawl time of yesterday's 10:00 is valid at 09:00 today and stale at 10:01 |
| Cache.TtlBoundaryExamples | app/lib/cache.server.ts:164-171 | with the 60-minute default, an entry is served at 59 minutes and refetched at 60 and 61 |
| Cache.OrderAfterDelete | app/lib/cache.server.ts:109 | deleting a key keeps exactly the other keys |
| Cache.OrderAfterDeleteDistinct | app/lib/cache.server.ts:109 | deleting keeps the key order free of repeats |
| Cache.DistinctCardinality | app/lib/cache.server.ts:131-132 | a key order without repeats is as long as the key set |
| Cache.ResponseCache.constructor | app/lib/cache.server.ts:5 | the cache starts empty and valid |
| Cache.ResponseCache.Store | app/lib/cache.server.ts:33-37 | `set` writes the entry, keeps an existing key in place and appends a new one |
| Cache.ResponseCache.ServeDaily | app/lib/cache.server.ts:17-39 | on a hit the stored data is returned and nothing changes; on a miss the fetched value is stored with `timestamp = now` and today's 10:00, and returned |
| Cache.ResponseCache.GetCachedJobs | app/lib/cache.server.ts:17-40 | the same for key 'jobs-list' with a fetched job list |
| Cache.ResponseCache.GetCachedCompanies | app/lib/cache.server.ts:45-65 | the same for key 'companies-list' with a fetched name list |
| Cache.ResponseCache.GetCachedData | app/lib/cache.server.ts:157-184 | a hit exactly when the entry exists and is strictly younger than the TTL, which is 60 minutes when the caller gives none; a miss stores `timestamp = lastCrawlTime = now` and returns the fetched value |
| Cache.ResponseCache.InvalidateCache | app/lib/cache.server.ts:99-102 | the map is left empty |
| Cache.ResponseCache.InvalidateCacheKey | app/lib/cache.server.ts:107-110 | only the key is removed, every other entry is identical, and an absent key changes nothing |
| Cache.ResponseCache.StatusOf | app/lib/cache.server.ts:116-129 | `cached` holds exactly when the key is present; `size` is the data length, or 0 when the key is absent |
| Cache.ResponseCache.Info | app/lib/cache.server.ts:115-134 | the snapshot has both key statuses, the next update time, a total equal to the key count and the length of `cacheKeys`, and `cacheKeys` lists exactly the present keys in the Map's insertion order |
| Cache.InvalidateThenGetJobsFetches | app/lib/cache.server.ts:17-40 | after `invalidateCache` the next `getCachedJobs` always fetches and stores only the job list |
| CacheAdmin.ExpectedBearer | app/routes/api.cache.ts:13 | the text is 'Bearer ' followed by ADMIN_API_KEY, and exactly 'Bearer undefined' when the key is unset |
| CacheAdmin.WebhookMatches | app/routes/api.cache.ts:43 | the secrets match exactly when the header is present and equals the set variable; a missing header (`null`) never matches, not even an unset variable (`undefined`) |
| CacheAdmin.ActionDecision | app/routes/api.cache.ts:32-55 | 405 exactly for a non-POST; no check outside production; in production the webhook secret first, then the exact bearer, otherwise 401 |
| CacheAdmin.LoaderAuthorized | app/routes/api.cache.ts:11-16 | `loader` admits every request outside production, and in production exactly the header `Bearer <ADMIN_API_KEY>` |
| CacheAdmin.UnsetAdminKeyAcceptsUndefinedBearer | app/routes/api.cache.ts:13 | with the key unset, the literal header "Bearer undefined" is accepted by both handlers |
| CacheAdmin.NoCredentialsRefused | app/routes/api.cache.ts:43-54 | in production a request with neither header is refused, even when both secrets are unset |
| CacheAdmin.Loader | app/routes/api.cache.ts:9-26 | 401 exactly when refused, otherwise the status snapshot; the cache is only read |
| CacheAdmin.Action | app/routes/api.cache.ts:32-75 | 405 and 401 leave the cache untouched; an accepted POST clears it and reports the snapshots before and after |
| CacheAdmin.AfterSnapshotIsEmpty | app/routes/api.cache.ts:59-61 | the `after` snapshot shows both keys uncached with size 0, and no keys at all |
| JobSorting.StartMillis | app/hooks/useJobSorting.ts:15-16 | a present, non-empty start date is parsed; a missing or empty one counts as 1970-01-01, instant 0 |
| JobSorting.HasNoDeadline | app/hooks/useJobSorting.ts:23-24 | no deadline exactly when the end date is missing or empty or the period mentions '채용 마감 기한 없음'; a job with a deadline has a non-empty end date |
| JobSorting.Precedes | app/hooks/useJobSorting.ts:13-44 | recent: newest start first. deadline: a dated job always ranks before an undated one and never after it, dated jobs by earliest end, undated jobs by newest start. company: by name |
| JobSorting.PrecedesTotal | app/hooks/useJobSorting.ts:13-44 | each of the three comparators relates every pair of jobs |
| JobSorting.PrecedesTransitive | app/hooks/useJobSorting.ts:13-44 | each comparator is transitive |
| JobSorting.PrecedesIsTotalPreorder | app/hooks/useJobSorting.ts:13-44 | each comparator is a total preorder, so it is a consistent sort order |
| JobSorting.SortInPlace | app/hooks/useJobSorting.ts:13 | the array ends up ordered by the comparator and is a permutation of its old contents |
| JobSorting.SortJobs | app/hooks/useJobSorting.ts:8-48 | the result is a permutation of the input. recent: start dates non-increasing (missing is 0). deadline: dated jobs first, dated ones by end date non-decreasing, undated ones by start date non-increasing. company: names non-decreasing |
| JobSorting.RollingPeriodKeepsDeadline | app/hooks/useJobSorting.ts:22-24 | a period of '상시채용' with an end date does not count as lacking a deadline |
| JobSorting.NoDeadlinePeriodOverridesEndDate | app/hooks/useJobSorting.ts:23 | a period of '채용 마감 기한 없음' counts as lacking a deadline even when an end date is set |
| JobSorting.TypedJobDeadline | app/hooks/useJobSorting.ts:23 | a typed job lacks a deadline exactly when its end date is missing or empty |
| JobSorting.SortState.constructor | app/hooks/useJobSorting.ts:6 | the initial order is recent |
| JobSorting.SortState.SetSortBy | app/hooks/useJobSorting.ts:6 | the chosen order is stored |
| JobSorting.SortState.SortedJobs | app/hooks/useJobSorting.ts:8-49 | a permutation of the jobs, ordered by the chosen comparator |
| JobFilters.FiltersOf | app/hooks/useJobFilters.ts:8-12 | companies and careers are all their values in order, and the keyword is the first keyword value or '' |
| JobFilters.RemoveAll | app/hooks/useJobFilters.ts:21 | keeps exactly the other values |
| JobFilters.RemoveAllAppend | app/hooks/useJobFilters.ts:21 | filtering distributes over concatenation |
| JobFilters.Toggled | app/hooks/useJobFilters.ts:20-27 | the toggled value is in the new list exactly when it was not in the old one, and every other value keeps its membership |
| JobFilters.ToggleAbsentTwiceRestores | app/hooks/useJobFilters.ts:20-27 | toggling an absent value twice restores the value list |
| JobFilters.AppendEach | app/hooks/useJobFilters.ts:21-27 | the `forEach` loop appends one pair per value, in order |
| JobFilters.ReplacedValuesFacts | app/hooks/useJobFilters.ts:16-27 | deleting a name and re-appending a value list sets that name's values and leaves the other pairs and the other names' values as before |
| JobFilters.ToggleFilter | app/hooks/useJobFilters.ts:14-31 | the toggled name's values lose every copy of the value if it was present, and gain it at the end if it was absent; the other pairs keep their order and the other names their values |
| JobFilters.SetKeyword | app/hooks/useJobFilters.ts:33-41 | a non-empty keyword leaves exactly one keyword pair holding it; '' removes every keyword pair; other pairs are untouched |
| JobFilters.ClearAllFilters | app/hooks/useJobFilters.ts:43-45 | empty params, so every derived filter is empty |
| MockHandlers.Keep | app/mocks/handlers.ts:21-43 | `filter` holds an element exactly when the input holds it and it satisfies the predicate, and is no longer than the input |
| MockHandlers.KeepCounts | app/mocks/handlers.ts:21-43 | `filter` keeps every copy of a passing element and no copy of any other: the count of each element is its input count or 0 |
| MockHandlers.KeepIsSubsequence | app/mocks/handlers.ts:21-45 | the filtered list keeps the original order |
| MockHandlers.KeepKeep | app/mocks/handlers.ts:21-43 | two filter passes equal one pass with the conjunction |
| MockHandlers.FirstWithoutCareers | app/mocks/handlers.ts:27-31 | finds a record without `careers` exactly when one exists |
| MockHandlers.QueryOf | app/mocks/handlers.ts:14-18 | each field is the first value of its parameter, and absent exactly when the parameter has no value |
| MockHandlers.QueryOfIgnoresOtherNames | app/mocks/handlers.ts:14-18 | deleting any parameter other than the four leaves the query unchanged |
| MockHandlers.ListJobs | app/mocks/handlers.ts:21-45 | fails exactly when the career filter is active and a record passing the company filter lacks `careers`, naming such a record; otherwise keeps fixture order and holds a job exactly when it is a fixture passing every active filter |
| MockHandlers.ListJobsCounts | app/mocks/handlers.ts:21-45 | a successful answer holds every copy of each fixture passing every active filter and no copy of any other |
| MockHandlers.JobsHandler | app/mocks/handlers.ts:10-46 | the four sequential passes give exactly the one-pass AND specification, error outcome included |
| MockHandlers.NoFiltersReturnsAll | app/mocks/handlers.ts:21-39 | with every parameter missing or empty, all fixtures come back in order |
| MockHandlers.TitleIgnoresQueryCase | app/mocks/handlers.ts:40-41 | the title filter ignores the case of the query |
| MockHandlers.TitleIgnoresJobCase | app/mocks/handlers.ts:40-41 | the title filter ignores the case of the job title |
| MockHandlers.CompanyCaseSensitiveTitleNot | app/mocks/handlers.ts:23-42 | 'naver' does not select a NAVER job, while a lower-case title query still matches |
| MockHandlers.SingularCareerRecordFails | app/mocks/handlers.ts:27-31 | a record with only the singular `career` makes a career query fail rather than being skipped |
| MockHandlers.FindIndex | app/mocks/handlers.ts:54 | the first position with that id, or none when no id matches |
| MockHandlers.JobByIdHandler | app/mocks/handlers.ts:49-61 | the first job with that id, or an empty 404 exactly when there is none |
| Api.ToText | app/lib/api.ts:17-19 | a string is kept, a one-element array is its element, and an empty array is '' |
| Api.QueryPairs | app/lib/api.ts:14-20 | at most one pair per property |
| Api.QueryPairsMembership | app/lib/api.ts:16-20 | a pair is emitted exactly when some defined, non-'' property stringifies to it |
| Api.QueryPairsAppend | app/lib/api.ts:16-20 | emission follows key order: the pairs of earlier properties come first |
| Api.ConvertFilterToQueryParams | app/lib/api.ts:11-23 | '' for a missing filter; otherwise the serialisation of one appended pair per emitted property |
| Api.JobFilterQuery | app/lib/api.ts:16-20 | a `JobFilter` always sends both lists, comma-joined and even when empty, and sends the keyword only when it is non-empty |
| Api.EmptyJobFilterQuery | app/lib/api.ts:17 | the empty filter gives "companies=&careers=" |
| Api.QueryPairsEmptyIff | app/lib/api.ts:16-20 | no pair is appended exactly when no property is emitted |
| Api.QueryString | app/lib/api.ts:11-23 | '' without a filter; with one, '' exactly when no property is emitted |
| Api.BaseUrl | app/lib/api.ts:6 | API_URL when it is set and non-empty, otherwise http://localhost:3000 |
| Api.JobsUrl | app/lib/api.ts:34 | the base plus '/jobs', followed by '?' and the query exactly when the query is non-empty |
| Api.GetAllUrl | app/lib/api.ts:32-34 | the bare '/jobs' URL without a filter or when the query is ''; otherwise '/jobs?' followed by the query |
| Api.SingleFieldQueryString | app/lib/api.ts:16-22 | a one-property object gives `key=value`, or '' for an empty value |
| Api.SingleFieldUrl | app/lib/api.ts:32-34 | `getAll` with one string field requests the jobs URL with exactly `key=value`, and the bare URL for '' |
| Api.GetByCompanyUrl | app/lib/api.ts:61-63 | `getByCompany` requests the jobs URL with exactly `company=<name>`, and the bare URL for '' |
| Api.GetByCareerUrl | app/lib/api.ts:68-71 | `getByCareer` requests the jobs URL with exactly `career=<value>`, and the bare URL for '' |
| Api.CompaniesGetAll | app/lib/api.ts:81-84 | always NAVER, KAKAO, LINE, which are distinct |
| Utils.SliceTo | app/lib/utils.ts:62 | `slice(0, end)` with clamping, and counting from the end for a negative `end` |
| Utils.TruncateText | app/lib/utils.ts:60-63 | unchanged when it fits; otherwise the first `maxLength` characters and '...', of length `maxLength + 3` |
| Utils.TruncateBound | app/lib/utils.ts:60-63 | the result is at most `maxLength + 3` long and starts with a prefix of the text |
| Utils.TruncateIdempotent | app/lib/utils.ts:60-63 | truncating twice equals truncating once |
| Utils.KeptClasses | app/lib/utils.ts:102 | exactly the defined, non-empty class names are kept |
| Utils.ClassNames | app/lib/utils.ts:101-103 | the result is empty exactly when every argument is undefined or '', and every other argument occurs in it |
| Utils.ClassNamesAppend | app/lib/utils.ts:101-103 | splitting the arguments splits the result at one space, unless one side contributes nothing |
| Utils.CalculateRemainingDays | app/lib/utils.ts:31-52 | '상시채용' for a missing date; otherwise '마감됨' exactly when the day difference is negative, '오늘 마감' exactly when it is 0, and the count followed by '일 남음' when it is positive |
| Utils.RemainingDaysReadsBack | app/lib/utils.ts:47 | the count in a days-left caption reads back as the day difference |
| Utils.RemainingDaysDistinct | app/lib/utils.ts:42-47 | different future end days give different captions |
| Utils.FormatDate | app/lib/utils.ts:7-24 | '미정' for a missing date, '날짜 오류' when the formatter throws, and the formatted text otherwise |
| Utils.GetCompanyLogoUrl | app/lib/utils.ts:83-85 | '/images/companies/', then the lower-cased name, then '.svg' |
| Utils.LogoUrlSameIff | app/lib/utils.ts:83-85 | two names share a logo exactly when they agree up to letter case |
| Utils.LogoUrlOfLowered | app/lib/utils.ts:84 | a lower-cased name has the same logo as the name |
| JobsRoute.OrUndefined | app/routes/jobs.tsx:23-26 | a missing or '' parameter becomes undefined, and any other value is kept |
| JobsRoute.LoaderFilter | app/routes/jobs.tsx:22-27 | each field is the first value of its parameter, with missing or '' mapped to undefined |
| JobsRoute.LoaderFilterNormal | app/routes/jobs.tsx:22-27 | a loader field is never '' |
| JobsRoute.LoaderQueryPairs | app/routes/jobs.tsx:22-30 | the request carries exactly the set fields, in the order company, career, employment type, title |
| JobsRoute.ReadBackField | app/routes/jobs.tsx:22-30 | reading a parameter of that request gives back the field it came from |
| JobsRoute.LoaderRoundTrip | app/routes/jobs.tsx:22-30 | the development server reads back exactly the loader's filter |
| JobsRoute.SameEffectSameAnswer | app/mocks/handlers.ts:23-43 | queries that agree on which filters are active, and on their values, get the same answer |
| JobsRoute.PageRequestSameAnswer | app/routes/jobs.tsx:18-30 | a request made through the page gets the same answer as sending the page's own parameters straight to the server |
| JobsRoute.GenerateFilterText | app/routes/jobs.tsx:47-69 | pushing one part per truthy field yields the declarative summary |
| JobsRoute.AllJobsIffNothingSet | app/routes/jobs.tsx:66-68 | '전체 채용공고' is shown exactly when no field is set |
| JobsRoute.FilterParts | app/routes/jobs.tsx:48-64 | one part per set field, in the order company, career, employment type, title; each is its label ('회사', '경력', '고용형태', '제목'), ': ' and the value |
| JobsRoute.Summary | app/routes/jobs.tsx:66-68 | '전체 채용공고' exactly when there are no parts; otherwise text ending in ' 조건으로 검색된 결과' |
| JobsRoute.SummaryJoinsParts | app/routes/jobs.tsx:66-68 | one part is followed directly by the suffix; with more, the last part follows the join of the others after ' / ', then the suffix |
| JobsRoute.SummaryMentionsSetField | app/routes/jobs.tsx:66-67 | every part appears in the caption, and the caption ends with ' 조건으로 검색된 결과' |
| JobsRoute.CompanyOnlySummary | app/routes/jobs.tsx:50-51 | a company-only filter gives '회사: <name> 조건으로 검색된 결과' |

## Left out

- Network I/O. The `fetch` calls in `JobsApi.getAll` and `JobsApi.getById`, their error throwing, and the JSON decoding are not modelled. The fetched value is an input, and the request URL is what the model computes.
- `JobsApi.getById`: it only builds a URL and fetches, so it is not modelled.
- The `remember` singleton wrapper and the MSW wiring, delays and server setup. The cache is one explicit object.
- Concurrent requests racing on a cold cache key. The model is sequential.
- Real clocks, time zones and daylight saving time. A local day is exactly 86,400,000 ms.
- Cache.ResponseCache.ServeDaily: the source reads the clock separately in the validity check and in the write. The model uses one `now` for both.
- Date-string parsing, `Intl.DateTimeFormat`, `localeCompare` and Unicode case mapping. They become parameters, lexicographic code-point order and ASCII lower-casing respectively.
- Utils.CalculateRemainingDays: an unparsable date gives `NaN` in the source and the caption "NaN일 남음". The model's `dayNumber` always returns an integer, so this caption is not modelled.
- JobSorting.SortJobs: `Array.prototype.sort` is stable, but the contract does not state the order of jobs the comparator ranks equal. The `NaN` outcome of unparsable dates is not modelled either.
- JobSorting: the `default:` branch of the switch is unreachable, because `SortOption` is a closed datatype here.
- CacheAdmin.Action: the `catch` branch answering 500 is not modelled. Nothing in the modelled invalidation can throw.
- CacheAdmin: the `environment` and `timestamp` fields of the responses, and all logging, are not modelled.
- `getCacheStats` (app/lib/cache.server.ts:189-208). `JSON.stringify` sizes and `process.memoryUsage` are not modelled.
- The percent-encoding of `URLSearchParams.toString`. The serialisation is a plain `name=value&...` join.
- Utils.TruncateText: `maxLength` is an integer. Fractional lengths are not modelled.
- Cache.ResponseCache.GetCachedData: the TTL is a whole number of minutes (`int`), so a fractional `ttlMinutes` such as 0.5 (a 30-second TTL) cannot be expressed; Cache.IsTtlFresh takes the same integer TTL. No caller in the modelled files passes a TTL.
- Utils.SliceTo / Utils.TruncateText: lengths and cut points are counted in Unicode code points, while JavaScript's `length` and `slice` count UTF-16 code units. Text outside the Basic Multilingual Plane therefore diverges: `truncateText("😀😀", 2)` gives `"😀..."` in the source and `"😀😀"` in the model, and the source can cut a surrogate pair in half, which the model never does.
- `highlightText`: it builds a regular expression from unescaped input, and regular-expression semantics are not modelled.
- `CAREER_BADGE_STYLES` and every React component, which are presentational. This includes the remaining-days copies inside the two JobCard components, which use floating-point division.
- The mock fixtures (app/mocks/data.ts) appear only as sample values in lemmas.
- Raw-record normalisation (singular `career` into `careers`, structured timestamps), because the modelled files contain no such step. The fixtures are typed `RawJobFromServer` (app/mocks/data.ts:1), which app/lib/types.ts does not declare, and the development server filters the records as written. A record carrying only `career` makes a career filter fail (`MockHandlers.SingularCareerRecordFails`).
