/**
 * The development job server (`app/mocks/handlers.ts`): `GET /jobs` narrows
 * the fixture list by up to four query parameters, and `GET /jobs/:id` looks
 * one job up. The fixture list is a parameter.
 */
module MockHandlers {
  import opened Wrappers
  import opened Types
  import opened UrlParams
  import Text

  /** The parameters `GET /jobs` reads, each `searchParams.get(...)`. */
  datatype JobsQuery = JobsQuery(
    company: Option<string>,
    career: Option<string>,
    employmentType: Option<string>,
    title: Option<string>)

  /** Each field is the first value given for its parameter, and absent when the parameter is. */
  function QueryOf(params: seq<Pair>): (q: JobsQuery)
    ensures q.company.None? <==> ValuesOf(params, "company") == []
    ensures q.company.Some? ==> q.company.value == ValuesOf(params, "company")[0]
    ensures q.career.None? <==> ValuesOf(params, "career") == []
    ensures q.career.Some? ==> q.career.value == ValuesOf(params, "career")[0]
    ensures q.employmentType.None? <==> ValuesOf(params, "employmentType") == []
    ensures q.employmentType.Some? ==> q.employmentType.value == ValuesOf(params, "employmentType")[0]
    ensures q.title.None? <==> ValuesOf(params, "title") == []
    ensures q.title.Some? ==> q.title.value == ValuesOf(params, "title")[0]
  {
    JobsQuery(FirstValue(params, "company"), FirstValue(params, "career"),
              FirstValue(params, "employmentType"), FirstValue(params, "title"))
  }

  /** The handler reads only its four parameters: deleting any other name changes nothing. */
  lemma QueryOfIgnoresOtherNames(params: seq<Pair>, name: string)
    requires name != "company" && name != "career" && name != "employmentType" && name != "title"
    ensures QueryOf(Without(params, name)) == QueryOf(params)
  {
    FirstValueWithout(params, name, "company");
    FirstValueWithout(params, name, "career");
    FirstValueWithout(params, name, "employmentType");
    FirstValueWithout(params, name, "title");
  }

  /** A parameter counts only when it is present and not empty (JavaScript truthiness). */
  predicate Active(p: Option<string>) {
    p.Some? && p.value != ""
  }

  /** The failure of `job.careers.includes(...)` on a record without `careers`. */
  datatype HandlerError = CareersMissing(id: string)

  predicate CompanyIs(j: JobRecord, company: string) {
    j.company == company
  }

  /** `job.careers.includes(career)`; only meaningful when `careers` is present. */
  predicate CareersInclude(j: JobRecord, career: string)
    requires j.careers.Some?
  {
    exists c :: c in j.careers.value && CareerLabel(c) == career
  }

  predicate EmploymentIs(j: JobRecord, employmentType: string) {
    EmploymentLabel(j.employmentType) == employmentType
  }

  /** `job.title.toLowerCase().includes(title.toLowerCase())`, ASCII case folding. */
  predicate TitleMatches(j: JobRecord, title: string) {
    Text.Contains(Text.Lower(j.title), Text.Lower(title))
  }

  /** `Array.prototype.filter`. */
  function Keep(s: seq<JobRecord>, p: JobRecord -> bool): (r: seq<JobRecord>)
    ensures |r| <= |s|
    ensures forall j :: j in r <==> j in s && p(j)
  {
    if s == [] then []
    else (if p(s[0]) then [s[0]] else []) + Keep(s[1..], p)
  }

  /** `filter` keeps every copy of a passing element and no copy of any other. */
  lemma {:induction false} KeepCounts(s: seq<JobRecord>, p: JobRecord -> bool, j: JobRecord)
    ensures multiset(Keep(s, p))[j] == if p(j) then multiset(s)[j] else 0
  {
    if s != [] {
      KeepCounts(s[1..], p, j);
      assert s == [s[0]] + s[1..];
      assert multiset(s) == multiset{s[0]} + multiset(s[1..]);
    }
  }

  /** `r` is `s` with some elements left out, the rest in their original order. */
  predicate IsSubsequence(r: seq<JobRecord>, s: seq<JobRecord>)
    decreases |s|
  {
    r == [] || (s != [] && ((r[0] == s[0] && IsSubsequence(r[1..], s[1..])) || IsSubsequence(r, s[1..])))
  }

  /** `filter` keeps the original order. */
  lemma {:induction false} KeepIsSubsequence(s: seq<JobRecord>, p: JobRecord -> bool)
    ensures IsSubsequence(Keep(s, p), s)
  {
    if s != [] {
      KeepIsSubsequence(s[1..], p);
      var r := Keep(s, p);
      if p(s[0]) {
        assert r == [s[0]] + Keep(s[1..], p);
        assert r[0] == s[0] && r[1..] == Keep(s[1..], p);
      } else {
        assert r == Keep(s[1..], p);
      }
    }
  }

  lemma {:induction false} KeepAppend(x: seq<JobRecord>, y: seq<JobRecord>, p: JobRecord -> bool)
    ensures Keep(x + y, p) == Keep(x, p) + Keep(y, p)
  {
    if x != [] {
      var head: seq<JobRecord> := if p(x[0]) then [x[0]] else [];
      assert x + y == [x[0]] + (x[1..] + y);
      assert x == [x[0]] + x[1..];
      KeepCons(x[0], x[1..] + y, p);
      KeepCons(x[0], x[1..], p);
      KeepAppend(x[1..], y, p);
      assert head + (Keep(x[1..], p) + Keep(y, p)) == (head + Keep(x[1..], p)) + Keep(y, p);
    } else {
      assert x + y == y;
    }
  }

  lemma KeepCons(a: JobRecord, s: seq<JobRecord>, p: JobRecord -> bool)
    ensures Keep([a] + s, p) == (if p(a) then [a] else []) + Keep(s, p)
  {
    assert ([a] + s)[0] == a && ([a] + s)[1..] == s;
  }

  /** Two filter passes are one pass with the conjunction. */
  lemma {:induction false} KeepKeep(s: seq<JobRecord>, p: JobRecord -> bool, q: JobRecord -> bool, both: JobRecord -> bool)
    requires forall j :: j in s ==> both(j) == (p(j) && q(j))
    ensures Keep(Keep(s, p), q) == Keep(s, both)
  {
    if s != [] {
      KeepKeep(s[1..], p, q, both);
      var head: seq<JobRecord> := if p(s[0]) then [s[0]] else [];
      KeepAppend(head, Keep(s[1..], p), q);
    }
  }

  /** Filtering depends only on the predicate's values on the elements. */
  lemma {:induction false} KeepExt(s: seq<JobRecord>, p: JobRecord -> bool, q: JobRecord -> bool)
    requires forall j :: j in s ==> p(j) == q(j)
    ensures Keep(s, p) == Keep(s, q)
  {
    if s != [] {
      KeepExt(s[1..], p, q);
    }
  }

  lemma {:induction false} KeepAll(s: seq<JobRecord>, p: JobRecord -> bool)
    requires forall j :: j in s ==> p(j)
    ensures Keep(s, p) == s
  {
    if s != [] {
      KeepAll(s[1..], p);
      assert s == [s[0]] + s[1..];
    }
  }

  /** A job passes the company filter when it is off or the company is equal (case-sensitive). */
  predicate PassesCompany(j: JobRecord, q: JobsQuery) {
    !Active(q.company) || CompanyIs(j, q.company.value)
  }

  predicate PassesCareer(j: JobRecord, q: JobsQuery) {
    !Active(q.career) || (j.careers.Some? && CareersInclude(j, q.career.value))
  }

  predicate PassesEmployment(j: JobRecord, q: JobsQuery) {
    !Active(q.employmentType) || EmploymentIs(j, q.employmentType.value)
  }

  predicate PassesTitle(j: JobRecord, q: JobsQuery) {
    !Active(q.title) || TitleMatches(j, q.title.value)
  }

  /** A job satisfies every supplied filter: the four conditions combined with AND. */
  predicate MatchesAll(j: JobRecord, q: JobsQuery) {
    PassesCompany(j, q) && PassesCareer(j, q) && PassesEmployment(j, q) && PassesTitle(j, q)
  }

  /** The first job in `jobs` without `careers`, as the throwing `filter` meets it. */
  function FirstWithoutCareers(jobs: seq<JobRecord>): (r: Option<JobRecord>)
    ensures r.None? <==> forall j :: j in jobs ==> j.careers.Some?
    ensures r.Some? ==> r.value in jobs && r.value.careers.None?
  {
    if jobs == [] then None
    else if jobs[0].careers.None? then Some(jobs[0])
    else FirstWithoutCareers(jobs[1..])
  }

  /** The jobs the career pass sees: those surviving the company pass. */
  function AfterCompany(jobs: seq<JobRecord>, q: JobsQuery): seq<JobRecord> {
    Keep(jobs, (j: JobRecord) => PassesCompany(j, q))
  }

  /** The career pass throws when a job that reaches it has no `careers` list. */
  predicate CareerPassFails(jobs: seq<JobRecord>, q: JobsQuery) {
    Active(q.career) && exists j :: j in jobs && PassesCompany(j, q) && j.careers.None?
  }

  /**
   * What `GET /jobs` answers, stated in one pass: the error raised at the
   * first record without `careers` that reaches the career pass, or else the
   * jobs matching every filter, in fixture order.
   */
  function ListJobs(jobs: seq<JobRecord>, q: JobsQuery): (r: Result<seq<JobRecord>, HandlerError>)
    ensures r.Err? <==> CareerPassFails(jobs, q)
    ensures r.Err? ==> exists j :: j in jobs && PassesCompany(j, q) && j.careers.None? && r.error == CareersMissing(j.id)
    ensures r.Ok? ==> IsSubsequence(r.value, jobs)
    ensures r.Ok? ==> forall j :: j in r.value <==> j in jobs && MatchesAll(j, q)
  {
    var after := AfterCompany(jobs, q);
    var missing := FirstWithoutCareers(after);
    if Active(q.career) && missing.Some? then
      assert missing.value in after;
      Err(CareersMissing(missing.value.id))
    else
      assert forall j :: j in after <==> j in jobs && PassesCompany(j, q);
      KeepIsSubsequence(jobs, (j: JobRecord) => MatchesAll(j, q));
      Ok(Keep(jobs, (j: JobRecord) => MatchesAll(j, q)))
  }

  /** A successful answer holds every copy of each matching fixture and no copy of any other. */
  lemma ListJobsCounts(jobs: seq<JobRecord>, q: JobsQuery, j: JobRecord)
    requires ListJobs(jobs, q).Ok?
    ensures multiset(ListJobs(jobs, q).value)[j] == if MatchesAll(j, q) then multiset(jobs)[j] else 0
  {
    KeepCounts(jobs, (j: JobRecord) => MatchesAll(j, q), j);
  }

  /**
   * The `GET /jobs` handler: copy the fixtures, then one filter pass per
   * supplied parameter, in the order company, career, employment type, title.
   */
  method JobsHandler(jobs: seq<JobRecord>, params: seq<Pair>) returns (r: Result<seq<JobRecord>, HandlerError>)
    ensures r == ListJobs(jobs, QueryOf(params))
  {
    var q := QueryOf(params);
    var filteredJobs := jobs;
    ghost var upTo: JobRecord -> bool := (j: JobRecord) => true;
    KeepAll(jobs, upTo);

    ghost var next: JobRecord -> bool := (j: JobRecord) => PassesCompany(j, q);
    if Active(q.company) {
      var pass := (j: JobRecord) => CompanyIs(j, q.company.value);
      KeepKeep(jobs, upTo, pass, next);
      filteredJobs := Keep(filteredJobs, pass);
    } else {
      KeepExt(jobs, upTo, next);
    }
    upTo := next;
    assert filteredJobs == AfterCompany(jobs, q) by {
      KeepExt(jobs, upTo, (j: JobRecord) => PassesCompany(j, q));
    }

    next := (j: JobRecord) => PassesCompany(j, q) && PassesCareer(j, q);
    if Active(q.career) {
      var missing := FirstWithoutCareers(filteredJobs);
      if missing.Some? {
        return Err(CareersMissing(missing.value.id));
      }
      var pass := (j: JobRecord) => j.careers.Some? && CareersInclude(j, q.career.value);
      KeepKeep(jobs, upTo, pass, next);
      filteredJobs := Keep(filteredJobs, pass);
    } else {
      KeepExt(jobs, upTo, next);
    }
    upTo := next;

    next := (j: JobRecord) => PassesCompany(j, q) && PassesCareer(j, q) && PassesEmployment(j, q);
    if Active(q.employmentType) {
      var pass := (j: JobRecord) => EmploymentIs(j, q.employmentType.value);
      KeepKeep(jobs, upTo, pass, next);
      filteredJobs := Keep(filteredJobs, pass);
    } else {
      KeepExt(jobs, upTo, next);
    }
    upTo := next;

    next := (j: JobRecord) => MatchesAll(j, q);
    if Active(q.title) {
      var pass := (j: JobRecord) => TitleMatches(j, q.title.value);
      KeepKeep(jobs, upTo, pass, next);
      filteredJobs := Keep(filteredJobs, pass);
    } else {
      KeepExt(jobs, upTo, next);
    }
    r := Ok(filteredJobs);
  }

  /** With no parameter supplied, or only empty ones, every fixture is returned in order. */
  lemma NoFiltersReturnsAll(jobs: seq<JobRecord>, params: seq<Pair>)
    requires forall name :: name in ["company", "career", "employmentType", "title"] ==> !Active(FirstValue(params, name))
    ensures ListJobs(jobs, QueryOf(params)) == Ok(jobs)
  {
    var q := QueryOf(params);
    assert !Active(q.company) && !Active(q.career) && !Active(q.employmentType) && !Active(q.title);
    KeepAll(jobs, (j: JobRecord) => MatchesAll(j, q));
  }

  /** The title filter ignores the case of the query. */
  lemma TitleIgnoresQueryCase(j: JobRecord, title: string)
    ensures TitleMatches(j, title) == TitleMatches(j, Text.Lower(title))
  {
    Text.LowerIdempotent(title);
  }

  /** The title filter ignores the case of the job title. */
  lemma TitleIgnoresJobCase(j: JobRecord, title: string)
    ensures TitleMatches(j, title) == TitleMatches(j.(title := Text.Lower(j.title)), title)
  {
    Text.LowerIdempotent(j.title);
  }

  /** A record for the examples below. */
  function Sample(id: string, title: string, company: string, careers: Option<seq<CareerType>>, career: Option<CareerType>): JobRecord {
    JobRecord(id, title, company, careers, career, Permanent, None, None, None, "")
  }

  /** Company matching is case-sensitive: "naver" does not select a NAVER job, while a lower-case title query still matches. */
  lemma CompanyCaseSensitiveTitleNot()
    ensures var j := Sample("1", "FE", "NAVER", Some([NewGrad]), None);
      && ListJobs([j], JobsQuery(Some("naver"), None, None, None)) == Ok([])
      && ListJobs([j], JobsQuery(Some("NAVER"), None, None, Some("fe"))) == Ok([j])
  {
    var j := Sample("1", "FE", "NAVER", Some([NewGrad]), None);
    assert Text.Lower("FE") == "fe";
    assert Text.Lower("fe") == "fe";
    assert Text.OccursAt("fe", "fe", 0);
    Text.ContainsIffOccurrence("fe", "fe");
    var q := JobsQuery(Some("NAVER"), None, None, Some("fe"));
    assert MatchesAll(j, q);
    KeepAll([j], (x: JobRecord) => MatchesAll(x, q));
  }

  /** A record carrying only the singular `career` field makes a career query fail instead of being skipped. */
  lemma SingularCareerRecordFails()
    ensures var j := Sample("7", "BE", "KAKAO", None, Some(NewGrad));
      ListJobs([j], JobsQuery(None, Some("신입"), None, None)) == Err(CareersMissing("7"))
  {
    var j := Sample("7", "BE", "KAKAO", None, Some(NewGrad));
    var q := JobsQuery(None, Some("신입"), None, None);
    assert AfterCompany([j], q) == [j] by {
      KeepAll([j], (x: JobRecord) => PassesCompany(x, q));
    }
  }

  /** `Array.prototype.findIndex` on the id: the first position whose id matches. */
  function FindIndex(jobs: seq<JobRecord>, id: string): (r: Option<nat>)
    ensures r.None? <==> forall i :: 0 <= i < |jobs| ==> jobs[i].id != id
    ensures r.Some? ==> r.value < |jobs| && jobs[r.value].id == id
    ensures r.Some? ==> forall i :: 0 <= i < r.value ==> jobs[i].id != id
  {
    if jobs == [] then None
    else if jobs[0].id == id then Some(0)
    else match FindIndex(jobs[1..], id)
      case None => None
      case Some(k) => Some(k + 1)
  }

  /** The answer of `GET /jobs/:id`: the job as JSON, or an empty response with a status. */
  datatype JobResponse = JobBody(job: JobRecord) | EmptyStatus(code: int)

  /** `GET /jobs/:id`: the first job with that id, or status 404. */
  function JobByIdHandler(jobs: seq<JobRecord>, id: string): (r: JobResponse)
    ensures r.EmptyStatus? <==> forall j :: j in jobs ==> j.id != id
    ensures r.EmptyStatus? ==> r.code == 404
    ensures r.JobBody? ==> exists k :: FirstWithId(jobs, id, k) && jobs[k] == r.job
  {
    match FindIndex(jobs, id)
    case None => EmptyStatus(404)
    case Some(k) => assert FirstWithId(jobs, id, k); JobBody(jobs[k])
  }

  /** Position `k` holds the first job with id `id`. */
  predicate FirstWithId(jobs: seq<JobRecord>, id: string, k: int) {
    0 <= k < |jobs| && jobs[k].id == id && forall i :: 0 <= i < k ==> jobs[i].id != id
  }
}
